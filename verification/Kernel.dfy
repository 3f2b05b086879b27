/** The kernel as one state machine: the scheduler, physical memory and the frame allocator
    together, over every interleaving of process creation, loading, page faults at any address,
    stores, unmapping, scheduling, exits and messages. One kind of step is not harmless, a fault
    that maps a page where user code or the kernel's root must not have one; the condition is exact
    and the theorems about runs are for runs that meet it. */
module Kernel {
  import opened Basics
  import opened PageTables
  import opened Worlds
  import opened Vmm
  import opened Spaces
  import opened UserMemory
  import opened Teardown
  import opened Processes
  import opened SlotZero
  import opened Lifetime
  import opened LoadRuns
  import opened Elf
  import opened Scheduler
  import opened SchedulerRuns

  /** `building` holds the roots created and not handed to a task, those of failed loads for ever;
      `lost` the frames that went to a failed mapping or into the kernel's half, which are never given
      back. */
  datatype Kernel = Kernel(y: Sys, w: World, pages: Tags, building: set<Frame>, lost: set<Frame>)

  ghost function Roots(k: Kernel): set<Frame> {
    k.y.live + k.building
  }

  // ---------------------------------------------------------------------------
  // Memory shared by many address spaces
  // ---------------------------------------------------------------------------

  ghost predicate ProcessRoot(w: World, kroot: Frame, r: Frame) {
    IsRoot(w.tags, r) && r != kroot && r != 0 && ZeroLinked(w, kroot, r)
  }

  /** Every table and every page belongs to the kernel or to one of the processes. */
  ghost predicate Recorded(w: World, pages: Tags, kroot: Frame, roots: set<Frame>) {
    && (forall f :: f in w.tags ==> w.tags[f].space == kroot || w.tags[f].space in roots)
    && (forall f :: f in pages ==> pages[f].space in roots)
  }

  ghost predicate MemoryInv(w: World, pages: Tags, kroot: Frame, cap: nat, roots: set<Frame>) {
    && Sound(w, kroot) && Owned(w, kroot, pages, cap) && SupervisorKernel(w, kroot) && OnlySlotZero(w, kroot)
    && (forall r :: r in roots ==> ProcessRoot(w, kroot, r))
    && Recorded(w, pages, kroot, roots) && OpenTables(w)
  }

  /** Space `r` translates as before, and its pages hold what they held. */
  ghost predicate SpaceKept(w: World, pages: Tags, w': World, pages': Tags, r: Frame) {
    && IsRoot(w'.tags, r)
    && (forall v :: 0 <= v < VPN_LIMIT ==> Walk(w'.mem, r, v) == Walk(w.mem, r, v))
    && (forall f :: f in pages && pages[f].space == r ==>
          f in pages' && pages'[f] == pages[f] && f in w.mem && f in w'.mem && w'.mem[f] == w.mem[f])
  }

  /** Every space but `subject` is kept. */
  ghost predicate Isolates(w: World, pages: Tags, w': World, pages': Tags, subject: Frame) {
    forall r :: IsRoot(w.tags, r) && r != subject ==> SpaceKept(w, pages, w', pages', r)
  }

  /** The user half of space `r` translates as before, and its pages hold what they held. */
  ghost predicate UserKept(w: World, pages: Tags, w': World, pages': Tags, r: Frame) {
    && IsRoot(w'.tags, r)
    && (forall v :: 0 <= v < VPN_LIMIT && !Low(v) ==> Walk(w'.mem, r, v) == Walk(w.mem, r, v))
    && (forall f :: f in pages && pages[f].space == r ==>
          f in pages' && pages'[f] == pages[f] && f in w.mem && f in w'.mem && w'.mem[f] == w.mem[f])
  }

  lemma SpaceUserKept(w: World, pages: Tags, w': World, pages': Tags, r: Frame)
    requires SpaceKept(w, pages, w', pages', r)
    ensures UserKept(w, pages, w', pages', r)
  {
    hide Walk;
  }

  lemma RootKept(w: World, pages: Tags, w': World, pages': Tags, kroot: Frame, subject: Frame, r: Frame)
    requires Kept(w, pages, w', pages', {subject}) && subject != kroot && IsRoot(w.tags, kroot)
    requires ProcessRoot(w, kroot, r) && r != subject
    ensures ProcessRoot(w', kroot, r)
  {
    assert w.tags[r].space !in {subject} && w.tags[kroot].space !in {subject};
    assert w'.mem[r] == w.mem[r] && w'.mem[kroot] == w.mem[kroot];
  }

  lemma KeptIsolates(w: World, pages: Tags, w': World, pages': Tags, subject: Frame)
    requires Kept(w, pages, w', pages', {subject})
    requires forall r, v :: IsRoot(w.tags, r) && r != subject && 0 <= v < VPN_LIMIT ==>
             Walk(w'.mem, r, v) == Walk(w.mem, r, v)
    ensures Isolates(w, pages, w', pages', subject)
  {
    hide Walk;
    forall r | IsRoot(w.tags, r) && r != subject ensures SpaceKept(w, pages, w', pages', r) {
      assert w.tags[r].space !in {subject};
    }
  }

  lemma StillRecorded(w: World, pages: Tags, w': World, pages': Tags, kroot: Frame, roots: set<Frame>, subject: Frame)
    requires Kept(w, pages, w', pages', {subject}) && Recorded(w, pages, kroot, roots)
    ensures Recorded(w', pages', kroot, roots + {subject})
  {
    forall f | f in w'.tags ensures w'.tags[f].space == kroot || w'.tags[f].space in roots + {subject} {
      assert w'.tags[f].space !in {subject} ==> f in w.tags && w.tags[f] == w'.tags[f];
    }
    forall f | f in pages' ensures pages'[f].space in roots + {subject} {
      assert pages'[f].space !in {subject} ==> f in pages && pages[f] == pages'[f];
    }
  }

  lemma SameKernelTables(w: World, pages: Tags, w': World, pages': Tags, kroot: Frame, subject: Frame)
    requires Kept(w, pages, w', pages', {subject}) && subject != kroot
    ensures KernelTables(w', kroot) == KernelTables(w, kroot)
  {
    forall f ensures f in KernelTables(w', kroot) <==> f in KernelTables(w, kroot) {
      assert f in w.tags && w.tags[f].space == kroot ==> w.tags[f].space !in {subject};
      assert f in w'.tags && w'.tags[f].space == kroot ==> w'.tags[f].space !in {subject};
    }
  }

  lemma OthersStay(w: World, pages: Tags, w': World, pages': Tags, kroot: Frame, cap: nat, roots: set<Frame>,
                   subject: Frame)
    requires MemoryInv(w, pages, kroot, cap, roots) && Kept(w, pages, w', pages', {subject}) && subject != kroot
    ensures forall r :: r in roots && r != subject ==> ProcessRoot(w', kroot, r)
    ensures SupervisorKernel(w', kroot) && OnlySlotZero(w', kroot)
    ensures Recorded(w', pages', kroot, roots + {subject}) && KernelTables(w', kroot) == KernelTables(w, kroot)
  {
    hide Sound, Owned, Kept, ProcessRoot, Recorded, SupervisorKernel, KernelTables;
    SameKernelTables(w, pages, w', pages', kroot, subject);
    KernelKept(w, pages, w', pages', kroot, subject);
    StillRecorded(w, pages, w', pages', kroot, roots, subject);
    forall r | r in roots && r != subject ensures ProcessRoot(w', kroot, r) {
      RootKept(w, pages, w', pages', kroot, subject, r);
    }
  }

  lemma CreateKeeps(w: World, pages: Tags, kroot: Frame, cap: nat, roots: set<Frame>, c: Frame)
    requires MemoryInv(w, pages, kroot, cap, roots) && c in w.free
    ensures kroot in w.mem
    ensures var w' := ClonedWorld(w, kroot, c);
            && MemoryInv(w', pages, kroot, cap, roots + {c}) && Isolates(w, pages, w', pages, c)
            && Accounted(w', pages) == Accounted(w, pages) && KernelTables(w', kroot) == KernelTables(w, kroot)
            && c !in roots
  {
    hide Sound, Owned, SupervisorKernel, OnlySlotZero, ClonedWorld, Accounted, Kept, ZeroLinked, OpenTables;
    AliveStart(w, pages, kroot, cap, c);
    KernelIsRoot(w, kroot);
    CloneOpen(w, kroot, c);
    var w' := ClonedWorld(w, kroot, c);
    FreshRoot(w, pages, kroot, cap, c);
    OthersStay(w, pages, w', pages, kroot, cap, roots, c);
    KeptIsolates(w, pages, w', pages, c);
  }

  lemma KernelIsRoot(w: World, kroot: Frame)
    requires OnlySlotZero(w, kroot)
    ensures IsRoot(w.tags, kroot)
  {
  }

  lemma FreshRoot(w: World, pages: Tags, kroot: Frame, cap: nat, c: Frame)
    requires Sound(w, kroot) && Owned(w, kroot, pages, cap) && c in w.free
    ensures c != 0 && c !in w.tags
  {
  }

  /** A page mapped in the user half of one process leaves every other space as it was. */
  lemma FillKeeps(w: World, pages: Tags, w': World, pages': Tags, kroot: Frame, cap: nat, roots: set<Frame>,
                  root: Frame, va: nat,
                  flags: MapFlags, r: FreshMap)
    requires MemoryInv(w, pages, kroot, cap, roots) && root in roots && !Low(Vpn(va))
    requires FreshStep(w, pages, w', pages', kroot, root, va, flags, r) && Sound(w', kroot) &&
             Owned(w', kroot, pages', cap)
    ensures MemoryInv(w', pages', kroot, cap, roots) && Isolates(w, pages, w', pages', root)
    ensures PathSpace(w, root, Vpn(va)) != kroot && KernelTables(w', kroot) == KernelTables(w, kroot)
  {
    hide Sound, Owned, SupervisorKernel, Accounted, Kept, ZeroLinked, Recorded, PageAdded, LinksKept,
         OthersUntouched, SameWalks, MapOutcome, Walk, OtherSlotsKept, KernelTables,
         TablesEdited, OpenTables;
    assert ProcessRoot(w, kroot, root);
    UserPathSpace(w, kroot, root, Vpn(va));
    assert Reach(w, root, Vpn(va)) == {root};
    OthersStay(w, pages, w', pages', kroot, cap, roots, root);
    assert roots + {root} == roots;
    ZeroKept(w, w', kroot, root);
    OpenKept(w, w', root, Vpn(va));
    FillWalks(w, w', kroot, root, va);
    KeptIsolates(w, pages, w', pages', root);
  }

  ghost predicate AnyRoot(kroot: Frame, roots: set<Frame>, r: Frame) {
    r == kroot || r in roots
  }

  lemma AnyShares(w: World, pages: Tags, kroot: Frame, cap: nat, roots: set<Frame>, r: Frame)
    requires MemoryInv(w, pages, kroot, cap, roots) && AnyRoot(kroot, roots, r)
    ensures SharesZero(w, kroot, r)
  {
    hide Sound, Owned, SupervisorKernel, Recorded;
    assert r != kroot ==> ProcessRoot(w, kroot, r);
  }

  /** A page mapped in the kernel's half, not for user code, keeps the invariant and the user half of
      every address space; the kernel's tables may grow, and the frame is never given back. */
  lemma LowFillKeeps(w: World, pages: Tags, w': World, pages': Tags, kroot: Frame, cap: nat, roots: set<Frame>,
                     root: Frame, va: nat,
                     flags: MapFlags, r: FreshMap)
    requires MemoryInv(w, pages, kroot, cap, roots) && AnyRoot(kroot, roots, root) && Low(Vpn(va))
    requires FreshStep(w, pages, w', pages', kroot, root, va, flags, r) && Sound(w', kroot) &&
             Owned(w', kroot, pages', cap)
    requires r.Mapped? ==> !flags.userAccessible
    ensures MemoryInv(w', pages', kroot, cap, roots)
    ensures forall q :: IsRoot(w.tags, q) ==>
            UserKept(w, pages, w', pages', q) && (!r.Mapped? ==> SpaceKept(w, pages, w', pages', q))
    ensures PathSpace(w, root, Vpn(va)) == kroot && KernelTables(w, kroot) <= KernelTables(w', kroot)
  {
    hide Sound, Owned, SupervisorKernel, Accounted, Kept, Recorded, PageAdded, LinksKept, OthersUntouched, SameWalks,
         MapOutcome, Walk, OtherSlotsKept, TablesEdited, OpenTables, SpaceKept, UserKept, Flat;
    AnyShares(w, pages, kroot, cap, roots, root);
    LowPathSpace(w, kroot, root, Vpn(va));
    LowSupervisorIff(w, pages, w', pages', kroot, root, va, flags, r);
    LowSlots(w, w', pages, kroot, root, Vpn(va));
    LowRecorded(w, pages, w', pages', kroot, cap, roots, root, va, flags, r);
    forall q | q in roots ensures ProcessRoot(w', kroot, q) {
      assert ProcessRoot(w, kroot, q);
      ZeroKept(w, w', kroot, q);
    }
    LowUserKept(w, pages, w', pages', kroot, cap, root, va, flags, r);
    OpenKept(w, w', root, Vpn(va));
    PersistTables(w, w', pages, kroot);
  }

  lemma PersistTables(w: World, w': World, pages: Tags, kroot: Frame)
    requires Persist(w, w', pages)
    ensures KernelTables(w, kroot) <= KernelTables(w', kroot)
  {
  }

  lemma LowRecorded(w: World, pages: Tags, w': World, pages': Tags, kroot: Frame, cap: nat, roots: set<Frame>,
                    root: Frame, va: nat,
                    flags: MapFlags, r: FreshMap)
    requires Recorded(w, pages, kroot, roots) && AnyRoot(kroot, roots, root) && PathSpace(w, root, Vpn(va)) == kroot
    requires FreshStep(w, pages, w', pages', kroot, root, va, flags, r)
    ensures Recorded(w', pages', kroot, roots) && pages' == pages
  {
    hide Persist, OthersUntouched, OtherSlotsKept, SameWalks, Accounted, Flat, MapOutcome;
    assert Reach(w, root, Vpn(va)) == {root, kroot};
    forall f | f in w'.tags ensures w'.tags[f].space == kroot || w'.tags[f].space in roots {
      assert w'.tags[f].space in {root, kroot} || w'.tags[f].space !in {root, kroot};
    }
  }

  lemma LowUserKept(w: World, pages: Tags, w': World, pages': Tags, kroot: Frame, cap: nat, root: Frame, va: nat,
                    flags: MapFlags, r: FreshMap)
    requires Owned(w, kroot, pages, cap) && Low(Vpn(va)) && pages' == pages
    requires FreshStep(w, pages, w', pages', kroot, root, va, flags, r)
    ensures forall q :: IsRoot(w.tags, q) ==>
            UserKept(w, pages, w', pages', q) && (!r.Mapped? ==> SpaceKept(w, pages, w', pages', q))
  {
    hide Owned, Kept, Accounted, MapOutcome, Walk, OtherSlotsKept, Flat, PathSpace, Vpn, LinksKept, PageAdded;
  }

  // ---------------------------------------------------------------------------
  // Which faults are harmless
  // ---------------------------------------------------------------------------

  /** A page in the kernel's half is not for user code, and the kernel's root gets no page elsewhere. */
  predicate Harmless(kroot: Frame, root: Frame, va: nat, flags: MapFlags) {
    if Low(Vpn(va)) then !flags.userAccessible else root != kroot
  }

  /** A page mapped by the loader or by the fault handler leaves every other address space alone if
      and only if it is not in the kernel's half. Below 2^48 that is: not below 2^39. */
  lemma FillIsolatesIff(w: World, pages: Tags, w': World, pages': Tags, kroot: Frame, cap: nat, roots: set<Frame>,
                        root: Frame, va: nat,
                        flags: MapFlags, r: FreshMap)
    requires MemoryInv(w, pages, kroot, cap, roots) && root in roots && r.Mapped?
    requires FreshStep(w, pages, w', pages', kroot, root, va, flags, r) && Sound(w', kroot) &&
             Owned(w', kroot, pages', cap)
    ensures Isolates(w, pages, w', pages', root) <==> !Low(Vpn(va))
    ensures va < 0x1_0000_0000_0000 ==> (Isolates(w, pages, w', pages', root) <==> va >= USER_SPACE_BASE)
  {
    hide FreshStep, Sound, Owned, SupervisorKernel, Recorded, Walk, Low;
    LowAddresses(va);
    if Low(Vpn(va)) {
      ReachesAll(w, pages, w', pages', kroot, cap, roots, root, va, flags, r, kroot);
      AnyShares(w, pages, kroot, cap, roots, kroot);
      assert ProcessRoot(w, kroot, root);
      assert !SpaceKept(w, pages, w', pages', kroot);
    } else {
      FillKeeps(w, pages, w', pages', kroot, cap, roots, root, va, flags, r);
    }
  }

  /** A page in the kernel's half appears in the kernel's space and in every process, for user code
      if it is mapped for user code, and its frame is accounted to nobody. */
  lemma ReachesAll(w: World, pages: Tags, w': World, pages': Tags, kroot: Frame, cap: nat, roots: set<Frame>,
                   root: Frame, va: nat,
                   flags: MapFlags, r: FreshMap, q: Frame)
    requires MemoryInv(w, pages, kroot, cap, roots) && AnyRoot(kroot, roots, root) && AnyRoot(kroot, roots, q)
    requires FreshStep(w, pages, w', pages', kroot, root, va, flags, r) && r.Mapped? && Low(Vpn(va))
    ensures Vpn(va) < VPN_LIMIT && Walk(w.mem, q, Vpn(va)).Absent? &&
            Walk(w'.mem, q, Vpn(va)) == Present(r.frame, flags)
    ensures flags.userAccessible && flags.writable ==> UserByte(w'.mem, q, va, true)
    ensures r.frame !in Accounted(w', pages')
  {
    hide Sound, Owned, SupervisorKernel, Recorded, Walk, Kept, Persist, OthersUntouched, OtherSlotsKept, SameWalks,
         MapOutcome, Flat, ZeroLinked;
    AnyShares(w, pages, kroot, cap, roots, root);
    AnyShares(w, pages, kroot, cap, roots, q);
    LowPathSpace(w, kroot, root, Vpn(va));
    LowPageReachesAll(w, pages, w', pages', kroot, root, va, flags, r, q);
  }

  /** A handled fault keeps the invariant of memory if and only if it is harmless. */
  lemma FillKeepsIff(w: World, pages: Tags, w': World, pages': Tags, kroot: Frame, cap: nat, roots: set<Frame>,
                     root: Frame, va: nat,
                     flags: MapFlags, r: FreshMap)
    requires MemoryInv(w, pages, kroot, cap, roots) && AnyRoot(kroot, roots, root) && r.Mapped?
    requires FreshStep(w, pages, w', pages', kroot, root, va, flags, r) && Sound(w', kroot) &&
             Owned(w', kroot, pages', cap)
    ensures MemoryInv(w', pages', kroot, cap, roots) <==> Harmless(kroot, root, va, flags)
  {
    hide FreshStep, Sound, Owned, SupervisorKernel, Recorded, Walk, ZeroLinked;
    if Low(Vpn(va)) {
      AnyShares(w, pages, kroot, cap, roots, root);
      LowSupervisorIff(w, pages, w', pages', kroot, root, va, flags, r);
      if !flags.userAccessible {
        LowFillKeeps(w, pages, w', pages', kroot, cap, roots, root, va, flags, r);
      }
    } else if root != kroot {
      FillKeeps(w, pages, w', pages', kroot, cap, roots, root, va, flags, r);
    } else {
      FreshLeaf(w, pages, w', pages', kroot, root, va, flags, r);
      WalkUnfolds(w'.mem, kroot, Vpn(va));
      AbsentSlot(w'.mem, kroot, Vpn(va));
    }
  }

  /** What is wrong with a page that the kernel's root gets outside its own half: from then on every
      process that is created and torn down frees tables of the kernel. A page in the kernel's half does
      not have that effect. */
  lemma KernelFillSparesIff(w: World, pages: Tags, w': World, pages': Tags, kroot: Frame, cap: nat,
                            roots: set<Frame>, va: nat, flags: MapFlags, r: FreshMap, c: Frame)
    requires MemoryInv(w, pages, kroot, cap, roots) && r.Mapped? && c in w'.free
    requires FreshStep(w, pages, w', pages', kroot, kroot, va, flags, r) && Sound(w', kroot) &&
             Owned(w', kroot, pages', cap)
    requires forall f :: f in w'.tags && w'.tags[f].space == kroot ==> 0 < f < cap
    ensures kroot in w'.mem
    ensures SparesKernel(ClonedWorld(w', kroot, c), kroot, c, cap) <==> Low(Vpn(va))
  {
    hide Sound, Owned, SupervisorKernel, Recorded, Walk, ZeroLinked, Kept, OthersUntouched, OtherSlotsKept, Accounted,
         PageAdded, FreshOutcome, SparesKernel, ClonedWorld, KernelSlots, LinksKept;
    RootIsTable(w', kroot, kroot);
    KernelRootSlots(w', kroot);
    CloneSparesIff(w', pages', kroot, cap, kroot, c);
    if Low(Vpn(va)) {
      LowSlots(w, w', pages, kroot, kroot, Vpn(va));
    } else {
      FreshLeaf(w, pages, w', pages', kroot, kroot, va, flags, r);
      AbsentSlot(w'.mem, kroot, Vpn(va));
    }
  }

  lemma AbsentSlot(mem: Memory, root: Frame, v: nat)
    ensures At(mem, root, Index(v, 0)).Absent? ==> Walk(mem, root, v).Absent?
  {
    WalkUnfolds(mem, root, v);
  }

  /** Addresses the code lets through that are not harmless: the first page above the kernel's
      identity map, and a segment above 2^48 whose address, cut to 48 bits, is such a page. */
  lemma HarmfulInputs(data: seq<Byte>)
    requires |data| <= 4096
    ensures !Harmless(1, 2, 0x200_0000, DemandFlags(true))
    ensures var seg := Segment(0x1_0000_0300_0000, data, 4096, 6);
            Admitted(seg) && PageCount(seg) == 1 && !Harmless(1, 2, seg.vaddr, SegFlags(seg.flags))
  {
    LowAddresses(0x200_0000);
    LowAddresses(0x1_0000_0300_0000);
  }

  /** Loading an image leaves every other address space alone if and only if none of its pages is in
      the kernel's half; the loader's own check, that addresses are at or above 2^39, does not see
      to it. */
  lemma LoadIsolatesIff(w: World, pages: Tags, w': World, pages': Tags, kroot: Frame, cap: nat, roots: set<Frame>,
                        root: Frame, segs: seq<Segment>)
    requires MemoryInv(w, pages, kroot, cap, roots) && root in roots &&
             ImageInv(w, pages, w', pages', kroot, root, segs)
    ensures Isolates(w, pages, w', pages', root) <==> forall v :: v in AllPages(segs) ==> !Low(v)
  {
    hide Sound, Owned, SupervisorKernel, Recorded, Walk, Extends, SegLoaded, Elsewhere, AllPages, Kept, LinksKept;
    AnyShares(w, pages, kroot, cap, roots, root);
    AnyShares(w, pages, kroot, cap, roots, kroot);
    assert ProcessRoot(w, kroot, root);
    if v :| v in AllPages(segs) && Low(v) {
      LoadedLow(w, w', kroot, root, segs, v);
      assert !SpaceKept(w, pages, w', pages', kroot);
    } else {
      HighSegments(w, kroot, segs);
      KeptIsolates(w, pages, w', pages', root);
    }
  }

  lemma HighSegments(w: World, kroot: Frame, segs: seq<Segment>)
    requires OnlySlotZero(w, kroot) && forall v :: v in AllPages(segs) ==> !Low(v)
    ensures PrivatePages(w, kroot, AllPages(segs))
  {
    hide AllPages;
  }

  lemma LoadedLow(w: World, w': World, kroot: Frame, root: Frame, segs: seq<Segment>, v: nat)
    requires SharesZero(w, kroot, root) && Standing(w, w') && ImageLoaded(w, w', root, segs) && v in AllPages(segs) &&
             Low(v)
    ensures v < VPN_LIMIT && Walk(w.mem, kroot, v).Absent? && Walk(w'.mem, kroot, v).Present?
  {
    hide Walk, SegLoaded, SegPages, AllPages, Held;
    ZeroKept(w, w', kroot, root);
    SameBelow(w, kroot, root, root, v);
    SameBelow(w', kroot, root, root, v);
    var flat, flat' := Flat(w.mem, root), Flat(w'.mem, root);
    assert v in flat'.Keys && v !in flat.Keys;
  }

  lemma FillWalks(w: World, w': World, kroot: Frame, root: Frame, va: nat)
    requires OthersUntouched(w, w', kroot, root, Vpn(va)) && PathSpace(w, root, Vpn(va)) == root && root != kroot
    ensures forall r, v :: IsRoot(w.tags, r) && r != root && 0 <= v < VPN_LIMIT ==>
            Walk(w'.mem, r, v) == Walk(w.mem, r, v)
  {
    hide Walk, PathSpace, Vpn;
  }

  lemma ReleaseKeeps(w: World, pages: Tags, w': World, pages': Tags, kroot: Frame, cap: nat, roots: set<Frame>,
                     root: Frame, gone: set<nat>)
    requires MemoryInv(w, pages, kroot, cap, roots) && root in roots
    requires Unmapped(w, pages, w', pages', kroot, root, gone) && Sound(w', kroot) && Owned(w', kroot, pages', cap)
    ensures MemoryInv(w', pages', kroot, cap, roots) && Isolates(w, pages, w', pages', root)
    ensures Accounted(w', pages') == Accounted(w, pages) && KernelTables(w', kroot) == KernelTables(w, kroot)
  {
    hide Sound, Owned, SupervisorKernel, Accounted, Kept, ZeroLinked, Recorded, UpperSame, LinksKept, OpenTables, Flat,
         Backing, Walk;
    assert ProcessRoot(w, kroot, root);
    OthersStay(w, pages, w', pages', kroot, cap, roots, root);
    assert roots + {root} == roots;
    UpperKeeps(w, w');
    ZeroKept(w, w', kroot, root);
    KeptIsolates(w, pages, w', pages', root);
  }

  lemma ReapKeeps(w: World, pages: Tags, kroot: Frame, cap: nat, roots: set<Frame>, s: Frame)
    requires MemoryInv(w, pages, kroot, cap, roots) && s in roots
    ensures var w' := ReapedWorld(w, pages, s);
            && MemoryInv(w', Without(pages, s), kroot, cap, roots - {s}) && Isolates(w, pages, w', Without(pages, s), s)
            && Accounted(w', Without(pages, s)) == Accounted(w, pages) &&
                KernelTables(w', kroot) == KernelTables(w, kroot)
    ensures PrivateSlots(w, kroot, s)
  {
    hide Sound, Owned, SupervisorKernel, OnlySlotZero, Accounted, Kept, ZeroLinked, PrivateSlots, Recorded;
    assert ProcessRoot(w, kroot, s);
    var w', pages' := ReapedWorld(w, pages, s), Without(pages, s);
    LinkedPrivate(w, kroot, s);
    ReapTree(w, pages, kroot, cap, s);
    ReapOwned(w, pages, kroot, cap, s);
    ReapKept(w, pages, kroot, cap, s);
    ReapAccounted(w, pages, s);
    OthersStay(w, pages, w', pages', kroot, cap, roots, s);
    NoneLeft(w, pages, kroot, roots, s);
    KeptIsolates(w, pages, w', pages', s);
  }

  lemma NoneLeft(w: World, pages: Tags, kroot: Frame, roots: set<Frame>, s: Frame)
    requires Recorded(ReapedWorld(w, pages, s), Without(pages, s), kroot, roots + {s})
    ensures Recorded(ReapedWorld(w, pages, s), Without(pages, s), kroot, roots - {s})
  {
  }

  // ---------------------------------------------------------------------------
  // Stores by user code
  // ---------------------------------------------------------------------------

  /** User code at `va` writes the byte `b` through `root`. */
  ghost function Stored(w: World, root: Frame, va: nat, b: Byte): World {
    var e := Walk(w.mem, root, Vpn(va));
    if e.Present? && IsPage(w.mem, e.frame)
    then w.(mem := w.mem[e.frame := Data(w.mem[e.frame].bytes[va % PAGE_SIZE := b])])
    else w
  }

  /** A leaf that user code may use leads to a page recorded for the process. */
  lemma UserPage(w: World, pages: Tags, kroot: Frame, cap: nat, root: Frame, v: nat) returns (frame: Frame)
    requires Sound(w, kroot) && Owned(w, kroot, pages, cap) && SupervisorKernel(w, kroot) && IsRoot(w.tags, root)
    requires v < VPN_LIMIT && UserLeaf(Walk(w.mem, root, v), false)
    ensures frame == Walk(w.mem, root, v).frame && frame in pages && pages[frame].space == root
    ensures frame !in w.tags && IsPage(w.mem, frame)
  {
    WalkUnfolds(w.mem, root, v);
    PathTag(w.mem, kroot, w.tags, root, v, 3);
    UnmapUserPage(w, pages, kroot, cap, root, v, TableOf(w.mem, root, v, 3).value);
    frame := Walk(w.mem, root, v).frame;
  }

  lemma WriteKeeps(w: World, pages: Tags, kroot: Frame, cap: nat, roots: set<Frame>, root: Frame, frame: Frame,
                   c: Contents)
    requires MemoryInv(w, pages, kroot, cap, roots) && root in roots
    requires frame in pages && pages[frame].space == root && frame !in w.tags && c.Data? && |c.bytes| == PAGE_SIZE
    ensures var w' := w.(mem := w.mem[frame := c]);
            MemoryInv(w', pages, kroot, cap, roots) && Isolates(w, pages, w', pages, root) && SameWalks(w, w')
  {
    hide Sound, Owned, SupervisorKernel, Recorded, Walk, Kept, OpenTables;
    assert ProcessRoot(w, kroot, root);
    var w' := w.(mem := w.mem[frame := c]);
    WriteFrame(w, kroot, pages, cap, frame, c);
    WriteKept(w, pages, kroot, cap, root, frame, c);
    OthersStay(w, pages, w', pages, kroot, cap, roots, root);
    assert roots + {root} == roots;
    ZeroStays(w, kroot, root, frame, c);
    WrittenOpen(w, frame, c);
    KeptIsolates(w, pages, w', pages, root);
  }

  lemma WrittenOpen(w: World, frame: Frame, c: Contents)
    requires OpenTables(w) && frame !in w.tags
    ensures OpenTables(w.(mem := w.mem[frame := c]))
  {
    var w' := w.(mem := w.mem[frame := c]);
    forall f, i | f in w'.tags && w'.tags[f].level < 3 && At(w'.mem, f, i).Present?
      ensures Open(At(w'.mem, f, i).flags)
    {
      assert At(w'.mem, f, i) == At(w.mem, f, i);
    }
  }

  lemma ZeroStays(w: World, kroot: Frame, root: Frame, frame: Frame, c: Contents)
    requires frame != kroot && frame != root && ZeroLinked(w, kroot, root)
    ensures ZeroLinked(w.(mem := w.mem[frame := c]), kroot, root)
  {
  }

  lemma WriteKept(w: World, pages: Tags, kroot: Frame, cap: nat, root: Frame, frame: Frame, c: Contents)
    requires Sound(w, kroot) && Owned(w, kroot, pages, cap)
    requires frame in pages && pages[frame].space == root && frame !in w.tags
    ensures Kept(w, pages, w.(mem := w.mem[frame := c]), pages, {root})
    ensures IsRoot(w.tags, root) ==> frame != root
    ensures IsRoot(w.tags, kroot) ==> frame != kroot
  {
  }

  /** A store that the page tables permit reaches a page of the process itself. */
  lemma StoreKeeps(w: World, pages: Tags, kroot: Frame, cap: nat, roots: set<Frame>, root: Frame, va: nat, b: Byte)
    requires MemoryInv(w, pages, kroot, cap, roots) && root in roots && UserByte(w.mem, root, va, true)
    ensures var w' := Stored(w, root, va, b);
            && MemoryInv(w', pages, kroot, cap, roots) && Isolates(w, pages, w', pages, root) && SameWalks(w, w')
            && Accounted(w', pages) == Accounted(w, pages)
  {
    hide Sound, Owned, SupervisorKernel, OnlySlotZero, Kept, ZeroLinked, Recorded, Walk, Vpn, SameWalks, Isolates;
    assert ProcessRoot(w, kroot, root);
    VpnRange(va);
    var frame := UserPage(w, pages, kroot, cap, root, Vpn(va));
    var w' := Stored(w, root, va, b);
    WriteKeeps(w, pages, kroot, cap, roots, root, frame, w'.mem[frame]);
  }

  lemma VpnRange(va: nat)
    ensures Vpn(va) < VPN_LIMIT
  {
  }

  /** What a store does, as every space sees it: an address reads the byte stored if and only if it
      translates where the store went, and otherwise what it read before. */
  lemma StoreReads(w: World, pages: Tags, kroot: Frame, cap: nat, roots: set<Frame>, root: Frame, va: nat, b: Byte,
                   r: Frame, x: nat)
    requires MemoryInv(w, pages, kroot, cap, roots) && root in roots && UserByte(w.mem, root, va, true)
    requires IsRoot(w.tags, r)
    ensures ReadByte(Stored(w, root, va, b).mem, r, x) ==
            if Translate(w.mem, r, x) == Translate(w.mem, root, va) then Some(b) else ReadByte(w.mem, r, x)
  {
    hide Sound, Owned, SupervisorKernel, OnlySlotZero, ZeroLinked, Recorded, Walk, Vpn, Isolates, ReadByte, Translate,
         OpenTables;
    StoreKeeps(w, pages, kroot, cap, roots, root, va, b);
    assert ProcessRoot(w, kroot, root);
    VpnRange(va);
    VpnRange(x);
    var frame := UserPage(w, pages, kroot, cap, root, Vpn(va));
    WrittenReads(w.mem, Stored(w, root, va, b).mem, frame, root, va, b, r, x);
  }

  lemma WrittenReads(mem: Memory, mem': Memory, frame: Frame, root: Frame, va: nat, b: Byte, r: Frame, x: nat)
    requires IsPage(mem, frame) && mem' == mem[frame := Data(mem[frame].bytes[va % PAGE_SIZE := b])]
    requires Walk(mem, root, Vpn(va)).Present? && Walk(mem, root, Vpn(va)).frame == frame
    requires Walk(mem', r, Vpn(x)) == Walk(mem, r, Vpn(x))
    ensures ReadByte(mem', r, x) ==
            if Translate(mem, r, x) == Translate(mem, root, va) then Some(b) else ReadByte(mem, r, x)
  {
    hide Walk, Vpn;
    var e := Walk(mem, r, Vpn(x));
    if e.Present? {
      Physical(e.frame, x);
      Physical(frame, va);
    }
  }

  lemma Physical(frame: nat, va: nat)
    ensures var p := frame * PAGE_SIZE + va % PAGE_SIZE; p / PAGE_SIZE == frame && p % PAGE_SIZE == va % PAGE_SIZE
  {
  }

  // ---------------------------------------------------------------------------
  // Steps of the kernel
  // ---------------------------------------------------------------------------

  /** Creating a root; mapping a fresh zeroed page, as the loader, the stack allocator and the
      page-fault handler do, at any address; the loader's copy into a page of a root being built; a
      permitted store by user code; unmapping a range; and the events of the scheduler, of which a
      switch away from a dead owner tears its address space down. */
  datatype Action =
    | Create(root: Frame)
    | Fill(root: Frame, va: nat, flags: MapFlags, outcome: FreshMap)
    | Copy(frame: Frame, contents: Contents)
    | Store(va: nat, value: Byte)
    | Release(gone: set<nat>)
    | Dispatch(event: Event)

  ghost function FreedRoot(s: Sched, e: Event): Option<Frame>
    requires Shaped(s)
  {
    if e.Schedule? then ScheduleStep(s, e.sp).freed else None
  }

  /** The root that the running task's slot records. The register holds another one only until the first
      switch, when the very first task is a process. */
  function CallerRoot(s: Sched): nat
    requires Shaped(s)
  {
    s.tasks[s.current].root
  }

  /** The address space whose user half an action works on; an event of the scheduler works on the
      one it frees. */
  ghost predicate Subject(k: Kernel, a: Action, r: Frame)
    requires Shaped(k.y.s)
  {
    match a
    case Create(root) => r == root
    case Fill(root, _, _, _) => r == root
    case Copy(frame, _) => frame in k.pages && r == k.pages[frame].space
    case Store(_, _) => r == k.y.s.register
    case Release(_) => r == CallerRoot(k.y.s)
    case Dispatch(e) => FreedRoot(k.y.s, e) == Some(r)
  }

  /** A page appears in the kernel's half, which belongs to every address space. */
  predicate MapsLow(a: Action) {
    a.Fill? && a.outcome.Mapped? && Low(Vpn(a.va))
  }

  /** A fill that maps a page is harmless; one that fails does not build tables under the other
      slots of the kernel's root. */
  predicate Tame(kroot: Frame, a: Action) {
    a.Fill? ==>
      if a.outcome.Mapped? then Harmless(kroot, a.root, a.va, a.flags)
      else Low(Vpn(a.va)) || a.root != kroot || a.outcome.NoFrame?
  }

  ghost predicate Created(k: Kernel, k': Kernel, kroot: Frame, c: Frame) {
    c in k.w.free && kroot in k.w.mem && k' == k.(w := ClonedWorld(k.w, kroot, c), building := k.building + {c})
  }

  /** What `Spaces.MapZeroed` guarantees, for a root being built or the active one. */
  ghost predicate Filled(k: Kernel, k': Kernel, kroot: Frame, cap: nat, root: Frame, va: nat, flags: MapFlags,
                         r: FreshMap) {
    && (root in k.building || root == k.y.s.register)
    && FreshStep(k.w, k.pages, k'.w, k'.pages, kroot, root, va, flags, r) && Sound(k'.w, kroot) &&
        Owned(k'.w, kroot, k'.pages, cap)
    && k' == k.(w := k'.w, pages := k'.pages, lost := k.lost + LostBy(k.w, kroot, root, va, r))
  }

  ghost predicate Copied(k: Kernel, k': Kernel, frame: Frame, c: Contents) {
    && frame in k.pages && k.pages[frame].space in k.building && c.Data? && |c.bytes| == PAGE_SIZE
    && k' == k.(w := k.w.(mem := k.w.mem[frame := c]))
  }

  ghost predicate StoredIn(k: Kernel, k': Kernel, kroot: Frame, va: nat, b: Byte) {
    var root := k.y.s.register;
    root != kroot && UserByte(k.w.mem, root, va, true) && k' == k.(w := Stored(k.w, root, va, b))
  }

  /** What `UserMemory.SysMunmap` guarantees when it returns 0. */
  ghost predicate Released(k: Kernel, k': Kernel, kroot: Frame, cap: nat, gone: set<nat>)
    requires Shaped(k.y.s)
  {
    var root := CallerRoot(k.y.s);
    && CanAct(k.y.s) && root != kroot && Unmapped(k.w, k.pages, k'.w, k'.pages, kroot, root, gone)
    && Sound(k'.w, kroot) && Owned(k'.w, kroot, k'.pages, cap)
    && k' == k.(w := k'.w, pages := k'.pages)
  }

  /** A task registers a root that was built; threads are spawned by contexts that do not own
      their root; a freed root is torn down. */
  ghost predicate Scheduled(k: Kernel, k': Kernel, e: Event)
    requires Shaped(k.y.s)
  {
    && (e.Schedule? || CanAct(k.y.s) || (e.Spawn? && !k.y.s.initialized))
    && FreshRoots(e) <= k.building && SharesBorrowed(k.y.s, e)
    && k'.y == Next(k.y, e) && k'.building == k.building - FreshRoots(e) && k'.lost == k.lost
    && (match FreedRoot(k.y.s, e)
        case None => k'.w == k.w && k'.pages == k.pages
        case Some(r) => k'.w == ReapedWorld(k.w, k.pages, r) && k'.pages == Without(k.pages, r))
  }

  ghost predicate Step(k: Kernel, a: Action, k': Kernel, kroot: Frame, cap: nat)
    requires Shaped(k.y.s)
  {
    match a
    case Create(c) => Created(k, k', kroot, c)
    case Fill(root, va, flags, r) => Filled(k, k', kroot, cap, root, va, flags, r)
    case Copy(frame, c) => Copied(k, k', frame, c)
    case Store(va, b) => StoredIn(k, k', kroot, va, b)
    case Release(gone) => Released(k, k', kroot, cap, gone)
    case Dispatch(e) => Scheduled(k, k', e)
  }

  /** Every frame is free, a table, a page or lost, and only one of these. */
  ghost predicate Books(w: World, pages: Tags, lost: set<Frame>, all: set<Frame>) {
    Accounted(w, pages) !! lost && Accounted(w, pages) + lost == all
  }

  /** The invariant of the whole kernel. `all` are the frames it started with. */
  ghost predicate Inv(k: Kernel, kroot: Frame, cap: nat, all: set<Frame>) {
    && Ownership(k.y, kroot) && Ids(k.y.s) && k.y.live !! k.building
    && MemoryInv(k.w, k.pages, kroot, cap, Roots(k))
    && Books(k.w, k.pages, k.lost, all)
  }

  /** The hardware translates through the kernel's root or through a live process's. */
  lemma ActiveIsLive(k: Kernel, kroot: Frame, cap: nat, all: set<Frame>)
    requires Inv(k, kroot, cap, all)
    ensures Shaped(k.y.s) && (k.y.s.register == kroot || k.y.s.register in k.y.live)
    ensures IsRoot(k.w.tags, k.y.s.register)
  {
    hide MemoryInv, Ids, Books;
    assert SlotRoot(k.y, kroot, k.y.s.current);
    LiveIsRoot(k, kroot, cap, all, k.y.s.register);
  }

  /** A running task works in the kernel's space or in that of a live process. */
  lemma CallerIsLive(k: Kernel, kroot: Frame, cap: nat, all: set<Frame>)
    requires Inv(k, kroot, cap, all) && Shaped(k.y.s) && CanAct(k.y.s)
    ensures CallerRoot(k.y.s) == kroot || CallerRoot(k.y.s) in k.y.live
    ensures IsRoot(k.w.tags, CallerRoot(k.y.s))
  {
    hide MemoryInv, Ids, Books;
    assert SlotRoot(k.y, kroot, k.y.s.current);
    LiveIsRoot(k, kroot, cap, all, CallerRoot(k.y.s));
  }

  lemma LiveIsRoot(k: Kernel, kroot: Frame, cap: nat, all: set<Frame>, r: Frame)
    requires Inv(k, kroot, cap, all) && (r == kroot || r in k.y.live)
    ensures IsRoot(k.w.tags, r)
  {
    hide Ownership, Ids, Books, Sound, Owned;
    assert r != kroot ==> ProcessRoot(k.w, kroot, r);
  }

  /** The user half of every space but the subject is kept, and unless a page appears in the
      kernel's half the whole of it; the kernel's tables stay, and grow only for the kernel's half. */
  ghost predicate Isolating(k: Kernel, a: Action, k': Kernel, kroot: Frame)
    requires Shaped(k.y.s)
  {
    && (forall r :: IsRoot(k.w.tags, r) && !Subject(k, a, r) ==> UserKept(k.w, k.pages, k'.w, k'.pages, r))
    && (forall r :: IsRoot(k.w.tags, r) && !Subject(k, a, r) && !MapsLow(a) ==>
        SpaceKept(k.w, k.pages, k'.w, k'.pages, r))
    && KernelTables(k.w, kroot) <= KernelTables(k'.w, kroot)
    && (!(a.Fill? && Low(Vpn(a.va))) ==> KernelTables(k'.w, kroot) == KernelTables(k.w, kroot))
  }

  lemma Isolated(k: Kernel, a: Action, k': Kernel, kroot: Frame)
    requires Shaped(k.y.s) && KernelTables(k'.w, kroot) == KernelTables(k.w, kroot)
    requires forall r :: IsRoot(k.w.tags, r) && !Subject(k, a, r) ==> SpaceKept(k.w, k.pages, k'.w, k'.pages, r)
    ensures Isolating(k, a, k', kroot)
  {
    hide SpaceKept, UserKept, KernelTables, Low, Subject;
    forall r | IsRoot(k.w.tags, r) && !Subject(k, a, r) ensures UserKept(k.w, k.pages, k'.w, k'.pages, r) {
      SpaceUserKept(k.w, k.pages, k'.w, k'.pages, r);
    }
  }

  lemma SchedStep(k: Kernel, k': Kernel, kroot: Frame, cap: nat, all: set<Frame>, e: Event)
    requires Inv(k, kroot, cap, all) && Shaped(k.y.s) && Scheduled(k, k', e)
    ensures Inv(k', kroot, cap, all) && Isolating(k, Dispatch(e), k', kroot)
  {
    hide Ownership, Ids, MemoryInv, Books, SpaceKept, ReapedWorld, Without, ScheduleStep, KernelTables, SharesBorrowed,
         CanAct, Isolating;
    BuildingRoots(k, kroot, cap, all);
    OwnershipStep(k.y, kroot, e);
    var freed := FreedRoot(k.y.s, e);
    if freed.Some? {
      assert freed.value in Freed(k.y.s, e);
      assert Roots(k') == Roots(k) - {freed.value};
      ReapKeeps(k.w, k.pages, kroot, cap, Roots(k), freed.value);
      SameBooks(k.w, k.pages, k'.w, k'.pages, k.lost, all);
    } else {
      assert Roots(k') == Roots(k);
      KeptSelf(k.w, k.pages, kroot, cap, Roots(k));
    }
    Isolated(k, Dispatch(e), k', kroot);
  }

  lemma BuildingRoots(k: Kernel, kroot: Frame, cap: nat, all: set<Frame>)
    requires Inv(k, kroot, cap, all)
    ensures forall r :: r in k.building ==> r !in k.y.live && r != 0 && r != kroot
  {
    hide Ownership, Ids, Books, Sound, Owned;
    forall r | r in k.building ensures r != 0 && r != kroot {
      assert r in Roots(k);
      assert ProcessRoot(k.w, kroot, r);
    }
  }

  lemma SameBooks(w: World, pages: Tags, w': World, pages': Tags, lost: set<Frame>, all: set<Frame>)
    requires Books(w, pages, lost, all) && Accounted(w', pages') == Accounted(w, pages)
    ensures Books(w', pages', lost, all)
  {
  }

  lemma LostBooks(w: World, pages: Tags, w': World, pages': Tags, lost: set<Frame>, all: set<Frame>, f: Frame)
    requires Books(w, pages, lost, all) && Accounted(w', pages') == Accounted(w, pages) - {f} && f in w.free
    ensures Books(w', pages', lost + {f}, all)
  {
    hide Accounted;
    assert f in Accounted(w, pages) by {
      FreeAccounted(w, pages, f);
    }
  }

  lemma FreeAccounted(w: World, pages: Tags, f: Frame)
    requires f in w.free
    ensures f in Accounted(w, pages)
  {
  }

  lemma KeptSelf(w: World, pages: Tags, kroot: Frame, cap: nat, roots: set<Frame>)
    requires MemoryInv(w, pages, kroot, cap, roots)
    ensures forall r :: IsRoot(w.tags, r) ==> SpaceKept(w, pages, w, pages, r)
  {
    hide Walk, SupervisorKernel, Recorded;
  }

  lemma FillStep(k: Kernel, a: Action, k': Kernel, kroot: Frame, cap: nat, all: set<Frame>)
    requires Inv(k, kroot, cap, all) && Shaped(k.y.s) && a.Fill? && Step(k, a, k', kroot, cap) && Tame(kroot, a)
    ensures Inv(k', kroot, cap, all) && Isolating(k, a, k', kroot)
  {
    hide Ownership, Ids, MemoryInv, Books, SpaceKept, UserKept, Sound, Owned, KernelTables, Accounted, Kept, Persist,
         OthersUntouched,
         OtherSlotsKept, PageAdded, FreshOutcome, MapOutcome, Walk, PathSpace, Low, Flat;
    ActiveIsLive(k, kroot, cap, all);
    var roots := Roots(k);
    var Fill(root, va, flags, r) := a;
    assert Roots(k') == roots;
    if Low(Vpn(va)) {
      LowFillKeeps(k.w, k.pages, k'.w, k'.pages, kroot, cap, roots, root, va, flags, r);
    } else if root == kroot {
      NoFrameNoChange(k, k', kroot, cap, root, va, flags);
      KeptSelf(k.w, k.pages, kroot, cap, roots);
      Isolated(k, a, k', kroot);
    } else {
      FillKeeps(k.w, k.pages, k'.w, k'.pages, kroot, cap, roots, root, va, flags, r);
      Isolated(k, a, k', kroot);
    }
    FillBooks(k, k', kroot, cap, all, root, va, flags, r);
  }

  lemma FillBooks(k: Kernel, k': Kernel, kroot: Frame, cap: nat, all: set<Frame>, root: Frame, va: nat,
                  flags: MapFlags, r: FreshMap)
    requires Books(k.w, k.pages, k.lost, all) && Filled(k, k', kroot, cap, root, va, flags, r)
    ensures Books(k'.w, k'.pages, k'.lost, all)
  {
    hide Kept, Persist, OthersUntouched, OtherSlotsKept, PageAdded, MapOutcome, Walk, PathSpace, Vpn, Accounted, Sound,
         Owned, Books;
    if LostBy(k.w, kroot, root, va, r) == {} {
      assert k'.lost == k.lost && Accounted(k.w, k.pages) - {} == Accounted(k.w, k.pages);
      SameBooks(k.w, k.pages, k'.w, k'.pages, k.lost, all);
    } else {
      LostBooks(k.w, k.pages, k'.w, k'.pages, k.lost, all, r.frame);
    }
  }

  /** Without a free frame nothing happens. */
  lemma NoFrameNoChange(k: Kernel, k': Kernel, kroot: Frame, cap: nat, root: Frame, va: nat, flags: MapFlags)
    requires Filled(k, k', kroot, cap, root, va, flags, NoFrame)
    ensures k' == k
  {
  }

  lemma ProcessStep(k: Kernel, a: Action, k': Kernel, kroot: Frame, cap: nat, all: set<Frame>)
    requires Inv(k, kroot, cap, all) && Shaped(k.y.s) && !a.Dispatch? && !a.Fill? && Step(k, a, k', kroot, cap)
    ensures Inv(k', kroot, cap, all) && Isolating(k, a, k', kroot)
  {
    hide Ownership, Ids, MemoryInv, Books, SpaceKept, Unmapped, Sound, Owned, KernelTables, UserByte, Accounted,
         ClonedWorld, Stored, Isolating;
    ActiveIsLive(k, kroot, cap, all);
    var roots := Roots(k);
    match a {
      case Create(c) =>
        CreateKeeps(k.w, k.pages, kroot, cap, roots, c);
        assert Roots(k') == roots + {c};
      case Copy(frame, c) =>
        CopyKeeps(k.w, k.pages, kroot, cap, roots, frame, c);
      case Store(va, b) =>
        StoreKeeps(k.w, k.pages, kroot, cap, roots, k.y.s.register, va, b);
        StoredTables(k.w, k.y.s.register, va, b, kroot);
      case Release(gone) =>
        CallerIsLive(k, kroot, cap, all);
        ReleaseKeeps(k.w, k.pages, k'.w, k'.pages, kroot, cap, roots, CallerRoot(k.y.s), gone);
    }
    SameBooks(k.w, k.pages, k'.w, k'.pages, k.lost, all);
    Isolated(k, a, k', kroot);
  }

  lemma CopyKeeps(w: World, pages: Tags, kroot: Frame, cap: nat, roots: set<Frame>, frame: Frame, c: Contents)
    requires MemoryInv(w, pages, kroot, cap, roots) && frame in pages && pages[frame].space in roots && c.Data? &&
             |c.bytes| == PAGE_SIZE
    ensures var w' := w.(mem := w.mem[frame := c]);
            && MemoryInv(w', pages, kroot, cap, roots) && Isolates(w, pages, w', pages, pages[frame].space)
            && Accounted(w', pages) == Accounted(w, pages) && KernelTables(w', kroot) == KernelTables(w, kroot)
  {
    hide MemoryInv, Isolates, SameWalks;
    PageNoTable(w, pages, kroot, cap, roots, frame);
    WriteKeeps(w, pages, kroot, cap, roots, pages[frame].space, frame, c);
  }

  lemma PageNoTable(w: World, pages: Tags, kroot: Frame, cap: nat, roots: set<Frame>, frame: Frame)
    requires MemoryInv(w, pages, kroot, cap, roots) && frame in pages
    ensures frame !in w.tags
  {
  }

  lemma StoredTables(w: World, root: Frame, va: nat, b: Byte, kroot: Frame)
    ensures KernelTables(Stored(w, root, va, b), kroot) == KernelTables(w, kroot)
  {
  }

  /** Every tame step keeps the invariant and every address space but its subject. */
  lemma StepKeeps(k: Kernel, a: Action, k': Kernel, kroot: Frame, cap: nat, all: set<Frame>)
    requires Inv(k, kroot, cap, all) && Shaped(k.y.s) && Step(k, a, k', kroot, cap) && Tame(kroot, a)
    ensures Inv(k', kroot, cap, all) && Isolating(k, a, k', kroot)
  {
    hide Inv, Isolating, Scheduled, Tame;
    if a.Dispatch? {
      SchedStep(k, k', kroot, cap, all, a.event);
    } else if a.Fill? {
      FillStep(k, a, k', kroot, cap, all);
    } else {
      ProcessStep(k, a, k', kroot, cap, all);
    }
  }

  /** And of the steps that map a page, only the tame ones do. */
  lemma StepKeepsIff(k: Kernel, a: Action, k': Kernel, kroot: Frame, cap: nat, all: set<Frame>)
    requires Inv(k, kroot, cap, all) && Shaped(k.y.s) && Step(k, a, k', kroot, cap) && (a.Fill? ==> a.outcome.Mapped?)
    ensures Inv(k', kroot, cap, all) <==> Tame(kroot, a)
  {
    hide Ownership, Ids, MemoryInv, Books, Sound, Owned, FreshStep, Harmless;
    if Tame(kroot, a) {
      StepKeeps(k, a, k', kroot, cap, all);
    } else {
      ActiveIsLive(k, kroot, cap, all);
      assert Roots(k') == Roots(k);
      FillKeepsIff(k.w, k.pages, k'.w, k'.pages, kroot, cap, Roots(k), a.root, a.va, a.flags, a.outcome);
    }
  }

  // ---------------------------------------------------------------------------
  // Whole runs
  // ---------------------------------------------------------------------------

  ghost predicate KernelRun(states: seq<Kernel>, actions: seq<Action>, kroot: Frame, cap: nat) {
    && |states| == |actions| + 1
    && (forall n :: 0 <= n < |states| ==> Shaped(states[n].y.s))
    && (forall n :: 0 <= n < |actions| ==> Step(states[n], actions[n], states[n + 1], kroot, cap))
  }

  predicate AllTame(kroot: Frame, actions: seq<Action>) {
    forall n :: 0 <= n < |actions| ==> Tame(kroot, actions[n])
  }

  /** The state the kernel starts in, on the root built at boot. */
  ghost function AtBoot(w: World, kroot: Frame, frames: seq<nat>): Kernel {
    Kernel(Boot(kroot, frames), w, map[], {}, {})
  }

  lemma StartInv(w: World, kroot: Frame, cap: nat, frames: seq<nat>)
    requires Sound(w, kroot) && Owned(w, kroot, map[], cap) && SupervisorKernel(w, kroot) && OnlySlotZero(w, kroot) &&
             OpenTables(w) && kroot != 0
    requires |frames| == MAX_TASKS && forall f :: f in w.tags ==> w.tags[f].space == kroot
    ensures Inv(AtBoot(w, kroot, frames), kroot, cap, Accounted(w, map[]))
  {
    hide Sound, Owned, SupervisorKernel, OnlySlotZero, Ownership;
    OwnershipBoot(kroot, frames);
  }

  lemma {:induction false} RunKeeps(states: seq<Kernel>, actions: seq<Action>, kroot: Frame, cap: nat, all: set<Frame>,
                                    n: nat)
    requires KernelRun(states, actions, kroot, cap) && AllTame(kroot, actions) && n <= |actions| &&
             Inv(states[0], kroot, cap, all)
    ensures Inv(states[n], kroot, cap, all)
    ensures forall m :: 0 <= m < n ==> Isolating(states[m], actions[m], states[m + 1], kroot)
  {
    hide Inv, Isolating, Step, Tame;
    if n > 0 {
      RunKeeps(states, actions, kroot, cap, all, n - 1);
      StepKeeps(states[n - 1], actions[n - 1], states[n], kroot, cap, all);
    }
  }

  lemma KeptTwice(k: Kernel, k1: Kernel, k2: Kernel, r: Frame)
    ensures SpaceKept(k.w, k.pages, k1.w, k1.pages, r) && SpaceKept(k1.w, k1.pages, k2.w, k2.pages, r) ==>
              SpaceKept(k.w, k.pages, k2.w, k2.pages, r)
    ensures UserKept(k.w, k.pages, k1.w, k1.pages, r) && UserKept(k1.w, k1.pages, k2.w, k2.pages, r) ==>
              UserKept(k.w, k.pages, k2.w, k2.pages, r)
  {
    hide Walk, Low;
  }

  /** Isolation over whole runs: as long as no action works on a process, its user half translates and
      its pages hold exactly what they did, whatever all the others do; and so does its kernel half,
      as long as no page appears in it, which is then a page of the kernel. */
  lemma {:induction false} ProcessIsolation(states: seq<Kernel>, actions: seq<Action>, kroot: Frame, cap: nat,
                                            all: set<Frame>,
                                            a: nat, b: nat, r: Frame)
    requires KernelRun(states, actions, kroot, cap) && AllTame(kroot, actions) && Inv(states[0], kroot, cap, all)
    requires a <= b <= |actions| && (r == kroot || r in states[a].y.live)
    requires forall m :: a <= m < b ==> !Subject(states[m], actions[m], r)
    ensures UserKept(states[a].w, states[a].pages, states[b].w, states[b].pages, r)
    ensures (forall m :: a <= m < b ==> !MapsLow(actions[m])) ==>
            SpaceKept(states[a].w, states[a].pages, states[b].w, states[b].pages, r)
    decreases b
  {
    hide Inv, Step, SpaceKept, UserKept, Subject, Tame;
    if a == b {
      RunKeeps(states, actions, kroot, cap, all, a);
      LiveIsRoot(states[a], kroot, cap, all, r);
      SelfKept(states[a], kroot, cap, all, r);
    } else {
      ProcessIsolation(states, actions, kroot, cap, all, a, b - 1, r);
      RunKeeps(states, actions, kroot, cap, all, b);
      assert Isolating(states[b - 1], actions[b - 1], states[b], kroot);
      KeptRoot(states[a], states[b - 1], r);
      KeptTwice(states[a], states[b - 1], states[b], r);
    }
  }

  lemma KeptRoot(k: Kernel, k': Kernel, r: Frame)
    requires UserKept(k.w, k.pages, k'.w, k'.pages, r)
    ensures IsRoot(k'.w.tags, r)
  {
  }

  lemma SelfKept(k: Kernel, kroot: Frame, cap: nat, all: set<Frame>, r: Frame)
    requires Inv(k, kroot, cap, all) && IsRoot(k.w.tags, r)
    ensures SpaceKept(k.w, k.pages, k.w, k.pages, r) && UserKept(k.w, k.pages, k.w, k.pages, r)
  {
    hide Ownership, Ids, Books, MemoryInv, SpaceKept, UserKept;
    KeptSelf(k.w, k.pages, kroot, cap, Roots(k));
    SpaceUserKept(k.w, k.pages, k.w, k.pages, r);
  }

  lemma {:induction false} TablesGrow(states: seq<Kernel>, actions: seq<Action>, kroot: Frame, cap: nat,
                                      all: set<Frame>, n: nat)
    requires KernelRun(states, actions, kroot, cap) && AllTame(kroot, actions) && n <= |actions| &&
             Inv(states[0], kroot, cap, all)
    ensures KernelTables(states[0].w, kroot) <= KernelTables(states[n].w, kroot)
    ensures (forall m :: 0 <= m < n && actions[m].Fill? ==> !Low(Vpn(actions[m].va))) ==>
              KernelTables(states[n].w, kroot) == KernelTables(states[0].w, kroot)
  {
    hide Inv, Step, KernelTables, Subject, Tame, SpaceKept, UserKept, Low;
    if n > 0 {
      TablesGrow(states, actions, kroot, cap, all, n - 1);
      RunKeeps(states, actions, kroot, cap, all, n);
      assert Isolating(states[n - 1], actions[n - 1], states[n], kroot);
    }
  }

  /** A root that no slot owns, whether its image could not be built or no slot was free for it, stays
      allocated for ever: it never gets an owner, remains a root, and is never free. */
  lemma {:induction false} AbandonedStays(states: seq<Kernel>, actions: seq<Action>, kroot: Frame, cap: nat,
                                          all: set<Frame>, a: nat, b: nat, r: Frame)
    requires KernelRun(states, actions, kroot, cap) && AllTame(kroot, actions) && Inv(states[0], kroot, cap, all)
    requires a <= b <= |actions| && r in Roots(states[a]) && !Owns(states[a].y.s, r)
    requires forall m :: a <= m < b && actions[m].Dispatch? ==> r !in FreshRoots(actions[m].event)
    ensures r in Roots(states[b]) && !Owns(states[b].y.s, r)
    ensures IsRoot(states[b].w.tags, r) && r !in states[b].w.free
    decreases b
  {
    hide Inv, Tame, Subject, Owns, Roots, Step, FreshRoots, AllTame, Isolating, IsRoot;
    RunKeeps(states, actions, kroot, cap, all, b);
    if a < b {
      AbandonedStays(states, actions, kroot, cap, all, a, b - 1, r);
      assert Step(states[b - 1], actions[b - 1], states[b], kroot, cap);
      StillAbandoned(states[b - 1], actions[b - 1], states[b], kroot, cap, r);
    }
    RootNotFree(states[b], kroot, cap, all, r);
  }

  lemma StillAbandoned(k: Kernel, a: Action, k': Kernel, kroot: Frame, cap: nat, r: Frame)
    requires Shaped(k.y.s) && Step(k, a, k', kroot, cap) && r in Roots(k) && !Owns(k.y.s, r)
    requires a.Dispatch? ==> r !in FreshRoots(a.event)
    ensures r in Roots(k') && !Owns(k'.y.s, r)
  {
    hide FreshStep, Sound, Owned, Unmapped, NextSched, Freed, SharesBorrowed, UserByte, Owns, FreedRoot, CanAct;
    if a.Dispatch? {
      UnownedStays(k.y.s, a.event, r);
    }
  }

  /** A root under construction has no owner. */
  lemma BuildingUnowned(k: Kernel, kroot: Frame, cap: nat, all: set<Frame>, r: Frame)
    requires Inv(k, kroot, cap, all) && r in k.building
    ensures r in Roots(k) && !Owns(k.y.s, r)
  {
    hide MemoryInv, Ids, Books;
    forall i | 0 <= i < |k.y.s.tasks| && k.y.s.tasks[i].ownsRoot ensures k.y.s.tasks[i].root != r {
      assert SlotRoot(k.y, kroot, i);
    }
  }

  lemma RootNotFree(k: Kernel, kroot: Frame, cap: nat, all: set<Frame>, r: Frame)
    requires Inv(k, kroot, cap, all) && r in Roots(k)
    ensures IsRoot(k.w.tags, r) && r !in k.w.free
  {
    hide Ownership, Ids, Books, Owned, SupervisorKernel, Recorded, Tree;
    assert ProcessRoot(k.w, kroot, r);
  }

  /** Conservation over whole runs: when no process and no root under construction is left, the free
      frames are those of the start that were neither lost nor made into tables of the kernel's half;
      without faults in the kernel's half no such table was made. */
  lemma AllFramesReturn(states: seq<Kernel>, actions: seq<Action>, w: World, kroot: Frame, cap: nat, frames: seq<nat>,
                        n: nat)
    requires Sound(w, kroot) && Owned(w, kroot, map[], cap) && SupervisorKernel(w, kroot) && OnlySlotZero(w, kroot) &&
             OpenTables(w) && kroot != 0
    requires |frames| == MAX_TASKS && forall f :: f in w.tags ==> w.tags[f].space == kroot
    requires KernelRun(states, actions, kroot, cap) && AllTame(kroot, actions) && n <= |actions| &&
             states[0] == AtBoot(w, kroot, frames)
    requires states[n].y.live == {} && states[n].building == {}
    ensures states[n].w.free == w.free - states[n].lost - KernelTables(states[n].w, kroot)
    ensures states[n].w.tags.Keys == KernelTables(states[n].w, kroot) && states[n].pages == map[]
    ensures (forall m :: 0 <= m < n && actions[m].Fill? ==> !Low(Vpn(actions[m].va))) ==>
              states[n].w.free == w.free - states[n].lost && states[n].w.tags.Keys == w.tags.Keys
  {
    hide Owned, SupervisorKernel, OnlySlotZero, Step, Inv, Tame, Low, KernelTables;
    StartInv(w, kroot, cap, frames);
    RunKeeps(states, actions, kroot, cap, Accounted(w, map[]), n);
    TablesGrow(states, actions, kroot, cap, Accounted(w, map[]), n);
    NothingElse(w, states[n], kroot, cap);
  }

  lemma NothingElse(w: World, k: Kernel, kroot: Frame, cap: nat)
    requires Sound(w, kroot) && (forall f :: f in w.tags ==> w.tags[f].space == kroot)
    requires Inv(k, kroot, cap, Accounted(w, map[])) && Roots(k) == {} &&
             KernelTables(w, kroot) <= KernelTables(k.w, kroot)
    ensures k.w.free == w.free - k.lost - KernelTables(k.w, kroot)
    ensures k.w.tags.Keys == KernelTables(k.w, kroot) && k.pages == map[]
    ensures w.tags.Keys == KernelTables(w, kroot) && (KernelTables(k.w, kroot) == KernelTables(w, kroot) ==>
                                                      k.w.free == w.free - k.lost)
  {
    hide Ownership, Ids, Owned, SupervisorKernel, OnlySlotZero, Tree;
    assert k.pages.Keys == {};
    forall f ensures f in k.w.free <==> f in w.free - k.lost - KernelTables(k.w, kroot) {
      assert f in Accounted(k.w, k.pages) + k.lost <==> f in Accounted(w, map[]);
      assert f in w.tags <==> f in KernelTables(w, kroot);
    }
  }

  /** In every address space the first 2^39 bytes translate as in the kernel's own, so switching
      roots never changes what kernel code sees. */
  lemma KernelHalfShared(k: Kernel, kroot: Frame, cap: nat, all: set<Frame>, r: Frame, v: nat)
    requires Inv(k, kroot, cap, all) && r in Roots(k) && Low(v)
    ensures Walk(k.w.mem, r, v) == Walk(k.w.mem, kroot, v)
  {
    hide Ownership, Ids, Books, Sound, Owned, SupervisorKernel;
    assert ProcessRoot(k.w, kroot, r);
    SlotZeroSame(k.w, kroot, r, v);
  }

  /** In every reachable state the processor, which looks at every entry of a path, lets user code do
      with a page exactly what its leaf says, on either architecture and in every space; so a byte the
      kernel's pointer check accepts is one that user code itself could access. */
  lemma AccessIsLeaf(k: Kernel, kroot: Frame, cap: nat, all: set<Frame>, r: Frame, arch: Arch, va: nat, a: Access)
    requires Inv(k, kroot, cap, all) && AnyRoot(kroot, Roots(k), r)
    ensures UserMay(arch, k.w.mem, r, Vpn(va), a) <==> Permits(Walk(k.w.mem, r, Vpn(va)), a)
    ensures UserByte(k.w.mem, r, va, false) <==> UserMay(arch, k.w.mem, r, Vpn(va), Read)
    ensures UserByte(k.w.mem, r, va, true) <==> UserMay(arch, k.w.mem, r, Vpn(va), Write)
  {
    hide Ownership, Ids, Books, Owned, SupervisorKernel, Recorded, Sound, OpenTables, UserMay, Walk;
    assert r != kroot ==> ProcessRoot(k.w, kroot, r);
    VpnRange(va);
    OpenRights(arch, k.w, kroot, r, Vpn(va), a);
    OpenRights(arch, k.w, kroot, r, Vpn(va), Read);
    OpenRights(arch, k.w, kroot, r, Vpn(va), Write);
  }
}
