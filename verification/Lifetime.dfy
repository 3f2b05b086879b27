/** Frame conservation over the whole life of a process. */
module Lifetime {
  import opened Basics
  import opened PageTables
  import opened Worlds
  import opened Vmm
  import opened Spaces
  import opened UserMemory
  import opened Teardown
  import opened Processes
  import opened SlotZero

  /** No frame is recorded for `root` yet. */
  ghost predicate Unborn(w: World, pages: Tags, root: Frame) {
    && (forall f :: f in w.tags ==> w.tags[f].space != root)
    && (forall f :: f in pages ==> pages[f].space != root)
  }

  /** Only a space whose root is recorded has frames. */
  lemma {:induction false} TableHasRoot(w: World, kroot: Frame, f: Frame)
    requires Sound(w, kroot) && f in w.tags
    ensures IsRoot(w.tags, w.tags[f].space)
    decreases w.tags[f].level
  {
    assert BackwardAt(w.mem, w.tags, f);
    if w.tags[f].level > 0 {
      TableHasRoot(w, kroot, w.tags[f].parent);
    }
  }

  lemma FreshRootUnborn(w: World, pages: Tags, kroot: Frame, cap: nat, c: Frame)
    requires Sound(w, kroot) && Owned(w, kroot, pages, cap) && c in w.free
    ensures Unborn(w, pages, c)
  {
    forall f | f in w.tags ensures w.tags[f].space != c {
      TableHasRoot(w, kroot, f);
    }
    forall f | f in pages ensures pages[f].space != c {
      assert PageLinked(w, kroot, pages, f);
    }
  }

  /** Pages outside the kernel's half translate as before in every address space. */
  ghost predicate UserWalks(w: World, w': World) {
    forall r, v :: IsRoot(w.tags, r) && 0 <= v < VPN_LIMIT && !Low(v) ==> Walk(w'.mem, r, v) == Walk(w.mem, r, v)
  }

  /** The kernel's tables stay where they are; there may be more of them. */
  ghost predicate KernelStays(w: World, w': World, kroot: Frame) {
    forall f :: f in w.tags && w.tags[f].space == kroot ==> f in w'.tags && w'.tags[f] == w.tags[f]
  }

  /** What holds throughout the life of process `root`, created in state `w0`. It is `private` as
      long as it has not faulted on a page of the kernel's half. */
  ghost predicate Alive(w0: World, pages0: Tags, w: World, pages: Tags, kroot: Frame, cap: nat, root: Frame,
                        lost: set<Frame>, private: bool) {
    && Sound(w, kroot) && Owned(w, kroot, pages, cap) && SupervisorKernel(w, kroot)
    && IsRoot(w.tags, root) && root != kroot && Unborn(w0, pages0, root) && NoKernelPages(pages0, kroot)
    && OnlySlotZero(w, kroot) && ZeroLinked(w, kroot, root)
    && Kept(w0, pages0, w, pages, {root, kroot}) && KernelStays(w0, w, kroot) && UserWalks(w0, w)
    && Accounted(w, pages) == Accounted(w0, pages0) - lost
    && lost <= w0.free
    && (private ==> Kept(w0, pages0, w, pages, {root}) && SameWalks(w0, w))
  }

  ghost predicate NoKernelPages(pages: Tags, kroot: Frame) {
    forall f :: f in pages ==> pages[f].space != kroot
  }

  /** Pages are recorded for processes only. */
  lemma OwnedPages(w: World, kroot: Frame, pages: Tags, cap: nat)
    requires Owned(w, kroot, pages, cap)
    ensures NoKernelPages(pages, kroot)
  {
    forall f | f in pages ensures pages[f].space != kroot {
      assert PageLinked(w, kroot, pages, f);
    }
  }

  lemma KeptWider(w: World, p: Tags, w': World, p': Tags, kroot: Frame, root: Frame)
    requires Kept(w, p, w', p', {root}) && root != kroot
    ensures Kept(w, p, w', p', {root, kroot}) && KernelStays(w, w', kroot)
  {
    forall f | f in w.tags && w.tags[f].space == kroot ensures f in w'.tags && w'.tags[f] == w.tags[f] {
      assert w.tags[f].space !in {root};
    }
  }

  lemma SameUserWalks(w: World, w': World)
    requires SameWalks(w, w')
    ensures UserWalks(w, w')
  {
  }

  lemma AliveStart(w: World, pages: Tags, kroot: Frame, cap: nat, c: Frame)
    requires Sound(w, kroot) && Owned(w, kroot, pages, cap) && SupervisorKernel(w, kroot) && OnlySlotZero(w, kroot) &&
             c in w.free
    ensures kroot in w.mem && Alive(w, pages, ClonedWorld(w, kroot, c), pages, kroot, cap, c, {}, true)
  {
    hide Owned, Kept, Accounted, SupervisorKernel, Sound, UserWalks, SameWalks, KernelStays;
    RootIsTable(w, kroot, kroot);
    FreshRootUnborn(w, pages, kroot, cap, c);
    OwnedPages(w, kroot, pages, cap);
    KernelRootSlots(w, kroot);
    CloneTree(w, kroot, kroot, c);
    CloneOwned(w, pages, kroot, cap, kroot, c);
    CloneWalks(w, kroot, kroot, c);
    KernelKept(w, pages, ClonedWorld(w, kroot, c), pages, kroot, c);
    KeptWider(w, pages, ClonedWorld(w, kroot, c), pages, kroot, c);
    SameUserWalks(w, ClonedWorld(w, kroot, c));
  }

  /** Kernel tables, and with them the kernel's leaves and slots, are unaffected by a step of `root`. */
  lemma KernelKept(w: World, pages: Tags, w': World, pages': Tags, kroot: Frame, root: Frame)
    requires Kept(w, pages, w', pages', {root}) && root != kroot
    requires SupervisorKernel(w, kroot) && OnlySlotZero(w, kroot)
    ensures SupervisorKernel(w', kroot) && OnlySlotZero(w', kroot)
    ensures forall i :: At(w'.mem, kroot, i) == At(w.mem, kroot, i)
  {
    assert w.tags[kroot].space !in {root};
    forall i ensures At(w'.mem, kroot, i) == At(w.mem, kroot, i) {
    }
    forall i | 1 <= i < ENTRIES ensures At(w'.mem, kroot, i).Absent? {
      assert At(w.mem, kroot, i).Absent?;
    }
    forall t, i | t in w'.tags && w'.tags[t].level == 3 && w'.tags[t].space == kroot
        ensures !UserLeaf(At(w'.mem, t, i), false) {
      assert w'.tags[t].space !in {root};
      assert !UserLeaf(At(w.mem, t, i), false);
    }
  }

  /** A fault on a page of the user half keeps everything; one on a page of the kernel's half
      costs the process its privacy, and must not be for user code. */
  lemma AliveFresh(w0: World, pages0: Tags, w: World, pages: Tags, w': World, pages': Tags, kroot: Frame, cap: nat,
                   root: Frame,
                   lost: set<Frame>, private: bool, va: nat, flags: MapFlags, r: FreshMap)
    requires Alive(w0, pages0, w, pages, kroot, cap, root, lost, private)
    requires FreshStep(w, pages, w', pages', kroot, root, va, flags, r)
    requires Low(Vpn(va)) && r.Mapped? ==> !flags.userAccessible
    requires Sound(w', kroot) && Owned(w', kroot, pages', cap)
    ensures Alive(w0, pages0, w', pages', kroot, cap, root, lost + LostBy(w, kroot, root, va, r),
                  private && !Low(Vpn(va)))
    ensures r.Mapped? && !Low(Vpn(va)) ==> LostBy(w, kroot, root, va, r) == {}
  {
    if Low(Vpn(va)) {
      AliveLow(w0, pages0, w, pages, w', pages', kroot, cap, root, lost, private, va, flags, r);
    } else {
      AliveHigh(w0, pages0, w, pages, w', pages', kroot, cap, root, lost, private, va, flags, r);
    }
  }

  lemma AliveHigh(w0: World, pages0: Tags, w: World, pages: Tags, w': World, pages': Tags, kroot: Frame, cap: nat,
                  root: Frame,
                  lost: set<Frame>, private: bool, va: nat, flags: MapFlags, r: FreshMap)
    requires Alive(w0, pages0, w, pages, kroot, cap, root, lost, private) && !Low(Vpn(va))
    requires FreshStep(w, pages, w', pages', kroot, root, va, flags, r)
    requires Sound(w', kroot) && Owned(w', kroot, pages', cap)
    ensures Alive(w0, pages0, w', pages', kroot, cap, root, lost + LostBy(w, kroot, root, va, r), private)
    ensures r.Mapped? ==> LostBy(w, kroot, root, va, r) == {}
  {
    hide Owned, Sound, OthersUntouched, Kept, Flat, SupervisorKernel, LinksKept, Accounted, PageAdded,
         Unborn, SameWalks, UserWalks, ZeroLinked, MapOutcome, OtherSlotsKept, KernelStays;
    UserPathSpace(w, kroot, root, Vpn(va));
    assert Reach(w, root, Vpn(va)) == {root};
    KernelKept(w, pages, w', pages', kroot, root);
    KeptWider(w, pages, w', pages', kroot, root);
    KeptTrans(w0, pages0, w, pages, w', pages', {root, kroot});
    StaysTrans(w0, w, w', kroot);
    ZeroKept(w, w', kroot, root);
    FreshUserWalks(w0, pages0, w, pages, w', kroot, root, va);
    if private {
      KeptTrans(w0, pages0, w, pages, w', pages', {root});
      FreshWalks(w0, pages0, w, pages, w', kroot, root, va);
    }
    if r.NotMapped? {
      FreeThen(w0, pages0, w, pages, kroot, cap, root, lost, private, r.frame);
    }
  }

  lemma AliveLow(w0: World, pages0: Tags, w: World, pages: Tags, w': World, pages': Tags, kroot: Frame, cap: nat,
                 root: Frame,
                 lost: set<Frame>, private: bool, va: nat, flags: MapFlags, r: FreshMap)
    requires Alive(w0, pages0, w, pages, kroot, cap, root, lost, private) && Low(Vpn(va))
    requires FreshStep(w, pages, w', pages', kroot, root, va, flags, r) && (r.Mapped? ==> !flags.userAccessible)
    requires Sound(w', kroot) && Owned(w', kroot, pages', cap)
    ensures Alive(w0, pages0, w', pages', kroot, cap, root, lost + LostBy(w, kroot, root, va, r), false)
  {
    hide Owned, Sound, OthersUntouched, Kept, Flat, SupervisorKernel, LinksKept, PageAdded, Unborn,
         SameWalks, UserWalks, ZeroLinked, MapOutcome, OtherSlotsKept, KernelStays, Accounted;
    LowPathSpace(w, kroot, root, Vpn(va));
    assert Reach(w, root, Vpn(va)) == {root, kroot};
    LowSupervisorIff(w, pages, w', pages', kroot, root, va, flags, r);
    LowSlots(w, w', pages, kroot, root, Vpn(va));
    KeptTrans(w0, pages0, w, pages, w', pages', {root, kroot});
    PersistStays(w, w', pages, kroot);
    StaysTrans(w0, w, w', kroot);
    ZeroKept(w, w', kroot, root);
    FreshUserWalks(w0, pages0, w, pages, w', kroot, root, va);
    if !r.NoFrame? {
      FreeThen(w0, pages0, w, pages, kroot, cap, root, lost, private, r.frame);
    }
  }

  lemma PersistStays(w: World, w': World, pages: Tags, kroot: Frame)
    requires Persist(w, w', pages)
    ensures KernelStays(w, w', kroot)
  {
  }

  lemma StaysTrans(w: World, w1: World, w2: World, kroot: Frame)
    requires KernelStays(w, w1, kroot) && KernelStays(w1, w2, kroot)
    ensures KernelStays(w, w2, kroot)
  {
  }

  lemma FreshWalks(w0: World, pages0: Tags, w: World, pages: Tags, w': World, kroot: Frame, root: Frame, va: nat)
    requires SameWalks(w0, w) && Kept(w0, pages0, w, pages, {root}) && Unborn(w0, pages0, root) && root != kroot
    requires OthersUntouched(w, w', kroot, root, Vpn(va)) && PathSpace(w, root, Vpn(va)) == root
    ensures SameWalks(w0, w')
  {
    forall r, v | IsRoot(w0.tags, r) && 0 <= v < VPN_LIMIT ensures Walk(w'.mem, r, v) == Walk(w0.mem, r, v) {
      assert w0.tags[r].space !in {root};
      assert IsRoot(w.tags, r);
      assert Walk(w.mem, r, v) == Walk(w0.mem, r, v);
    }
  }

  lemma FreshUserWalks(w0: World, pages0: Tags, w: World, pages: Tags, w': World, kroot: Frame, root: Frame, va: nat)
    requires UserWalks(w0, w) && KernelStays(w0, w, kroot) && Kept(w0, pages0, w, pages, {root, kroot}) &&
             Unborn(w0, pages0, root)
    requires root != kroot && OthersUntouched(w, w', kroot, root, Vpn(va)) &&
             (Low(Vpn(va)) || PathSpace(w, root, Vpn(va)) == root)
    ensures UserWalks(w0, w')
  {
    hide Walk, PathSpace, Vpn;
    forall r, v | IsRoot(w0.tags, r) && 0 <= v < VPN_LIMIT && !Low(v) ensures Walk(w'.mem, r, v) == Walk(w0.mem, r, v) {
      assert w0.tags[r].space != kroot ==> w0.tags[r].space !in {root, kroot};
      assert IsRoot(w.tags, r) && r != root;
      assert Walk(w.mem, r, v) == Walk(w0.mem, r, v);
    }
  }

  /** A frame free now was free at the start. */
  lemma FreeThen(w0: World, pages0: Tags, w: World, pages: Tags, kroot: Frame, cap: nat, root: Frame, lost: set<Frame>,
                 private: bool, f: Frame)
    requires Alive(w0, pages0, w, pages, kroot, cap, root, lost, private) && f in w.free
    ensures f in w0.free
  {
    hide SameWalks, UserWalks, SupervisorKernel, OnlySlotZero, ZeroLinked, Walk, Kept, KernelStays;
    StillHere(w0, pages0, w, pages, kroot, root);
    assert f in Accounted(w, pages);
  }

  /** What was recorded at the start still is. */
  lemma StillHere(w0: World, pages0: Tags, w: World, pages: Tags, kroot: Frame, root: Frame)
    requires Kept(w0, pages0, w, pages, {root, kroot}) && KernelStays(w0, w, kroot) && Unborn(w0, pages0, root) &&
             NoKernelPages(pages0, kroot)
    ensures forall f :: f in w0.tags ==> f in w.tags && w.tags[f] == w0.tags[f]
    ensures forall f :: f in pages0 ==> f in pages && pages[f] == pages0[f]
  {
    forall f | f in w0.tags ensures f in w.tags && w.tags[f] == w0.tags[f] {
      assert w0.tags[f].space == kroot || w0.tags[f].space !in {root, kroot};
    }
    forall f | f in pages0 ensures f in pages && pages[f] == pages0[f] {
      assert pages0[f].space !in {root, kroot};
    }
  }

  lemma AliveUnmap(w0: World, pages0: Tags, w: World, pages: Tags, w': World, pages': Tags, kroot: Frame, cap: nat,
                   root: Frame,
                   lost: set<Frame>, private: bool, gone: set<nat>)
    requires Alive(w0, pages0, w, pages, kroot, cap, root, lost, private)
    requires Unmapped(w, pages, w', pages', kroot, root, gone)
    requires Sound(w', kroot) && Owned(w', kroot, pages', cap) && SupervisorKernel(w', kroot)
    ensures Alive(w0, pages0, w', pages', kroot, cap, root, lost, private)
  {
    hide Owned, Sound, Kept, Flat, SupervisorKernel, UpperSame, LinksKept, Accounted, Unborn, SameWalks, UserWalks,
         ZeroLinked, Backing,
         KernelStays;
    UpperKeeps(w, w');
    KernelKept(w, pages, w', pages', kroot, root);
    KeptWider(w, pages, w', pages', kroot, root);
    KeptTrans(w0, pages0, w, pages, w', pages', {root, kroot});
    StaysTrans(w0, w, w', kroot);
    ZeroKept(w, w', kroot, root);
    UnmapUserWalks(w0, pages0, w, pages, w', kroot, root);
    if private {
      KeptTrans(w0, pages0, w, pages, w', pages', {root});
      UnmapWalks(w0, pages0, w, pages, w', root);
    }
  }

  lemma UnmapUserWalks(w0: World, pages0: Tags, w: World, pages: Tags, w': World, kroot: Frame, root: Frame)
    requires UserWalks(w0, w) && KernelStays(w0, w, kroot) && Kept(w0, pages0, w, pages, {root, kroot}) &&
             Unborn(w0, pages0, root)
    requires forall r, u :: IsRoot(w.tags, r) && r != root && 0 <= u < VPN_LIMIT ==>
             Walk(w'.mem, r, u) == Walk(w.mem, r, u)
    ensures UserWalks(w0, w')
  {
    hide Walk;
    forall r, v | IsRoot(w0.tags, r) && 0 <= v < VPN_LIMIT && !Low(v) ensures Walk(w'.mem, r, v) == Walk(w0.mem, r, v) {
      assert w0.tags[r].space != kroot ==> w0.tags[r].space !in {root, kroot};
      assert IsRoot(w.tags, r) && r != root;
      assert Walk(w.mem, r, v) == Walk(w0.mem, r, v);
    }
  }

  lemma UnmapWalks(w0: World, pages0: Tags, w: World, pages: Tags, w': World, root: Frame)
    requires SameWalks(w0, w) && Kept(w0, pages0, w, pages, {root}) && Unborn(w0, pages0, root)
    requires forall r, u :: IsRoot(w.tags, r) && r != root && 0 <= u < VPN_LIMIT ==>
             Walk(w'.mem, r, u) == Walk(w.mem, r, u)
    ensures SameWalks(w0, w')
  {
    forall r, v | IsRoot(w0.tags, r) && 0 <= v < VPN_LIMIT ensures Walk(w'.mem, r, v) == Walk(w0.mem, r, v) {
      assert w0.tags[r].space !in {root};
      assert IsRoot(w.tags, r);
      assert Walk(w.mem, r, v) == Walk(w0.mem, r, v);
    }
  }

  /** After teardown the page records are those of the start; the tables are those of the start and
      what the kernel's half gained; the free frames are those of the start that are neither lost
      nor among the kernel's tables. */
  lemma AliveEnd(w0: World, pages0: Tags, w: World, pages: Tags, kroot: Frame, cap: nat, root: Frame, lost: set<Frame>,
                 private: bool)
    requires Sound(w0, kroot) && Owned(w0, kroot, pages0, cap)
    requires Alive(w0, pages0, w, pages, kroot, cap, root, lost, private)
    ensures Without(pages, root) == pages0
    ensures ReapedWorld(w, pages, root).free == w0.free - lost - KernelTables(w, kroot)
    ensures private ==> ReapedWorld(w, pages, root).tags == w0.tags && KernelTables(w, kroot) == KernelTables(w0, kroot)
    ensures OldTables(w0, ReapedWorld(w, pages, root), kroot)
  {
    hide Sound, Owned, SameWalks, UserWalks, SupervisorKernel, OnlySlotZero, ZeroLinked, Walk, Kept, KernelStays;
    var w' := ReapedWorld(w, pages, root);
    var pages' := Without(pages, root);
    ReapTree(w, pages, kroot, cap, root);
    ReapOwned(w, pages, kroot, cap, root);
    ReapAccounted(w, pages, root);
    EndPages(w0, pages0, w, pages, kroot, cap, root);
    FreeApart(w0, pages0, kroot, cap);
    FreeApart(w', pages', kroot, cap);
    EndTables(w0, pages0, w, pages, kroot, root);
    EndFree(w0, w', pages0, kroot, lost);
    if private {
      SameRecords(w0, pages0, w, pages, root);
    }
    assert KernelTables(w', kroot) == KernelTables(w, kroot);
  }

  /** Every old table is there, and every new one is the kernel's. */
  ghost predicate OldTables(w0: World, w: World, kroot: Frame) {
    && (forall f :: f in w0.tags ==> f in w.tags && w.tags[f] == w0.tags[f])
    && (forall f :: f in w.tags && f !in w0.tags ==> w.tags[f].space == kroot)
  }

  lemma EndPages(w0: World, pages0: Tags, w: World, pages: Tags, kroot: Frame, cap: nat, root: Frame)
    requires Kept(w0, pages0, w, pages, {root, kroot}) && Unborn(w0, pages0, root)
    requires NoKernelPages(pages0, kroot) && Owned(w, kroot, pages, cap)
    ensures Without(pages, root) == pages0
  {
    OwnedPages(w, kroot, pages, cap);
    hide Owned;
    forall f ensures f in Without(pages, root) <==> f in pages0 {
      assert f in pages0 ==> pages0[f].space !in {root, kroot};
      assert f in pages && pages[f].space != root ==> pages[f].space !in {root, kroot};
    }
  }

  lemma EndTables(w0: World, pages0: Tags, w: World, pages: Tags, kroot: Frame, root: Frame)
    requires Kept(w0, pages0, w, pages, {root, kroot}) && KernelStays(w0, w, kroot) && Unborn(w0, pages0, root) &&
             root != kroot
    requires NoKernelPages(pages0, kroot)
    ensures OldTables(w0, ReapedWorld(w, pages, root), kroot)
  {
    StillHere(w0, pages0, w, pages, kroot, root);
    forall f | f in w.tags && w.tags[f].space != root ensures f in w0.tags || w.tags[f].space == kroot {
      assert w.tags[f].space == kroot || w.tags[f].space !in {root, kroot};
    }
  }

  lemma EndFree(w0: World, w: World, pages: Tags, kroot: Frame, lost: set<Frame>)
    requires OldTables(w0, w, kroot) && lost <= w0.free
    requires Accounted(w, pages) == Accounted(w0, pages) - lost
    requires w.free !! w.tags.Keys && w.free !! pages.Keys && w0.free !! w0.tags.Keys && w0.free !! pages.Keys
    ensures w.free == w0.free - lost - KernelTables(w, kroot)
  {
    forall f ensures f in w.free <==> f in w0.free - lost - KernelTables(w, kroot) {
      assert f in Accounted(w, pages) <==> f in w.free || f in w.tags || f in pages;
      assert f in Accounted(w0, pages) <==> f in w0.free || f in w0.tags || f in pages;
    }
  }

  lemma SameRecords(w0: World, pages0: Tags, w: World, pages: Tags, root: Frame)
    requires Kept(w0, pages0, w, pages, {root}) && Unborn(w0, pages0, root)
    ensures Without(w.tags, root) == w0.tags && Without(pages, root) == pages0
  {
    forall f ensures f in Without(w.tags, root) <==> f in w0.tags {
      assert f in w0.tags ==> w0.tags[f].space !in {root};
      assert f in w.tags && w.tags[f].space != root ==> w.tags[f].space !in {root};
    }
    forall f ensures f in Without(pages, root) <==> f in pages0 {
      assert f in pages0 ==> pages0[f].space !in {root};
      assert f in pages && pages[f].space != root ==> pages[f].space !in {root};
    }
  }

  datatype ProcessOp = Fault(addr: nat, isUser: bool) | Munmap(ptr: nat, len: nat)

  /** Faults of user code happen outside the kernel's half, faults of kernel code anywhere the
      process's root is consulted; the arguments of an unmap are any machine words. */
  predicate Contained(op: ProcessOp) {
    match op
    case Fault(addr, isUser) => addr < UPPER_HALF && (isUser ==> !Low(Vpn(addr)))
    case Munmap(ptr, len) => ptr < ADDRESS_LIMIT && len < ADDRESS_LIMIT
  }

  predicate FaultsLow(op: ProcessOp) {
    op.Fault? && Low(Vpn(op.addr))
  }

  lemma SpaceFromFree(w0: World, pages0: Tags, w: World, pages: Tags, kroot: Frame, cap: nat, root: Frame,
                      lost: set<Frame>, private: bool)
    requires Alive(w0, pages0, w, pages, kroot, cap, root, lost, private)
    ensures forall f :: f in SpaceFrames(w, pages, root) ==> f in w0.free
  {
    hide SameWalks, UserWalks, SupervisorKernel, OnlySlotZero, ZeroLinked, Walk, Kept, KernelStays;
    StillHere(w0, pages0, w, pages, kroot, root);
    forall f | f in SpaceFrames(w, pages, root) ensures f in w0.free {
      assert f in Accounted(w, pages);
    }
  }

  /** The parts of `Alive` that the operations ask for. */
  lemma AliveParts(w0: World, pages0: Tags, w: World, pages: Tags, kroot: Frame, cap: nat, root: Frame,
                   lost: set<Frame>, private: bool)
    requires Alive(w0, pages0, w, pages, kroot, cap, root, lost, private)
    ensures Sound(w, kroot) && Owned(w, kroot, pages, cap) && SupervisorKernel(w, kroot)
    ensures IsRoot(w.tags, root) && root != kroot && PrivateSlots(w, kroot, root)
    ensures UserWalks(w0, w) && (private ==> SameWalks(w0, w))
  {
    LinkedPrivate(w, kroot, root);
  }

  lemma AlignedVpn(addr: nat)
    ensures Vpn(addr / PAGE_SIZE * PAGE_SIZE) == Vpn(addr)
  {
  }

  /** Memory at one moment of a process's life. */
  datatype Moment = Moment(w: World, pages: Tags)

  /** What an operation does: a fault takes a frame for the faulting page and maps it if it can, and an
      unmap releases the pages if they are whole and the process may read them all. */
  ghost predicate Served(a: Moment, b: Moment, kroot: Frame, root: Frame, op: ProcessOp, ok: bool) {
    match op
    case Fault(addr, isUser) =>
      exists r :: FreshStep(a.w, a.pages, b.w, b.pages, kroot, root, addr / 4096 * 4096,
                            MapFlags(true, isUser, false, false), r)
                  && (ok <==> r.Mapped?)
    case Munmap(ptr, len) =>
      ok && if ptr % 4096 == 0 && len > 0 && len % 4096 == 0 && UserRange(a.w.mem, root, ptr, len, false)
            then Unmapped(a.w, a.pages, b.w, b.pages, kroot, root, RangePages(ptr, len / 4096))
            else b == a
  }

  /** The life of a process: a clone of the kernel's root, then one operation after the other. */
  ghost predicate Life(w: World, pages: Tags, kroot: Frame, root: Frame, ops: seq<ProcessOp>, oks: seq<bool>,
                       life: seq<Moment>) {
    && kroot in w.mem && |life| == |ops| + 1 && |oks| == |ops|
    && life[0] == Moment(ClonedWorld(w, kroot, root), pages)
    && forall k :: 0 <= k < |ops| ==> Served(life[k], life[k + 1], kroot, root, ops[k], oks[k])
  }

  lemma LifeMore(w: World, pages: Tags, kroot: Frame, root: Frame, ops: seq<ProcessOp>, n: nat, oks: seq<bool>,
                 life: seq<Moment>, ok: bool, b: Moment)
    requires n < |ops| && Life(w, pages, kroot, root, ops[..n], oks, life)
    requires Served(life[n], b, kroot, root, ops[n], ok)
    ensures Life(w, pages, kroot, root, ops[..n + 1], oks + [ok], life + [b])
  {
    hide Served;
    forall k | 0 <= k < n + 1
      ensures Served((life + [b])[k], (life + [b])[k + 1], kroot, root, ops[..n + 1][k], (oks + [ok])[k])
    {
      if k < n {
        assert Served(life[k], life[k + 1], kroot, root, ops[..n][k], oks[k]);
      }
    }
  }

  lemma LifeStart(w: World, pages: Tags, kroot: Frame, root: Frame, ops: seq<ProcessOp>)
    requires kroot in w.mem
    ensures Life(w, pages, kroot, root, ops[..0], [], [Moment(ClonedWorld(w, kroot, root), pages)])
  {
    hide ClonedWorld;
  }

  /** One operation of the running process. */
  method ProcessStep(m: Machine, root: Frame, op: ProcessOp, ghost w0: World, ghost pages0: Tags,
                     ghost lost: set<Frame>, ghost private: bool)
    returns (ok: bool, ghost lost': set<Frame>)
    requires SpacesValid(m) && Contained(op) && m.active == root
    requires Alive(w0, pages0, m.W(), m.pages, m.kroot, m.pmm.Capacity(), root, lost, private)
    modifies m`mem, m`tags, m`pages, m.pmm.bitmap
    ensures SpacesValid(m)
    ensures Alive(w0, pages0, m.W(), m.pages, m.kroot, m.pmm.Capacity(), root, lost', private && !FaultsLow(op))
    ensures ok && !FaultsLow(op) ==> lost' == lost
    ensures Served(Moment(old(m.W()), old(m.pages)), Moment(m.W(), m.pages), m.kroot, root, op, ok)
  {
    hide Sound, Owned, SupervisorKernel, Alive, FreshStep, Unmapped, PrivateSlots, SameWalks, UserWalks, Low, Vpn,
         DemandPage, RightsGiven, UserRange, RangePages, LostBy;
    ghost var w, pages, cap := m.W(), m.pages, m.pmm.Capacity();
    AliveParts(w0, pages0, w, pages, m.kroot, cap, root, lost, private);
    lost' := lost;
    match op {
      case Fault(addr, isUser) =>
        ok := HandlePageFault(m, root, addr, false, isUser);
        ghost var va := addr / PAGE_SIZE * PAGE_SIZE;
        AlignedVpn(addr);
        ghost var r :| FreshStep(w, pages, m.W(), m.pages, m.kroot, root, va, DemandFlags(isUser), r) &&
            (ok <==> r.Mapped?);
        AliveFresh(w0, pages0, w, pages, m.W(), m.pages, m.kroot, cap, root, lost, private, va, DemandFlags(isUser), r);
        lost' := lost + LostBy(w, m.kroot, root, va, r);
      case Munmap(ptr, len) =>
        var code := SysMunmap(m, root, true, ptr, len);
        ok := true;
        if code == 0 {
          AliveUnmap(w0, pages0, w, pages, m.W(), m.pages, m.kroot, cap, root, lost, private,
                     RangePages(ptr, len / PAGE_SIZE));
        }
    }
  }

  /** Creates a process from a kernel root that uses only slot 0, lets it fault and unmap in any
      order, and tears it down. Afterwards the page records are those of before; the free frames are
      those of before less the frames lost and the tables the kernel's half gained; every frame of
      the process was freed once; and the user half of every other address space translates as
      before. If no fault was on a page of the kernel's half, tables and translations are those of
      before altogether. */
  method ProcessLifetime(m: Machine, ops: seq<ProcessOp>)
    returns (root: Option<Frame>, allMapped: bool, ghost lost: set<Frame>, ghost freed: seq<Frame>,
             ghost oks: seq<bool>, ghost life: seq<Moment>)
    requires SpacesValid(m) && SupervisorKernel(m.W(), m.kroot) && OnlySlotZero(m.W(), m.kroot)
    requires m.active == m.kroot
    requires forall k :: 0 <= k < |ops| ==> Contained(ops[k])
    modifies m, m.pmm.bitmap
    ensures SpacesValid(m) && m.kroot == old(m.kroot) && m.pages == old(m.pages)
    ensures OldTables(old(m.W()), m.W(), m.kroot) && UserWalks(old(m.W()), m.W())
    ensures m.pmm.FreeSet() == old(m.pmm.FreeSet()) - lost - KernelTables(m.W(), m.kroot)
    ensures (forall k :: 0 <= k < |ops| ==> !FaultsLow(ops[k])) ==>
              && m.tags == old(m.tags) && SameWalks(old(m.W()), m.W())
              && m.pmm.FreeSet() == old(m.pmm.FreeSet()) - lost
              && (allMapped ==> lost == {})
    ensures NoRepeat(freed) && forall f :: f in freed ==> f in old(m.pmm.FreeSet())
    ensures root.None? <==> old(m.pmm.FreeSet()) == {}
    ensures root.Some? ==>
            && Life(old(m.W()), old(m.pages), m.kroot, root.value, ops, oks, life)
            && m.W() == ReapedWorld(life[|ops|].w, life[|ops|].pages, root.value)
            && (allMapped <==> false !in oks)
            && forall f :: f in freed <==> f in SpaceFrames(life[|ops|].w, life[|ops|].pages, root.value)
  {
    hide Sound, Owned, SupervisorKernel, Alive, Kept, Accounted, PrivateSlots, KernelSlots, ReapedWorld, ClonedWorld,
         UserWalks, SameWalks, OldTables, KernelTables, Life, Served, SpaceFrames;
    ghost var w0, pages0, cap := m.W(), m.pages, m.pmm.Capacity();
    lost, freed, allMapped, oks, life := {}, [], true, [], [];
    ghost var private := true;
    var kroot := m.kroot;
    root := CreateProcessPageTable(m);
    if root.None? {
      Unchanged(w0, kroot);
      return;
    }
    var p := root.value;
    KernelRootSlots(w0, kroot);
    RootIsTable(w0, kroot, kroot);
    AliveStart(w0, pages0, kroot, cap, p);
    m.active := p;
    life := [Moment(m.W(), m.pages)];
    LifeStart(w0, pages0, kroot, p, ops);
    for k := 0 to |ops|
      invariant SpacesValid(m) && m.active == p && m.kroot == kroot
      invariant Alive(w0, pages0, m.W(), m.pages, kroot, cap, p, lost, private)
      invariant private <==> forall i :: 0 <= i < k ==> !FaultsLow(ops[i])
      invariant allMapped && private ==> lost == {}
      invariant |life| == k + 1 && |oks| == k && life[k] == Moment(m.W(), m.pages)
      invariant Life(w0, pages0, kroot, p, ops[..k], oks, life) && (allMapped <==> false !in oks)
    {
      var ok, lost' := ProcessStep(m, p, ops[k], w0, pages0, lost, private);
      LifeMore(w0, pages0, kroot, p, ops, k, oks, life, ok, Moment(m.W(), m.pages));
      oks, life := oks + [ok], life + [Moment(m.W(), m.pages)];
      lost := lost';
      private := private && !FaultsLow(ops[k]);
      allMapped := allMapped && ok;
    }
    assert ops[..|ops|] == ops;
    m.active := kroot;
    ghost var w, pages := m.W(), m.pages;
    AliveParts(w0, pages0, w, pages, kroot, cap, p, lost, private);
    AliveEnd(w0, pages0, w, pages, kroot, cap, p, lost, private);
    SpaceFromFree(w0, pages0, w, pages, kroot, cap, p, lost, private);
    freed := ReapProcess(m, p);
    EndWalks(w0, w, pages, p);
    EndSame(w0, w, pages, kroot, p);
  }

  lemma Unchanged(w: World, kroot: Frame)
    ensures OldTables(w, w, kroot) && UserWalks(w, w) && SameWalks(w, w)
    ensures w.free == {} ==> w.free == w.free - {} - KernelTables(w, kroot)
  {
    hide Walk;
  }

  lemma EndWalks(w0: World, w: World, pages: Tags, s: Frame)
    ensures UserWalks(w0, w) ==> UserWalks(w0, ReapedWorld(w, pages, s))
    ensures SameWalks(w0, w) ==> SameWalks(w0, ReapedWorld(w, pages, s))
  {
    hide Walk;
  }

  lemma EndSame(w0: World, w: World, pages: Tags, kroot: Frame, s: Frame)
    requires s != kroot && Sound(w0, kroot)
    ensures KernelTables(ReapedWorld(w, pages, s), kroot) == KernelTables(w, kroot)
    ensures forall lost: set<Frame> :: w0.free - lost - KernelTables(w0, kroot) == w0.free - lost
  {
  }

  /** The condition is exact: a handled fault keeps every address space's translations, and user code
      out of the kernel's half, if and only if it is not on a page of the kernel's half. A fault of
      user code there opens the page to user code in every address space. */
  lemma FaultPrivateIff(w0: World, pages0: Tags, w: World, pages: Tags, w': World, pages': Tags, kroot: Frame,
                        cap: nat, root: Frame,
                        lost: set<Frame>, va: nat, flags: MapFlags, r: FreshMap)
    requires Alive(w0, pages0, w, pages, kroot, cap, root, lost, true) && IsRoot(w0.tags, kroot)
    requires FreshStep(w, pages, w', pages', kroot, root, va, flags, r) && r.Mapped?
    requires Sound(w', kroot) && Owned(w', kroot, pages', cap)
    ensures SameWalks(w0, w') <==> !Low(Vpn(va))
    ensures Alive(w0, pages0, w', pages', kroot, cap, root, lost + LostBy(w, kroot, root, va, r), false) <==>
            !(Low(Vpn(va)) && flags.userAccessible)
  {
    hide Owned, Sound, OthersUntouched, Kept, Flat, LinksKept, PageAdded, Persist, Unborn, UserWalks, MapOutcome,
         OtherSlotsKept,
         KernelStays, Accounted, Walk, FreshStep, SupervisorKernel, ZeroLinked, OnlySlotZero;
    if Low(Vpn(va)) {
      AliveShares(w0, pages0, w, pages, kroot, cap, root, lost);
      LowPageReachesAll(w, pages, w', pages', kroot, root, va, flags, r, kroot);
      assert Walk(w.mem, kroot, Vpn(va)) == Walk(w0.mem, kroot, Vpn(va));
      LowSupervisorIff(w, pages, w', pages', kroot, root, va, flags, r);
      if !flags.userAccessible {
        AliveLow(w0, pages0, w, pages, w', pages', kroot, cap, root, lost, true, va, flags, r);
      }
    } else {
      AliveHigh(w0, pages0, w, pages, w', pages', kroot, cap, root, lost, true, va, flags, r);
    }
  }

  lemma AliveShares(w0: World, pages0: Tags, w: World, pages: Tags, kroot: Frame, cap: nat, root: Frame,
                    lost: set<Frame>)
    requires Alive(w0, pages0, w, pages, kroot, cap, root, lost, true)
    ensures SharesZero(w, kroot, root) && SharesZero(w, kroot, kroot)
  {
  }
}
