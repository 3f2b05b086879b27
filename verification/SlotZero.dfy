/** The first slot of every root is the kernel's: what lives there, and what a mapping made there
    does to everybody. */
module SlotZero {
  import opened Basics
  import opened PageTables
  import opened Worlds
  import opened Vmm
  import opened Spaces
  import opened UserMemory
  import opened Teardown

  /** The page lies under slot 0 of its root, which every address space shares. */
  predicate Low(v: nat) {
    Index(v, 0) == 0
  }

  /** The low pages are those whose address, cut to 48 bits, is below 2^39: not only the addresses
      below 2^39, but also their aliases from 2^48 on. */
  lemma LowAddresses(va: nat)
    ensures Low(Vpn(va)) <==> va % 0x1_0000_0000_0000 < USER_SPACE_BASE
  {
    hide Index;
    IndexIsShiftAndMask(va);
    LowQuotient(va);
  }

  lemma LowQuotient(va: nat)
    ensures va / 0x80_0000_0000 % 512 == 0 <==> va % 0x1_0000_0000_0000 < 0x80_0000_0000
  {
    var q, r := va / 0x1_0000_0000_0000, va % 0x1_0000_0000_0000;
    assert va == q * 512 * 0x80_0000_0000 + r;
    assert va / 0x80_0000_0000 == q * 512 + r / 0x80_0000_0000;
  }

  /** The shape of the kernel root: slot 0 in use, the other 511 slots empty. */
  ghost predicate OnlySlotZero(w: World, kroot: Frame) {
    && IsRoot(w.tags, kroot) && At(w.mem, kroot, 0).Present?
    && forall i :: 1 <= i < ENTRIES ==> At(w.mem, kroot, i).Absent?
  }

  /** Under such a kernel root no process can share any other slot with it. */
  lemma SlotsPrivate(w: World, kroot: Frame, root: Frame)
    requires Sound(w, kroot) && OnlySlotZero(w, kroot) && IsRoot(w.tags, root) && root != kroot
    ensures OwnSlots(w, kroot, root)
  {
    forall i | 1 <= i < ENTRIES ensures OwnSlot(w, kroot, root, i) {
      if At(w.mem, root, i).Present? {
        assert ForwardAt(w.mem, kroot, w.tags, root, i);
        assert BackwardAt(w.mem, w.tags, At(w.mem, root, i).frame);
      }
    }
  }

  /** A page under any other slot is served by a private path. */
  lemma UserPathSpace(w: World, kroot: Frame, root: Frame, v: nat)
    requires Sound(w, kroot) && OnlySlotZero(w, kroot) && IsRoot(w.tags, root) && root != kroot && !Low(v)
    ensures PathSpace(w, root, v) == root
  {
    var i := Index(v, 0);
    SlotsPrivate(w, kroot, root);
    assert OwnSlot(w, kroot, root, i);
    assert ForwardAt(w.mem, kroot, w.tags, root, i);
  }

  /** A page under slot 0 is served by the kernel's tables. */
  lemma LowPathSpace(w: World, kroot: Frame, root: Frame, v: nat)
    requires Sound(w, kroot) && OnlySlotZero(w, kroot) && SharesZero(w, kroot, root) && Low(v)
    ensures PathSpace(w, root, v) == kroot
  {
    assert ForwardAt(w.mem, kroot, w.tags, kroot, 0);
  }

  /** Slot 0 of the process is the kernel's slot 0. */
  ghost predicate ZeroLinked(w: World, kroot: Frame, root: Frame) {
    At(w.mem, kroot, 0).Present? && At(w.mem, root, 0).Present? && At(w.mem, root, 0).frame == At(w.mem, kroot, 0).frame
  }

  lemma LinkedPrivate(w: World, kroot: Frame, root: Frame)
    requires Sound(w, kroot) && OnlySlotZero(w, kroot) && IsRoot(w.tags, root) && root != kroot &&
             ZeroLinked(w, kroot, root)
    ensures PrivateSlots(w, kroot, root)
  {
    SlotsPrivate(w, kroot, root);
    assert ForwardAt(w.mem, kroot, w.tags, kroot, 0);
  }

  /** The kernel's own page tables. */
  ghost function KernelTables(w: World, kroot: Frame): set<Frame> {
    set f | f in w.tags && w.tags[f].space == kroot
  }

  /** Below 2^39 every process translates as the kernel does. */
  lemma SlotZeroSame(w: World, kroot: Frame, root: Frame, v: nat)
    requires ZeroLinked(w, kroot, root) && Low(v)
    ensures Walk(w.mem, root, v) == Walk(w.mem, kroot, v)
  {
    WalkUnfolds(w.mem, root, v);
    WalkUnfolds(w.mem, kroot, v);
  }

  // ---------------------------------------------------------------------------
  // Leaves and walks
  // ---------------------------------------------------------------------------

  /** Every table is on the path of the pages its tag names. */
  lemma {:induction false} TableOnPath(w: World, kroot: Frame, t: Frame, v: nat, level: nat)
    requires Sound(w, kroot) && t in w.tags && w.tags[t].level == level <= 3 && w.tags[t].prefix == Prefix(v, level)
    ensures IsRoot(w.tags, w.tags[t].space) && TableOf(w.mem, w.tags[t].space, v, level) == Some(t)
    decreases level
  {
    assert BackwardAt(w.mem, w.tags, t);
    if level > 0 {
      PrefixSplit(v, level - 1);
      TableOnPath(w, kroot, w.tags[t].parent, v, level - 1);
    }
  }

  ghost function Pow512(n: nat): nat {
    if n == 0 then 1 else 512 * Pow512(n - 1)
  }

  lemma {:induction false} PrefixBound(w: World, kroot: Frame, t: Frame, level: nat)
    requires Sound(w, kroot) && t in w.tags && w.tags[t].level == level
    ensures w.tags[t].prefix < Pow512(level)
    decreases level
  {
    assert BackwardAt(w.mem, w.tags, t);
    if level > 0 {
      PrefixBound(w, kroot, w.tags[t].parent, level - 1);
    }
  }

  /** Slot `i` of a leaf table is the leaf of one page of its space. */
  lemma LeafIsWalk(w: World, kroot: Frame, t: Frame, i: nat) returns (v: nat)
    requires Sound(w, kroot) && t in w.tags && w.tags[t].level == 3 && i < ENTRIES
    ensures v < VPN_LIMIT && IsRoot(w.tags, w.tags[t].space)
    ensures Walk(w.mem, w.tags[t].space, v) == At(w.mem, t, i)
  {
    v := w.tags[t].prefix * ENTRIES + i;
    PrefixBound(w, kroot, t, 3);
    assert Pow512(1) == 512 && Pow512(2) == 512 * 512 && Pow512(3) == 512 * 512 * 512;
    assert Prefix(v, 4) == v && Prefix(v, 3) == w.tags[t].prefix;
    TableOnPath(w, kroot, t, v, 3);
  }

  /** A leaf the kernel's root leads to is not for user code. */
  lemma KernelLeaf(w: World, kroot: Frame, v: nat)
    requires Sound(w, kroot) && IsRoot(w.tags, kroot) && SupervisorKernel(w, kroot) && v < VPN_LIMIT
    ensures !UserLeaf(Walk(w.mem, kroot, v), false)
  {
    if TableOf(w.mem, kroot, v, 3).Some? {
      PathTag(w.mem, kroot, w.tags, kroot, v, 3);
    }
  }

  // ---------------------------------------------------------------------------
  // Mapping a fresh page under slot 0
  // ---------------------------------------------------------------------------

  ghost predicate SharesZero(w: World, kroot: Frame, root: Frame) {
    IsRoot(w.tags, kroot) && IsRoot(w.tags, root) && (root == kroot || ZeroLinked(w, kroot, root))
  }

  /** What the step does to the walk through the root it works on. */
  lemma FreshLeaf(w: World, pages: Tags, w': World, pages': Tags, kroot: Frame, root: Frame, va: nat, flags: MapFlags,
                  r: FreshMap)
    requires FreshStep(w, pages, w', pages', kroot, root, va, flags, r) && r.Mapped?
    ensures Vpn(va) < VPN_LIMIT && Walk(w.mem, root, Vpn(va)).Absent? &&
            Walk(w'.mem, root, Vpn(va)) == Present(r.frame, flags)
  {
    hide Kept, Persist, OthersUntouched, OtherSlotsKept, Accounted, Missing, Walk;
    var v := Vpn(va);
    assert v < VPN_LIMIT;
    assert v in Flat(w'.mem, root);
    assert Flat(w'.mem, root)[v] == Present(r.frame, flags);
  }

  /** A page mapped under slot 0 appears in every address space. */
  lemma LowPageReachesAll(w: World, pages: Tags, w': World, pages': Tags, kroot: Frame, root: Frame, va: nat,
                          flags: MapFlags, r: FreshMap,
                          other: Frame)
    requires FreshStep(w, pages, w', pages', kroot, root, va, flags, r) && r.Mapped? && Low(Vpn(va))
    requires SharesZero(w, kroot, root) && SharesZero(w, kroot, other)
    ensures Walk(w.mem, other, Vpn(va)).Absent? && Walk(w'.mem, other, Vpn(va)) == Present(r.frame, flags)
  {
    hide Kept, OthersUntouched, OtherSlotsKept, Accounted, FreshOutcome, Walk, Flat;
    FreshLeaf(w, pages, w', pages', kroot, root, va, flags, r);
    ZeroKept(w, w', kroot, root);
    ZeroKept(w, w', kroot, other);
    SameBelow(w, kroot, root, other, Vpn(va));
    SameBelow(w', kroot, root, other, Vpn(va));
  }

  lemma SameBelow(w: World, kroot: Frame, root: Frame, other: Frame, v: nat)
    requires SharesZero(w, kroot, root) && SharesZero(w, kroot, other) && Low(v)
    ensures Walk(w.mem, root, v) == Walk(w.mem, kroot, v) == Walk(w.mem, other, v)
  {
    hide Walk;
    if root != kroot {
      SlotZeroSame(w, kroot, root, v);
    }
    if other != kroot {
      SlotZeroSame(w, kroot, other, v);
    }
  }

  /** Sharing slot 0 lasts as long as links and roots do. */
  lemma ZeroKept(w: World, w': World, kroot: Frame, root: Frame)
    requires LinksKept(w, w') && SharesZero(w, kroot, root)
    ensures ZeroLinked(w, kroot, root) ==> ZeroLinked(w', kroot, root)
    ensures IsRoot(w'.tags, kroot) && IsRoot(w'.tags, root) ==> SharesZero(w', kroot, root)
  {
    assert KeepsLink(At(w.mem, root, 0), At(w'.mem, root, 0)) && KeepsLink(At(w.mem, kroot, 0), At(w'.mem, kroot, 0));
  }

  /** Slots 1..511 of the kernel's root stay empty. */
  lemma LowSlots(w: World, w': World, pages: Tags, kroot: Frame, root: Frame, v: nat)
    requires OnlySlotZero(w, kroot) && OtherSlotsKept(w, w', root, v) && Persist(w, w', pages) &&
             (Low(v) || root != kroot)
    ensures OnlySlotZero(w', kroot)
  {
    hide Index;
    assert KeepsLink(At(w.mem, kroot, 0), At(w'.mem, kroot, 0));
    forall i | 1 <= i < ENTRIES ensures At(w'.mem, kroot, i).Absent? {
      assert Index(v, 0) == 0 || root != kroot;
      assert At(w'.mem, kroot, i) == At(w.mem, kroot, i);
    }
  }

  /** Mapping under slot 0 keeps user code out of the kernel's half if and only if the page is not
      mapped for user code. */
  lemma LowSupervisorIff(w: World, pages: Tags, w': World, pages': Tags, kroot: Frame, root: Frame, va: nat,
                         flags: MapFlags, r: FreshMap)
    requires FreshStep(w, pages, w', pages', kroot, root, va, flags, r) && Low(Vpn(va)) && SharesZero(w, kroot, root)
    requires Sound(w, kroot) && Sound(w', kroot) && SupervisorKernel(w, kroot)
    ensures SupervisorKernel(w', kroot) <==> !(r.Mapped? && flags.userAccessible)
  {
    hide Kept, Accounted, FreshOutcome, Walk, Flat, Sound, SupervisorKernel, OtherSlotsKept, Persist;
    if r.Mapped? {
      SharesSelf(w, kroot, root);
      LowPageReachesAll(w, pages, w', pages', kroot, root, va, flags, r, kroot);
    }
    SharedRootKept(w, w', pages, kroot, root);
    if r.Mapped? && flags.userAccessible {
      if SupervisorKernel(w', kroot) {
        KernelLeaf(w', kroot, Vpn(va));
      }
    } else {
      OnlyThatPage(w, pages, w', pages', kroot, root, va, flags, r);
      SupervisorByWalks(w, w', kroot);
    }
  }

  lemma SharesSelf(w: World, kroot: Frame, root: Frame)
    requires SharesZero(w, kroot, root)
    ensures SharesZero(w, kroot, kroot)
  {
  }

  lemma SharedRootKept(w: World, w': World, pages: Tags, kroot: Frame, root: Frame)
    requires Persist(w, w', pages) && SharesZero(w, kroot, root)
    ensures IsRoot(w'.tags, kroot) && IsRoot(w'.tags, root)
  {
  }

  lemma OnlyThatPage(w: World, pages: Tags, w': World, pages': Tags, kroot: Frame, root: Frame, va: nat,
                     flags: MapFlags, r: FreshMap)
    requires FreshStep(w, pages, w', pages', kroot, root, va, flags, r) && IsRoot(w.tags, kroot)
    requires r.Mapped? ==> !flags.userAccessible && Walk(w'.mem, kroot, Vpn(va)) == Present(r.frame, flags)
    ensures forall v :: 0 <= v < VPN_LIMIT && UserLeaf(Walk(w'.mem, kroot, v), false) ==>
            Walk(w'.mem, kroot, v) == Walk(w.mem, kroot, v)
  {
    hide Kept, Accounted, FreshOutcome, Walk, Flat, OtherSlotsKept, Persist, PathSpace;
  }

  lemma SupervisorByWalks(w: World, w': World, kroot: Frame)
    requires Sound(w, kroot) && Sound(w', kroot) && SupervisorKernel(w, kroot) && IsRoot(w.tags, kroot)
    requires forall v :: 0 <= v < VPN_LIMIT && UserLeaf(Walk(w'.mem, kroot, v), false) ==>
             Walk(w'.mem, kroot, v) == Walk(w.mem, kroot, v)
    ensures SupervisorKernel(w', kroot)
  {
    hide Walk, Sound;
    forall t, i | t in w'.tags && w'.tags[t].level == 3 && w'.tags[t].space == kroot
        ensures !UserLeaf(At(w'.mem, t, i), false) {
      if 0 <= i < ENTRIES {
        var v := LeafIsWalk(w', kroot, t, i);
        KernelLeaf(w, kroot, v);
      }
    }
  }
}
