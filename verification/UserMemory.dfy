/** Faults, pointer validation and unmapping on behalf of user code. */
module UserMemory {
  import opened Basics
  import opened PageTables
  import opened Worlds
  import opened Vmm
  import opened Spaces

  const USER_SPACE_BASE: nat := 0x80_0000_0000
  /** From here on AArch64 translates through TTBR1_EL1. */
  const UPPER_HALF: nat := 0xFFFF_0000_0000_0000
  const SYSCALL_ERROR: nat := 0xFFFF_FFFF_FFFF_FFFF

  // ---------------------------------------------------------------------------
  // Demand paging
  // ---------------------------------------------------------------------------

  function DemandFlags(isUser: bool): MapFlags {
    MapFlags(true, isUser, false, false)
  }

  /** The root a fault is served through: the active one, except that AArch64 reads a second
      register, TTBR1_EL1, for addresses of the upper half. */
  function FaultRoot(arch: Arch, active: Frame, upper: Frame, faultAddr: nat): (r: Frame)
    ensures r == if arch == AArch64 && faultAddr / 0x1_0000_0000_0000 >= 0xFFFF then upper else active
  {
    if arch.AArch64? && faultAddr >= UPPER_HALF then upper else active
  }

  /** A fault on a present page is a violation; any other fault maps a zeroed frame at the
      faulting page of its address space, if frames suffice and the page is unmapped. */
  method HandlePageFault(m: Machine, upper: Frame, faultAddr: nat, isPresent: bool, isUser: bool)
      returns (handled: bool)
    requires SpacesValid(m) && IsRoot(m.tags, FaultRoot(m.arch, m.active, upper, faultAddr))
    modifies m`mem, m`tags, m`pages, m.pmm.bitmap
    ensures SpacesValid(m)
    ensures isPresent ==> !handled && m.W() == old(m.W()) && m.pages == old(m.pages)
    ensures !isPresent ==>
              exists r :: FreshStep(old(m.W()), old(m.pages), m.W(), m.pages, m.kroot,
                                    FaultRoot(m.arch, m.active, upper, faultAddr),
                                    faultAddr / PAGE_SIZE * PAGE_SIZE, DemandFlags(isUser), r)
                          && (handled <==> r.Mapped?)
    ensures handled ==> DemandPage(m.mem, FaultRoot(m.arch, m.active, upper, faultAddr), Vpn(faultAddr), isUser)
    ensures handled ==>
            RightsGiven(m.arch, old(m.mem), m.mem, FaultRoot(m.arch, m.active, upper, faultAddr), Vpn(faultAddr),
                        DemandFlags(isUser))
  {
    if isPresent {
      return false;
    }
    hide FreshStep, Owned, Sound, RightsGiven, Vpn, DemandPage;
    var alignedVirt := faultAddr / PAGE_SIZE * PAGE_SIZE;
    ghost var w, pages := m.W(), m.pages;
    var r := MapZeroed(m, FaultRoot(m.arch, m.active, upper, faultAddr), alignedVirt, DemandFlags(isUser));
    PageStart(faultAddr);
    SamePageSameVpn(alignedVirt, faultAddr);
    if r.Mapped? {
      DemandMapped(w, pages, m.W(), m.pages, m.kroot, FaultRoot(m.arch, m.active, upper, faultAddr), alignedVirt,
                   isUser, r);
    }
    handled := r.Mapped?;
  }

  /** The page is there for reading, writing and executing, for user code if it asked, and holds zeros. */
  ghost predicate DemandPage(mem: Memory, root: Frame, v: nat, isUser: bool) {
    var e := Walk(mem, root, v);
    && e.Present? && e.flags.writable && !e.flags.executeDisable && e.flags.userAccessible == isUser
    && IsPage(mem, e.frame) && forall k :: 0 <= k < PAGE_SIZE ==> mem[e.frame].bytes[k] == 0
  }

  lemma DemandMapped(w: World, pages: Tags, w': World, pages': Tags, kroot: Frame, root: Frame, va: nat, isUser: bool,
                     r: FreshMap)
    requires FreshStep(w, pages, w', pages', kroot, root, va, DemandFlags(isUser), r) && r.Mapped?
    ensures DemandPage(w'.mem, root, Vpn(va), isUser)
  {
    hide Kept, Persist, OthersUntouched, OtherSlotsKept, Accounted, FreshTables, Walk, MapOutcome;
    assert Vpn(va) in Flat(w'.mem, root);
    assert Flat(w'.mem, root)[Vpn(va)] == Present(r.frame, DemandFlags(isUser));
  }

  // ---------------------------------------------------------------------------
  // Pointer validation
  // ---------------------------------------------------------------------------

  predicate UserLeaf(e: Entry, needWrite: bool) {
    e.Present? && e.flags.userAccessible && (needWrite ==> e.flags.writable)
  }

  /** User code may access the byte at `b` through `root`. */
  predicate UserByte(mem: Memory, root: Frame, b: nat, needWrite: bool) {
    UserLeaf(Walk(mem, root, Vpn(b)), needWrite)
  }

  ghost predicate UserRange(mem: Memory, root: Frame, ptr: nat, len: nat, needWrite: bool) {
    && ptr + len < ADDRESS_LIMIT
    && USER_SPACE_BASE <= ptr
    && forall b :: ptr <= b < ptr + len ==> UserByte(mem, root, b, needWrite)
  }

  method PageIsUserAccessible(m: Machine, root: Frame, va: nat, needWrite: bool) returns (ok: bool)
    requires m.Valid() && IsRoot(m.tags, root)
    ensures ok == UserByte(m.mem, root, va, needWrite)
  {
    IndexIsShiftAndMask(va);
    WalkUnfolds(m.mem, root, Vpn(va));
    var e0 := At(m.mem, root, va / 0x80_0000_0000 % 512);
    if e0.Absent? {
      return false;
    }
    var e1 := At(m.mem, e0.frame, va / 0x4000_0000 % 512);
    if e1.Absent? {
      return false;
    }
    var e2 := At(m.mem, e1.frame, va / 0x20_0000 % 512);
    if e2.Absent? {
      return false;
    }
    var leaf := At(m.mem, e2.frame, va / 0x1000 % 512);
    ok := leaf.Present? && leaf.flags.userAccessible && (!needWrite || leaf.flags.writable);
  }

  lemma SamePageSameVpn(a: nat, b: nat)
    requires a / PAGE_SIZE == b / PAGE_SIZE
    ensures Vpn(a) == Vpn(b)
  {
  }

  /** A page is accessible as a whole. */
  lemma SamePage(mem: Memory, root: Frame, page: nat, b: nat, needWrite: bool)
    requires page % PAGE_SIZE == 0 && page <= b < page + PAGE_SIZE
    ensures UserByte(mem, root, b, needWrite) == UserByte(mem, root, page, needWrite)
    ensures UserByte(mem, root, b, needWrite) ==> Translate(mem, root, b).Some?
  {
    SamePageSameVpn(b, page);
  }

  lemma PageStart(a: nat)
    ensures a / PAGE_SIZE * PAGE_SIZE <= a < a / PAGE_SIZE * PAGE_SIZE + PAGE_SIZE
    ensures a / PAGE_SIZE * PAGE_SIZE % PAGE_SIZE == 0
  {
  }

  lemma NextPage(page: nat, lastPage: nat)
    requires page % PAGE_SIZE == 0 && lastPage % PAGE_SIZE == 0 && page < lastPage
    ensures page + PAGE_SIZE <= lastPage && (page + PAGE_SIZE) % PAGE_SIZE == 0
  {
  }

  method ValidateUserRange(m: Machine, root: Frame, ptr: nat, len: nat, needWrite: bool) returns (ok: bool)
    requires m.Valid() && IsRoot(m.tags, root)
    requires ptr < ADDRESS_LIMIT && len < ADDRESS_LIMIT
    ensures len == 0 ==> ok
    ensures len != 0 ==> (ok <==> UserRange(m.mem, root, ptr, len, needWrite))
    ensures len != 0 && ok ==> forall b :: ptr <= b < ptr + len ==> Translate(m.mem, root, b).Some?
  {
    hide Sound, UserByte, Translate;
    if len == 0 {
      return true;
    }
    if ptr + len >= ADDRESS_LIMIT || ptr < USER_SPACE_BASE {
      return false;
    }
    var end := ptr + len;
    var page := ptr / PAGE_SIZE * PAGE_SIZE;
    var lastPage := (end - 1) / PAGE_SIZE * PAGE_SIZE;
    PageStart(ptr);
    PageStart(end - 1);
    while true
      invariant page % PAGE_SIZE == 0 && page <= lastPage && ptr < page + PAGE_SIZE
      invariant forall b :: ptr <= b < page ==> UserByte(m.mem, root, b, needWrite) && Translate(m.mem, root, b).Some?
      decreases lastPage - page
    {
      var pageOk := PageIsUserAccessible(m, root, page, needWrite);
      forall b | page <= b < page + PAGE_SIZE
        ensures UserByte(m.mem, root, b, needWrite) == pageOk && (pageOk ==> Translate(m.mem, root, b).Some?)
      {
        SamePage(m.mem, root, page, b, needWrite);
      }
      if !pageOk {
        ghost var bad := if page < ptr then ptr else page;
        assert !UserByte(m.mem, root, bad, needWrite);
        return false;
      }
      if page == lastPage {
        return true;
      }
      NextPage(page, lastPage);
      page := page + 0x1000;
    }
  }

  /** Kernel-mode callers are trusted; user callers are checked against their own table. */
  method ValidateUserPtr(m: Machine, root: Frame, isRing3: bool, ptr: nat, len: nat, needWrite: bool) returns (ok: bool)
    requires m.Valid() && IsRoot(m.tags, root)
    requires ptr < ADDRESS_LIMIT && len < ADDRESS_LIMIT
    ensures ok <==> !isRing3 || len == 0 || UserRange(m.mem, root, ptr, len, needWrite)
  {
    if !isRing3 {
      return true;
    }
    ok := ValidateUserRange(m, root, ptr, len, needWrite);
  }

  // ---------------------------------------------------------------------------
  // Unmapping
  // ---------------------------------------------------------------------------

  /** The kernel's own leaves are not accessible to user code. */
  ghost predicate SupervisorKernel(w: World, kroot: Frame) {
    forall t, i :: t in w.tags && w.tags[t].level == 3 && w.tags[t].space == kroot ==> !UserLeaf(At(w.mem, t, i), false)
  }

  ghost function UnmappedWorld(w: World, t: Frame, v: nat, frame: Frame): World
    requires IsTable(w.mem, t)
  {
    World(SetEntry(w.mem, t, Index(v, 3), Absent), w.tags, w.free + {frame})
  }

  /** Clearing a user page gives back its one frame and removes its one key. */
  lemma UnmapUserPage(w: World, pages: Tags, kroot: Frame, cap: nat, root: Frame, v: nat, t: Frame)
    requires Sound(w, kroot) && Owned(w, kroot, pages, cap) && SupervisorKernel(w, kroot)
    requires IsRoot(w.tags, root) && v < VPN_LIMIT && TableOf(w.mem, root, v, 3) == Some(t) && t in w.tags
    requires UserLeaf(Walk(w.mem, root, v), false)
    ensures IsTable(w.mem, t)
    ensures var frame := Walk(w.mem, root, v).frame;
            var w' := UnmappedWorld(w, t, v, frame);
            && 0 < frame < cap && frame in pages && frame !in w.free && pages[frame].space == root != kroot &&
                pages[frame].prefix == v
            && Sound(w', kroot) && Owned(w', kroot, pages - {frame}, cap) && SupervisorKernel(w', kroot)
            && w'.free == w.free + {frame} && w.tags[t].level == 3
            && Kept(w, pages, w', pages - {frame}, {root})
  {
    PathTag(w.mem, kroot, w.tags, root, v, 3);
    PrefixSplit(v, 3);
    OwnedUnmap(w, kroot, pages, cap, t, Index(v, 3));
    SetLeafTree(w.mem, kroot, w.tags, t, Index(v, 3), Absent);
  }

  /** The page number of the k-th page of a range. */
  function PageOf(ptr: nat, k: nat): nat {
    Vpn(ptr + k * PAGE_SIZE)
  }

  ghost function RangePages(ptr: nat, count: nat): set<nat> {
    set k | 0 <= k < count :: PageOf(ptr, k)
  }

  /** The frames that back the pages `vs`. */
  ghost function Backing(flat: map<nat, Entry>, vs: set<nat>): set<Frame> {
    set v | v in vs && v in flat && flat[v].Present? :: flat[v].frame
  }

  /** Progress of an unmap: the pages `gone` have left the flat map of `root`, and exactly
      the frames that backed them have moved from the page records to the free set. */
  ghost predicate Unmapped(w: World, pages: Tags, w': World, pages': Tags, kroot: Frame, root: Frame, gone: set<nat>) {
    && w'.tags == w.tags
    && Flat(w'.mem, root) == Flat(w.mem, root) - gone
    && w'.free == w.free + Backing(Flat(w.mem, root), gone)
    && pages' == pages - Backing(Flat(w.mem, root), gone)
    && (forall r, u :: IsRoot(w.tags, r) && r != root && 0 <= u < VPN_LIMIT ==> Walk(w'.mem, r, u) == Walk(w.mem, r, u))
    && Kept(w, pages, w', pages', {root}) && UpperSame(w, w')
    && Accounted(w', pages') == Accounted(w, pages)
  }

  /** No entry above the leaf tables changes. */
  ghost predicate UpperSame(w: World, w': World) {
    forall f, i {:trigger At(w'.mem, f, i)} ::
      f in w.tags && w.tags[f].level < 3 ==> At(w'.mem, f, i) == At(w.mem, f, i)
  }

  lemma UpperKeeps(w: World, w': World)
    requires UpperSame(w, w') && w'.tags == w.tags
    ensures LinksKept(w, w') && (OpenTables(w) ==> OpenTables(w'))
  {
  }

  lemma UnmappedNone(w: World, pages: Tags, kroot: Frame, cap: nat, root: Frame)
    requires Sound(w, kroot) && Owned(w, kroot, pages, cap)
    ensures Unmapped(w, pages, w, pages, kroot, root, {})
  {
    assert Backing(Flat(w.mem, root), {}) == {};
  }

  /** Pages already gone are unmapped; the others still have their original leaf. */
  lemma UnmappedLeaf(w0: World, pages0: Tags, w: World, pages: Tags, kroot: Frame, root: Frame, gone: set<nat>, v: nat)
    requires Unmapped(w0, pages0, w, pages, kroot, root, gone) && v < VPN_LIMIT && Walk(w0.mem, root, v).Present?
    ensures Walk(w.mem, root, v) == if v in gone then Absent else Walk(w0.mem, root, v)
  {
    hide Walk, Kept;
    var flat := Flat(w.mem, root);
    assert v in Flat(w0.mem, root);
    assert v in flat <==> Walk(w.mem, root, v).Present?;
  }

  /** One more page. */
  lemma UnmapAccounted(w: World, pages: Tags, t: Frame, v: nat, frame: Frame)
    requires IsTable(w.mem, t) && frame in pages
    ensures Accounted(UnmappedWorld(w, t, v, frame), pages - {frame}) == Accounted(w, pages)
  {
  }

  lemma UnmappedMore(w0: World, pages0: Tags, w: World, pages: Tags, kroot: Frame, cap: nat, root: Frame,
                     gone: set<nat>, v: nat, t: Frame)
    requires Unmapped(w0, pages0, w, pages, kroot, root, gone) && v !in gone
    requires Sound(w, kroot) && Owned(w, kroot, pages, cap) && SupervisorKernel(w, kroot)
    requires IsRoot(w.tags, root) && v < VPN_LIMIT && TableOf(w.mem, root, v, 3) == Some(t) && t in w.tags
    requires IsTable(w.mem, t) && UserLeaf(Walk(w.mem, root, v), false)
    ensures var frame := Walk(w.mem, root, v).frame;
            Unmapped(w0, pages0, UnmappedWorld(w, t, v, frame), pages - {frame}, kroot, root, gone + {v})
  {
    hide Sound, Owned, SupervisorKernel, Kept, Walk, TableOf, Flat, Backing, IsTable, UpperSame, Accounted;
    var frame := Walk(w.mem, root, v).frame;
    var w' := UnmappedWorld(w, t, v, frame);
    var flat0 := Flat(w0.mem, root);
    UnmapUserPage(w, pages, kroot, cap, root, v, t);
    LeafWorldFlat(w, kroot, root, v, t, Absent);
    UnmappedOthers(w, pages, kroot, cap, root, v, t);
    KeptTrans(w0, pages0, w, pages, w', pages - {frame}, {root});
    InFlat(w.mem, root, v);
    BackingMore(flat0, gone, v);
    UnmapAccounted(w, pages, t, v, frame);
    assert flat0 - gone - {v} == flat0 - (gone + {v});
    UnmappedLinks(w0, w, t, v, frame);
    forall r, u | IsRoot(w0.tags, r) && r != root && 0 <= u < VPN_LIMIT
        ensures Walk(w'.mem, r, u) == Walk(w0.mem, r, u) {
      assert Walk(w'.mem, r, u) == Walk(w.mem, r, u);
    }
  }

  lemma UnmappedLinks(w0: World, w: World, t: Frame, v: nat, frame: Frame)
    requires UpperSame(w0, w) && w0.tags == w.tags && t in w.tags && w.tags[t].level == 3 && IsTable(w.mem, t)
    ensures UpperSame(w0, UnmappedWorld(w, t, v, frame))
  {
  }

  lemma UnmappedOthers(w: World, pages: Tags, kroot: Frame, cap: nat, root: Frame, v: nat, t: Frame)
    requires Sound(w, kroot) && Owned(w, kroot, pages, cap) && SupervisorKernel(w, kroot)
    requires IsRoot(w.tags, root) && v < VPN_LIMIT && TableOf(w.mem, root, v, 3) == Some(t) && t in w.tags
    requires IsTable(w.mem, t) && UserLeaf(Walk(w.mem, root, v), false)
    ensures forall r, u :: IsRoot(w.tags, r) && r != root && 0 <= u < VPN_LIMIT ==>
              Walk(SetEntry(w.mem, t, Index(v, 3), Absent), r, u) == Walk(w.mem, r, u)
  {
    hide Walk, Kept;
    LeafWorldWalks(w, kroot, root, v, t, Absent);
    UnmapUserPage(w, pages, kroot, cap, root, v, t);
    UserPathPrivate(w, pages, kroot, cap, root, v, t);
  }

  /** A user page lies in tables private to its address space. */
  lemma UserPathPrivate(w: World, pages: Tags, kroot: Frame, cap: nat, root: Frame, v: nat, t: Frame)
    requires Sound(w, kroot) && SupervisorKernel(w, kroot)
    requires IsRoot(w.tags, root) && v < VPN_LIMIT && TableOf(w.mem, root, v, 3) == Some(t) && t in w.tags
    requires UserLeaf(Walk(w.mem, root, v), false)
    ensures PathSpace(w, root, v) == root != kroot
  {
    PathTag(w.mem, kroot, w.tags, root, v, 3);
    PathSpaceFixed(w.mem, kroot, w.tags, root, v, 3);
  }

  lemma InFlat(mem: Memory, root: Frame, v: nat)
    requires v < VPN_LIMIT
    ensures v in Flat(mem, root) <==> Walk(mem, root, v).Present?
    ensures v in Flat(mem, root) ==> Flat(mem, root)[v] == Walk(mem, root, v)
  {
  }

  lemma BackingMore(flat: map<nat, Entry>, vs: set<nat>, v: nat)
    requires v in flat && flat[v].Present?
    ensures Backing(flat, vs + {v}) == Backing(flat, vs) + {flat[v].frame}
  {
  }

  /** Releases a page-aligned range of the caller's own memory. */
  method SysMunmap(m: Machine, root: Frame, isRing3: bool, ptr: nat, len: nat) returns (code: nat)
    requires SpacesValid(m) && SupervisorKernel(m.W(), m.kroot) && IsRoot(m.tags, root)
    requires ptr < ADDRESS_LIMIT && len < ADDRESS_LIMIT
    modifies m`mem, m`pages, m.pmm.bitmap
    ensures SpacesValid(m) && SupervisorKernel(m.W(), m.kroot)
    ensures code == if ptr % PAGE_SIZE == 0 && len != 0 && len % PAGE_SIZE == 0 && isRing3
                       && old(UserRange(m.mem, root, ptr, len, false)) then 0 else SYSCALL_ERROR
    ensures code == 0 || code == ADDRESS_LIMIT - 1
    ensures code != 0 ==> m.W() == old(m.W()) && m.pages == old(m.pages)
    ensures code == 0 ==> Unmapped(old(m.W()), old(m.pages), m.W(), m.pages, m.kroot, root,
                                   RangePages(ptr, len / PAGE_SIZE))
  {
    hide Sound, Owned, SupervisorKernel, Unmapped, Walk, TableOf, Vpn, Flat;
    if ptr % PAGE_SIZE != 0 || len == 0 || len % PAGE_SIZE != 0 {
      return SYSCALL_ERROR;
    }
    if !isRing3 {
      return SYSCALL_ERROR;
    }
    var ok := ValidateUserRange(m, root, ptr, len, false);
    if !ok {
      return SYSCALL_ERROR;
    }
    ghost var w0, pages0 := m.W(), m.pages;
    UnmappedNone(w0, pages0, m.kroot, m.pmm.Capacity(), root);
    var end := ptr + len;
    var addr := ptr;
    ghost var k := 0;
    assert RangePages(ptr, 0) == {};
    while addr < end
      invariant addr == ptr + k * PAGE_SIZE && k <= len / PAGE_SIZE
      invariant SpacesValid(m) && SupervisorKernel(m.W(), m.kroot) && m.tags == w0.tags
      invariant Unmapped(w0, pages0, m.W(), m.pages, m.kroot, root, RangePages(ptr, k))
    {
      assert UserByte(w0.mem, root, addr, false);
      MunmapOne(m, root, addr, w0, pages0, RangePages(ptr, k));
      assert RangePages(ptr, k + 1) == RangePages(ptr, k) + {PageOf(ptr, k)};
      addr := addr + 0x1000;
      k := k + 1;
    }
    code := 0;
  }

  lemma TranslatedFrame(mem: Memory, root: Frame, addr: nat)
    ensures Translate(mem, root, addr).Some? <==> Walk(mem, root, Vpn(addr)).Present?
    ensures Translate(mem, root, addr).Some? ==>
            Translate(mem, root, addr).value / PAGE_SIZE == Walk(mem, root, Vpn(addr)).frame
  {
    hide Walk, Vpn;
  }

  /** The body of the unmap loop for one page: translate, clear, free. */
  method MunmapOne(m: Machine, root: Frame, addr: nat, ghost w0: World, ghost pages0: Tags, ghost gone: set<nat>)
    requires SpacesValid(m) && SupervisorKernel(m.W(), m.kroot) && IsRoot(m.tags, root)
    requires addr % PAGE_SIZE == 0 && UserByte(w0.mem, root, addr, false)
    requires Unmapped(w0, pages0, m.W(), m.pages, m.kroot, root, gone)
    modifies m`mem, m`pages, m.pmm.bitmap
    ensures SpacesValid(m) && SupervisorKernel(m.W(), m.kroot) && m.tags == old(m.tags)
    ensures Unmapped(w0, pages0, m.W(), m.pages, m.kroot, root, gone + {Vpn(addr)})
  {
    hide Sound, Owned, SupervisorKernel, Unmapped, Walk, TableOf, Vpn, Flat, OthersUntouched, UnmappedWorld, LeafWorld,
         IsTable, Kept, Translate;
    ghost var w, v := m.W(), Vpn(addr);
    UnmappedLeaf(w0, pages0, w, m.pages, m.kroot, root, gone, v);
    var phys := m.TranslateAddr(root, addr);
    TranslatedFrame(m.mem, root, addr);
    if phys.Some? {
      var r, t := m.UnmapPage(root, addr);
      assert r.Ok?;
      var frame := phys.value / PAGE_SIZE;
      UnmapUserPage(w, m.pages, m.kroot, m.pmm.Capacity(), root, v, t);
      UnmappedMore(w0, pages0, w, m.pages, m.kroot, m.pmm.Capacity(), root, gone, v, t);
      m.pmm.FreeFrame(phys.value / PAGE_SIZE);
      m.pages := m.pages - {frame};
      UnmappedWorldIs(w, t, v, frame);
    } else {
      assert gone + {v} == gone;
    }
  }

  lemma UnmappedWorldIs(w: World, t: Frame, v: nat, frame: Frame)
    requires IsTable(w.mem, t)
    ensures UnmappedWorld(w, t, v, frame) == World(LeafWorld(w, t, v, Absent).mem, w.tags, w.free + {frame})
  {
  }
}
