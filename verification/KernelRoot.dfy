/** The AArch64 kernel root: identity maps of low memory and devices, all below 2^39. */
module KernelRoot {
  import opened Basics
  import opened PageTables
  import opened Worlds
  import opened Vmm
  import opened Spaces
  import opened UserMemory
  import opened SlotZero
  import opened Pmm

  const KERNEL_IDENTITY_MAP_SIZE: nat := 32 * 1024 * 1024
  const LOCAL_BASE: nat := 0x4000_0000
  const GPIO_BASE: nat := 0x3F20_0000
  const UART0_BASE: nat := 0x3F20_1000
  const FB_ADDR: nat := 0xFD00_0000
  const FB_SIZE: nat := 4096 * 768

  /** A root that owns all tables, uses slot 0 only, keeps user code out and maps pages to themselves. */
  ghost predicate KernelShape(w: World, k: Frame) {
    && Sound(w, k) && IsRoot(w.tags, k)
    && (forall f :: f in w.tags ==> w.tags[f].space == k)
    && (forall i :: 1 <= i < ENTRIES ==> At(w.mem, k, i).Absent?)
    && SupervisorKernel(w, k) && OpenTables(w)
    && (forall v :: v in Flat(w.mem, k) ==> Flat(w.mem, k)[v].frame == v)
  }

  /** Enough free frames to build any path. */
  ghost predicate Plenty(free: set<Frame>) {
    |free| >= 3
  }

  /** Enough for a root and a path. */
  ghost predicate RootAndPath(free: set<Frame>) {
    |free| >= 4
  }

  lemma PlentyBefore(a: set<Frame>, b: set<Frame>)
    requires a <= b
    ensures Plenty(a) ==> Plenty(b)
  {
    SmallerSet(a, b);
  }

  /** Free frames and tables are together the frames `all`. */
  ghost predicate Stock(w: World, all: set<Frame>) {
    w.free + w.tags.Keys == all
  }

  lemma ShapeGrown(w: World, w': World, k: Frame, v: nat)
    requires KernelShape(w, k) && v < VPN_LIMIT && Index(v, 0) == 0
    requires Grows(w, w', {k, PathSpace(w, k, v)}) && Sound(w', k) && OtherSlotsKept(w, w', k, v) && OpenTables(w')
    ensures KernelShape(w', k)
  {
    hide Walk, OpenTables;
    GrowsFlat(w, w', {k, PathSpace(w, k, v)}, k);
    ShapeSpaces(w, w', k, v);
    GrownRoot(w, w', k, {k, PathSpace(w, k, v)});
    forall i | 1 <= i < ENTRIES ensures At(w'.mem, k, i).Absent? {
      assert At(w'.mem, k, i) == At(w.mem, k, i);
    }
  }

  lemma ShapeSpaces(w: World, w': World, k: Frame, v: nat)
    requires KernelShape(w, k) && Grows(w, w', {k, PathSpace(w, k, v)})
    ensures forall f :: f in w'.tags ==> w'.tags[f].space == k
    ensures SupervisorKernel(w', k)
  {
    assert PathSpace(w, k, v) == k;
    forall t, i | t in w'.tags && w'.tags[t].level == 3 && w'.tags[t].space == k
        ensures !UserLeaf(At(w'.mem, t, i), false) {
      if t in w.tags {
        assert !UserLeaf(At(w.mem, t, i), false);
        assert IsTable(w.mem, t);
      }
    }
  }

  lemma ShapeLeaf(w: World, k: Frame, v: nat, t: Frame, leaf: Entry)
    requires KernelShape(w, k) && v < VPN_LIMIT && t in w.tags && w.tags[t].level == 3 &&
             TableOf(w.mem, k, v, 3) == Some(t)
    requires leaf.Present? && leaf.frame == v && !leaf.flags.userAccessible
    ensures IsTable(w.mem, t) && KernelShape(LeafWorld(w, t, v, leaf), k)
  {
    hide Walk, TableOf;
    LeafWorldWalks(w, k, k, v, t, leaf);
    LeafWorldFlat(w, k, k, v, t, leaf);
    var w' := LeafWorld(w, t, v, leaf);
    forall s, i | s in w'.tags && w'.tags[s].level == 3 && w'.tags[s].space == k
        ensures !UserLeaf(At(w'.mem, s, i), false) {
      assert !UserLeaf(At(w.mem, s, i), false);
    }
  }

  /** Old pages keep their leaves, new ones have these flags. */
  ghost predicate AddedAs(flat: map<nat, Entry>, flat': map<nat, Entry>, flags: MapFlags) {
    forall v :: v in flat' ==> if v in flat then flat'[v] == flat[v] else flat'[v].Present? && flat'[v].flags == flags
  }

  lemma AddedTwice(a: map<nat, Entry>, b: map<nat, Entry>, c: map<nat, Entry>, flags: MapFlags)
    requires AddedAs(a, b, flags) && AddedAs(b, c, flags) && a.Keys <= b.Keys
    ensures AddedAs(a, c, flags)
  {
  }

  /** Maps one page to itself; an existing mapping and a lack of frames are both ignored. */
  method IdentityMapPage(m: Machine, addr: nat, flags: MapFlags, ghost all: set<Frame>)
    requires m.Valid() && KernelShape(m.W(), m.kroot) && Stock(m.W(), all)
    requires addr % PAGE_SIZE == 0 && addr < USER_SPACE_BASE && !flags.userAccessible
    modifies m`mem, m`tags, m.pmm.bitmap
    ensures m.Valid() && KernelShape(m.W(), m.kroot)
    ensures Flat(m.mem, m.kroot).Keys <= old(Flat(m.mem, m.kroot)).Keys + {addr / PAGE_SIZE}
    ensures old(Flat(m.mem, m.kroot)).Keys <= Flat(m.mem, m.kroot).Keys
    ensures Plenty(old(m.pmm.FreeSet())) ==> addr / PAGE_SIZE in Flat(m.mem, m.kroot)
    ensures AddedAs(old(Flat(m.mem, m.kroot)), Flat(m.mem, m.kroot), flags)
    ensures m.pmm.FreeSet() <= old(m.pmm.FreeSet())
    ensures Stock(m.W(), all)
  {
    hide KernelShape, Sound, OthersUntouched, Walk, TableOf, OtherSlotsKept, Stock, PathEdited, OpenTables, RightsGiven;
    ghost var w, k, v := m.W(), m.kroot, Vpn(addr);
    LowAddress(m.arch, addr, flags);
    ShapeRoot(w, k);
    var r, mid, t := m.MapPage(m.kroot, addr, addr, flags);
    GrowsFree(w, mid, {k, PathSpace(w, k, v)}, all);
    EditedAfterMap(w, m.W(), k, v, r, false);
    OpenKept(w, m.W(), k, v);
    if r.Err? {
      ShapeGrown(w, mid, k, v);
      AlreadyInFlat(w, k, v);
    } else {
      MidSlots(w, mid, k, v, t, LeafFor(m.arch, addr, flags));
      LeafLevel(mid, k, k, v, t);
      MidOpen(mid, v, t, LeafFor(m.arch, addr, flags));
      ShapeGrown(w, mid, k, v);
      ShapeLeaf(mid, k, v, t, LeafFor(m.arch, addr, flags));
      SameStock(mid, m.W(), all);
    }
  }

  lemma MidOpen(mid: World, v: nat, t: Frame, leaf: Entry)
    requires t in mid.tags && mid.tags[t].level == 3 && IsTable(mid.mem, t) && OpenTables(LeafWorld(mid, t, v, leaf))
    ensures OpenTables(mid)
  {
    forall f, i | f in mid.tags && mid.tags[f].level < 3 && At(mid.mem, f, i).Present?
      ensures Open(At(mid.mem, f, i).flags)
    {
      assert At(LeafWorld(mid, t, v, leaf).mem, f, i) == At(mid.mem, f, i);
    }
  }

  lemma SameStock(w: World, w': World, all: set<Frame>)
    requires Stock(w, all) && w'.free == w.free && w'.tags == w.tags
    ensures Stock(w', all)
  {
  }

  lemma LowAddress(arch: Arch, addr: nat, flags: MapFlags)
    requires addr < USER_SPACE_BASE
    ensures Vpn(addr) == addr / PAGE_SIZE && Index(Vpn(addr), 0) == 0
    ensures LeafFor(arch, addr, flags) == Present(addr / PAGE_SIZE, flags)
  {
    hide Index;
    IndexIsShiftAndMask(addr);
    LowDivision(addr);
  }

  lemma LowDivision(addr: nat)
    requires addr < USER_SPACE_BASE
    ensures addr / PAGE_SIZE < VPN_LIMIT && addr / 0x80_0000_0000 % 512 == 0
    ensures forall arch :: addr / PAGE_SIZE < FrameLimit(arch)
  {
  }

  lemma ShapeRoot(w: World, k: Frame)
    requires KernelShape(w, k)
    ensures IsRoot(w.tags, k) && Sound(w, k) && OpenTables(w)
  {
  }

  lemma GrowsFree(w: World, w': World, spaces: set<Frame>, all: set<Frame>)
    requires Grows(w, w', spaces) && Stock(w, all)
    ensures w'.free <= w.free && Stock(w', all)
  {
  }

  lemma AlreadyInFlat(w: World, k: Frame, v: nat)
    requires v < VPN_LIMIT
    ensures Walk(w.mem, k, v).Present? ==> v in Flat(w.mem, k)
    ensures Missing(w.mem, k, v) <= 3
  {
  }

  lemma MidSlots(w: World, mid: World, k: Frame, v: nat, t: Frame, leaf: Entry)
    requires Sound(mid, k) && t in mid.tags && IsRoot(mid.tags, k) && IsTable(mid.mem, t) &&
             TableOf(mid.mem, k, v, 3) == Some(t) && v < VPN_LIMIT
    requires OtherSlotsKept(w, LeafWorld(mid, t, v, leaf), k, v) && forall r :: IsRoot(w.tags, r) ==>
             IsRoot(mid.tags, r)
    ensures OtherSlotsKept(w, mid, k, v)
  {
    PathTag(mid.mem, k, mid.tags, k, v, 3);
    forall r, i | IsRoot(w.tags, r) && (r != k || i != Index(v, 0)) ensures At(mid.mem, r, i) == At(w.mem, r, i) {
      assert At(LeafWorld(mid, t, v, leaf).mem, r, i) == At(w.mem, r, i);
      assert IsRoot(mid.tags, r);
    }
  }

  /** The pages of `size` bytes from `base`. */
  ghost function PagesOf(base: nat, size: nat): set<nat> {
    Frames(base / PAGE_SIZE, base / PAGE_SIZE + (size + PAGE_SIZE - 1) / PAGE_SIZE)
  }

  method IdentityMapRange(m: Machine, base: nat, size: nat, flags: MapFlags, ghost all: set<Frame>)
    requires m.Valid() && KernelShape(m.W(), m.kroot) && Stock(m.W(), all)
    requires base % PAGE_SIZE == 0 && base + size + PAGE_SIZE <= USER_SPACE_BASE && !flags.userAccessible
    modifies m`mem, m`tags, m.pmm.bitmap
    ensures m.Valid() && KernelShape(m.W(), m.kroot)
    ensures Flat(m.mem, m.kroot).Keys <= old(Flat(m.mem, m.kroot)).Keys + PagesOf(base, size)
    ensures Plenty(m.pmm.FreeSet()) ==>
            Flat(m.mem, m.kroot).Keys == old(Flat(m.mem, m.kroot)).Keys + PagesOf(base, size)
    ensures old(Flat(m.mem, m.kroot)).Keys <= Flat(m.mem, m.kroot).Keys
    ensures size > 0 && Plenty(old(m.pmm.FreeSet())) ==> base / PAGE_SIZE in Flat(m.mem, m.kroot).Keys
    ensures AddedAs(old(Flat(m.mem, m.kroot)), Flat(m.mem, m.kroot), flags)
    ensures m.pmm.FreeSet() <= old(m.pmm.FreeSet())
    ensures Stock(m.W(), all)
  {
    hide KernelShape, Sound, Flat, Frames, Stock, Plenty, AddedAs;
    AddedNone(Flat(m.mem, m.kroot), flags);
    NoFrames(base / PAGE_SIZE);
    var pages := (size + PAGE_SIZE - 1) / PAGE_SIZE;
    ghost var flat, keys, first := Flat(m.mem, m.kroot), Flat(m.mem, m.kroot).Keys, base / PAGE_SIZE;
    for i := 0 to pages
      invariant m.Valid() && KernelShape(m.W(), m.kroot)
      invariant Flat(m.mem, m.kroot).Keys <= keys + Frames(first, first + i)
      invariant Plenty(m.pmm.FreeSet()) ==> Flat(m.mem, m.kroot).Keys == keys + Frames(first, first + i)
      invariant keys <= Flat(m.mem, m.kroot).Keys && AddedAs(flat, Flat(m.mem, m.kroot), flags)
      invariant i > 0 && Plenty(old(m.pmm.FreeSet())) ==> first in Flat(m.mem, m.kroot).Keys
      invariant m.pmm.FreeSet() <= old(m.pmm.FreeSet()) && (i == 0 ==> m.pmm.FreeSet() == old(m.pmm.FreeSet()))
      invariant Stock(m.W(), all)
    {
      var addr := base + i * PAGE_SIZE;
      RangePage(base, i);
      ghost var free, before := m.pmm.FreeSet(), Flat(m.mem, m.kroot);
      IdentityMapPage(m, addr, flags, all);
      AddedTwice(flat, before, Flat(m.mem, m.kroot), flags);
      PlentyBefore(m.pmm.FreeSet(), free);
    }
  }

  lemma AddedNone(flat: map<nat, Entry>, flags: MapFlags)
    ensures AddedAs(flat, flat, flags)
  {
  }

  lemma NoFrames(first: nat)
    ensures Frames(first, first) == {}
  {
  }

  lemma RangePage(base: nat, i: nat)
    requires base % PAGE_SIZE == 0
    ensures var first := base / PAGE_SIZE;
            && (base + i * PAGE_SIZE) / PAGE_SIZE == first + i && (base + i * PAGE_SIZE) % PAGE_SIZE == 0
            && Frames(first, first + i + 1) == Frames(first, first + i) + {first + i}
  {
    var first := base / PAGE_SIZE;
    assert base == first * PAGE_SIZE;
    assert Within(first + i, first, first + i + 1);
  }

  lemma SmallerSet(a: set<Frame>, b: set<Frame>)
    requires a <= b
    ensures |a| <= |b|
  {
    if a != {} {
      var x :| x in a;
      SmallerSet(a - {x}, b - {x});
    }
  }

  ghost function KernelPages(): set<nat> {
    PagesOf(0, KERNEL_IDENTITY_MAP_SIZE) + PagesOf(LOCAL_BASE, PAGE_SIZE) + PagesOf(GPIO_BASE, PAGE_SIZE)
    + PagesOf(UART0_BASE, PAGE_SIZE) + PagesOf(FB_ADDR, FB_SIZE)
  }

  /** The five ranges, byte by byte: the first 32 MiB, the local controller, the GPIO and UART registers
      and the framebuffer. */
  predicate KernelByte(b: nat) {
    || b < 0x200_0000
    || 0x4000_0000 <= b < 0x4000_1000
    || 0x3F20_0000 <= b < 0x3F20_2000
    || 0xFD00_0000 <= b < 0xFD30_0000
  }

  lemma KernelPagesAre(b: nat)
    ensures b / PAGE_SIZE in KernelPages() <==> KernelByte(b)
  {
    hide Frames;
    var v := b / PAGE_SIZE;
    InPages(v, 0, KERNEL_IDENTITY_MAP_SIZE);
    InPages(v, LOCAL_BASE, PAGE_SIZE);
    InPages(v, GPIO_BASE, PAGE_SIZE);
    InPages(v, UART0_BASE, PAGE_SIZE);
    InPages(v, FB_ADDR, FB_SIZE);
  }

  lemma InPages(v: nat, base: nat, size: nat)
    ensures v in PagesOf(base, size) <==>
            base / PAGE_SIZE <= v < base / PAGE_SIZE + (size + PAGE_SIZE - 1) / PAGE_SIZE
  {
    assert Within(v, base / PAGE_SIZE, base / PAGE_SIZE + (size + PAGE_SIZE - 1) / PAGE_SIZE) <==>
           base / PAGE_SIZE <= v < base / PAGE_SIZE + (size + PAGE_SIZE - 1) / PAGE_SIZE;
  }

  /** All of it is writable; memory is executable and cached, devices are neither. */
  ghost predicate KernelFlags(flat: map<nat, Entry>) {
    forall v :: v in flat ==>
      && flat[v].Present? && flat[v].flags.writable && !flat[v].flags.userAccessible
      && flat[v].flags.executeDisable == flat[v].flags.device == (v * PAGE_SIZE >= KERNEL_IDENTITY_MAP_SIZE)
  }

  lemma MoreDevices(flat: map<nat, Entry>, flat': map<nat, Entry>, base: nat, size: nat, flags: MapFlags)
    requires KernelFlags(flat) && AddedAs(flat, flat', flags) && flat'.Keys <= flat.Keys + PagesOf(base, size)
    requires base % PAGE_SIZE == 0 && base >= KERNEL_IDENTITY_MAP_SIZE
    requires flags.writable && !flags.userAccessible && flags.executeDisable && flags.device
    ensures KernelFlags(flat')
  {
    hide Frames, PagesOf;
    forall v | v in flat' && v !in flat ensures v * PAGE_SIZE >= KERNEL_IDENTITY_MAP_SIZE {
      InPages(v, base, size);
    }
  }

  lemma MemoryFlags(flat: map<nat, Entry>, flags: MapFlags)
    requires AddedAs(map[], flat, flags) && flat.Keys <= PagesOf(0, KERNEL_IDENTITY_MAP_SIZE)
    requires flags.writable && !flags.userAccessible && !flags.executeDisable && !flags.device
    ensures KernelFlags(flat)
  {
    hide Frames, PagesOf;
    forall v | v in flat ensures v * PAGE_SIZE < KERNEL_IDENTITY_MAP_SIZE {
      InPages(v, 0, KERNEL_IDENTITY_MAP_SIZE);
    }
  }

  /** The five ranges of the boot-time map. */
  method MapKernelRanges(m: Machine, ghost all: set<Frame>)
    requires m.Valid() && KernelShape(m.W(), m.kroot) && Stock(m.W(), all) && Flat(m.mem, m.kroot) == map[]
    modifies m`mem, m`tags, m.pmm.bitmap
    ensures m.Valid() && KernelShape(m.W(), m.kroot)
    ensures Flat(m.mem, m.kroot).Keys <= KernelPages()
    ensures Plenty(m.pmm.FreeSet()) ==> Flat(m.mem, m.kroot).Keys == KernelPages()
    ensures Plenty(old(m.pmm.FreeSet())) ==> 0 in Flat(m.mem, m.kroot).Keys
    ensures KernelFlags(Flat(m.mem, m.kroot))
    ensures Stock(m.W(), all)
  {
    hide KernelShape, Sound, Flat, PagesOf, Stock, Plenty, AddedAs, KernelFlags;
    assert Flat(m.mem, m.kroot).Keys == {};
    var normal := MapFlags(true, false, false, false);
    var device := MapFlags(true, false, true, true);
    IdentityMapRange(m, 0, KERNEL_IDENTITY_MAP_SIZE, normal, all);
    ghost var f1, flat1 := m.pmm.FreeSet(), Flat(m.mem, m.kroot);
    MemoryFlags(flat1, normal);
    IdentityMapRange(m, LOCAL_BASE, PAGE_SIZE, device, all);
    ghost var f2, flat2 := m.pmm.FreeSet(), Flat(m.mem, m.kroot);
    MoreDevices(flat1, flat2, LOCAL_BASE, PAGE_SIZE, device);
    IdentityMapRange(m, GPIO_BASE, PAGE_SIZE, device, all);
    ghost var f3, flat3 := m.pmm.FreeSet(), Flat(m.mem, m.kroot);
    MoreDevices(flat2, flat3, GPIO_BASE, PAGE_SIZE, device);
    IdentityMapRange(m, UART0_BASE, PAGE_SIZE, device, all);
    ghost var f4, flat4 := m.pmm.FreeSet(), Flat(m.mem, m.kroot);
    MoreDevices(flat3, flat4, UART0_BASE, PAGE_SIZE, device);
    IdentityMapRange(m, FB_ADDR, FB_SIZE, device, all);
    MoreDevices(flat4, Flat(m.mem, m.kroot), FB_ADDR, FB_SIZE, device);
    PlentyBefore(m.pmm.FreeSet(), f4);
    PlentyBefore(m.pmm.FreeSet(), f3);
    PlentyBefore(m.pmm.FreeSet(), f2);
    PlentyBefore(m.pmm.FreeSet(), f1);
  }

  /** Takes a frame for the root and clears it. The root is recorded at once; the mapping loops do not
      read the record. */
  method TakeRoot(m: Machine) returns (ok: bool)
    requires m.Valid() && m.tags == map[]
    modifies m`mem, m`tags, m`kroot, m.pmm.bitmap
    ensures ok <==> old(m.pmm.FreeSet()) != {}
    ensures ok ==> m.Valid() && KernelShape(m.W(), m.kroot) && m.kroot != 0 && Flat(m.mem, m.kroot) == map[]
    ensures ok ==> Stock(m.W(), old(m.pmm.FreeSet()))
    ensures ok && RootAndPath(old(m.pmm.FreeSet())) ==> Plenty(m.pmm.FreeSet())
  {
    hide KernelShape, Sound, Flat, Stock, Plenty, RootAndPath;
    ghost var all := m.pmm.FreeSet();
    var frame := m.AllocFrame();
    if frame.None? {
      return false;
    }
    var root := frame.value;
    m.mem := m.mem[root := EmptyTable()];
    m.kroot := root;
    m.tags := map[root := Tag(root, 0, 0, root)];
    EmptyShape(m.W(), root);
    RootTaken(all, m.W(), root);
    ok := true;
  }

  /** Builds the kernel root. */
  method InitKernelRoot(m: Machine) returns (ok: bool)
    requires m.Valid() && m.tags == map[] && m.pages == map[]
    modifies m`mem, m`tags, m`kroot, m`active, m.pmm.bitmap
    ensures ok <==> old(m.pmm.FreeSet()) != {}
    ensures ok ==> SpacesValid(m) && KernelShape(m.W(), m.kroot) && m.active == m.kroot && m.kroot != 0
    ensures ok ==> Flat(m.mem, m.kroot).Keys <= KernelPages() && KernelFlags(Flat(m.mem, m.kroot))
    ensures ok && Plenty(m.pmm.FreeSet()) ==> Flat(m.mem, m.kroot).Keys == KernelPages()
    ensures ok && RootAndPath(old(m.pmm.FreeSet())) ==> OnlySlotZero(m.W(), m.kroot)
    ensures ok ==> Stock(m.W(), old(m.pmm.FreeSet()))
  {
    hide KernelShape, Sound, Flat, KernelPages, Owned, OnlySlotZero, Stock, Plenty, RootAndPath, KernelFlags;
    ghost var all := m.pmm.FreeSet();
    ok := TakeRoot(m);
    if ok {
      MapKernelRanges(m, all);
      m.active := m.kroot;
      ShapeOwned(m.W(), m.kroot, m.pmm.Capacity());
      ShapeSlotZero(m.W(), m.kroot);
    }
  }

  lemma RootTaken(free: set<Frame>, w: World, root: Frame)
    requires root in free && w.free == free - {root} && w.tags == map[root := Tag(root, 0, 0, root)]
    ensures (RootAndPath(free) ==> Plenty(w.free)) && Stock(w, free)
  {
  }

  lemma EmptyShape(w: World, k: Frame)
    requires w.tags == map[k := Tag(k, 0, 0, k)] && k !in w.free && k in w.mem && w.mem[k] == EmptyTable()
    ensures KernelShape(w, k) && Sound(w, k) && Flat(w.mem, k) == map[]
  {
    forall f, i | f in w.tags && w.tags[f].level < 3 && 0 <= i < ENTRIES ensures ForwardAt(w.mem, k, w.tags, f, i) {
      assert f == k;
    }
    forall c | c in w.tags ensures BackwardAt(w.mem, w.tags, c) {
      assert c == k;
    }
    forall v | 0 <= v < VPN_LIMIT ensures Walk(w.mem, k, v).Absent? {
      WalkUnfolds(w.mem, k, v);
    }
  }

  lemma ShapeOwned(w: World, k: Frame, cap: nat)
    requires KernelShape(w, k) && forall f :: f in w.free ==> 0 < f < cap
    ensures Owned(w, k, map[], cap)
  {
  }

  lemma ShapeSlotZero(w: World, k: Frame)
    requires KernelShape(w, k)
    ensures 0 in Flat(w.mem, k).Keys ==> OnlySlotZero(w, k)
  {
    WalkUnfolds(w.mem, k, 0);
    assert Index(0, 0) == 0 by {
      IndexIsShiftAndMask(0);
    }
  }
}
