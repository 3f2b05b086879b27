/** The page-table editor: physical memory and the frame allocator, changed in place. */
module Vmm {
  import opened Basics
  import opened PageTables
  import opened Worlds
  import Pmm

  datatype MemoryError = FrameAllocationFailed | AlreadyMapped | InvalidAddress

  datatype Result = Ok | Err(error: MemoryError)

  datatype Arch = X86_64 | AArch64

  /** Frame numbers an entry can hold: address bits 12..51 on x86_64, 12..47 on AArch64. */
  function FrameLimit(arch: Arch): nat {
    if arch.X86_64? then 0x100_0000_0000 else 0x10_0000_0000
  }

  function LeafFor(arch: Arch, phys: nat, flags: MapFlags): Entry {
    Present(phys / PAGE_SIZE % FrameLimit(arch), flags)
  }

  lemma LeafForFrame(arch: Arch, frame: Frame, flags: MapFlags)
    requires frame < FrameLimit(arch)
    ensures LeafFor(arch, frame * PAGE_SIZE, flags) == Present(frame, flags)
  {
  }

  /** A leaf keeps the flags, and of the address the bits from 12 up to 51 on x86_64 and 47 on AArch64. */
  lemma LeafAddress(arch: Arch, phys: nat, flags: MapFlags)
    requires phys % 4096 == 0
    ensures var e := LeafFor(arch, phys, flags);
            && e.Present? && e.flags == flags
            && e.frame * 4096 == phys % (if arch == X86_64 then 0x10_0000_0000_0000 else 0x1_0000_0000_0000)
  {
    var n := FrameLimit(arch);
    var f := phys / 4096;
    assert phys == f * 4096 && f == f / n * n + f % n;
    assert phys == f / n * (n * 4096) + f % n * 4096;
  }

  /** How many tables the path to `v` lacks. */
  function Missing(mem: Memory, root: Frame, v: nat): nat {
    if TableOf(mem, root, v, 1).None? then 3
    else if TableOf(mem, root, v, 2).None? then 2
    else if TableOf(mem, root, v, 3).None? then 1
    else 0
  }

  /** `c` is where entry `i` of `f` leads, or a free frame if it leads nowhere yet. */
  ghost predicate NextCandidate(w: World, f: Frame, i: nat, c: Frame) {
    && f in w.tags && w.tags[f].level < 3 && IsTable(w.mem, f) && i < ENTRIES
    && (if At(w.mem, f, i).Absent? then c in w.free && c !in w.tags else At(w.mem, f, i).frame == c)
  }

  ghost function NextWorld(w: World, f: Frame, i: nat, grant: bool, c: Frame): World
    requires NextCandidate(w, f, i, c)
  {
    if At(w.mem, f, i).Absent? then LinkedWorld(w, f, i, c)
    else if grant then GrantedWorld(w, f, i)
    else w
  }

  lemma NextWorldGrows(w: World, kroot: Frame, f: Frame, i: nat, grant: bool, c: Frame)
    requires Sound(w, kroot) && NextCandidate(w, f, i, c)
    ensures Sound(NextWorld(w, f, i, grant, c), kroot)
    ensures Grows(w, NextWorld(w, f, i, grant, c), {w.tags[f].space})
  {
    if At(w.mem, f, i).Absent? {
      LinkGrows(w, kroot, f, i, c);
    } else if grant {
      GrantGrows(w, kroot, f, i);
    } else {
      GrowsRefl(w, {w.tags[f].space});
    }
  }

  /** The space whose tables serve `v` below the root. */
  ghost function PathSpace(w: World, root: Frame, v: nat): Frame {
    var e := At(w.mem, root, Index(v, 0));
    if e.Present? && e.frame in w.tags then w.tags[e.frame].space else root
  }

  /** One step of the table builder extends the path to `v` by one level. */
  lemma Descend(w: World, kroot: Frame, root: Frame, v: nat, level: nat, grant: bool, f: Frame, c: Frame)
    requires Sound(w, kroot) && IsRoot(w.tags, root) && v < VPN_LIMIT && level < 3
    requires TableOf(w.mem, root, v, level) == Some(f)
    requires NextCandidate(w, f, Index(v, level), c)
    ensures var w' := NextWorld(w, f, Index(v, level), grant, c);
            && TableOf(w'.mem, root, v, level + 1) == Some(c)
            && Missing(w'.mem, root, v) == if At(w.mem, f, Index(v, level)).Absent? then 2 - level
                else Missing(w.mem, root, v)
  {
    var i := Index(v, level);
    if At(w.mem, f, i).Absent? {
      LinkedPath(w, kroot, root, v, level, f, c);
    } else if grant {
      var mem' := GrantedWorld(w, f, i).mem;
      assert SameLinks(w.mem, mem', w.tags);
      SameLinksSamePath(w.mem, mem', kroot, w.tags, root, v, 1);
      SameLinksSamePath(w.mem, mem', kroot, w.tags, root, v, 2);
      SameLinksSamePath(w.mem, mem', kroot, w.tags, root, v, 3);
    }
  }

  lemma LinkedPath(w: World, kroot: Frame, root: Frame, v: nat, level: nat, f: Frame, c: Frame)
    requires Sound(w, kroot) && IsRoot(w.tags, root) && v < VPN_LIMIT && level < 3
    requires TableOf(w.mem, root, v, level) == Some(f)
    requires NextCandidate(w, f, Index(v, level), c) && At(w.mem, f, Index(v, level)).Absent?
    ensures var mem' := LinkedWorld(w, f, Index(v, level), c).mem;
            && TableOf(mem', root, v, level + 1) == Some(c)
            && (forall k :: level + 2 <= k <= 3 ==> TableOf(mem', root, v, k).None?)
            && Missing(mem', root, v) == 2 - level
  {
    var i := Index(v, level);
    var mem' := LinkedWorld(w, f, i, c).mem;
    LinkPath(w.mem, kroot, w.tags, f, i, c, root, v, level);
    assert At(mem', f, i) == Present(c, TABLE_FLAGS) && At(mem', c, Index(v, level + 1)).Absent?;
    NewPathEnd(mem', root, v, level, f, c);
  }

  lemma NewPathEnd(mem: Memory, root: Frame, v: nat, level: nat, f: Frame, c: Frame)
    requires level < 3 && TableOf(mem, root, v, level) == Some(f)
    requires At(mem, f, Index(v, level)).Present? && At(mem, f, Index(v, level)).frame == c
    requires At(mem, c, Index(v, level + 1)).Absent?
    ensures TableOf(mem, root, v, level + 1) == Some(c)
    ensures forall k :: level + 2 <= k <= 3 ==> TableOf(mem, root, v, k).None?
    ensures Missing(mem, root, v) == 2 - level
  {
    assert TableOf(mem, root, v, level + 1) == Some(c);
    assert TableOf(mem, root, v, level + 2).None?;
  }

  /** Part-way through building the path to `v`: table `f` serves it at `level`, nothing is
      visible yet, and each missing table has cost one free frame. */
  ghost predicate Building(w0: World, w: World, kroot: Frame, root: Frame, v: nat, level: nat, f: Frame) {
    && Sound(w, kroot) && IsRoot(w.tags, root) && f in w.tags && w.tags[f].level == level
    && Grows(w0, w, {root, PathSpace(w0, root, v)})
    && TableOf(w.mem, root, v, level) == Some(f)
    && Missing(w0.mem, root, v) - Missing(w.mem, root, v) == |w0.free| - |w.free|
    && w.tags[f].space == (if level == 0 then root else PathSpace(w0, root, v))
    && OtherSlotsKept(w0, w, root, v)
  }

  /** Of all top-level entries, only the one of `root` on the path to `v` may change. */
  ghost predicate OtherSlotsKept(w: World, w': World, root: Frame, v: nat) {
    forall r, i :: IsRoot(w.tags, r) && (r != root || i != Index(v, 0)) ==> At(w'.mem, r, i) == At(w.mem, r, i)
  }

  lemma BuildStart(w0: World, kroot: Frame, root: Frame, v: nat)
    requires Sound(w0, kroot) && IsRoot(w0.tags, root)
    ensures Building(w0, w0, kroot, root, v, 0, root)
  {
    GrowsRefl(w0, {root, PathSpace(w0, root, v)});
  }

  lemma BuildFacts(w0: World, w: World, kroot: Frame, root: Frame, v: nat, level: nat, f: Frame)
    requires Building(w0, w, kroot, root, v, level, f) && w0.free !! w0.tags.Keys
    ensures Sound(w, kroot) && IsRoot(w.tags, root) && TableOf(w.mem, root, v, level) == Some(f)
    ensures w.free !! w0.tags.Keys
    ensures |w.free| + Missing(w0.mem, root, v) == |w0.free| + Missing(w.mem, root, v)
  {
  }

  lemma BuildStep(w0: World, w: World, kroot: Frame, root: Frame, v: nat, level: nat, f: Frame, grant: bool, c: Frame)
    requires IsRoot(w0.tags, root) && v < VPN_LIMIT && level < 3
    requires Building(w0, w, kroot, root, v, level, f)
    requires level == 0 ==> w == w0
    requires NextCandidate(w, f, Index(v, level), c)
    ensures Building(w0, NextWorld(w, f, Index(v, level), grant, c), kroot, root, v, level + 1, c)
  {
    BuildGrows(w0, w, kroot, {root, PathSpace(w0, root, v)}, f, Index(v, level), grant, c);
    BuildPath(w, kroot, root, v, level, f, grant, c);
    SlotsTrans(w0, w, NextWorld(w, f, Index(v, level), grant, c), root, v);
  }

  lemma SlotsTrans(w: World, w1: World, w2: World, root: Frame, v: nat)
    requires OtherSlotsKept(w, w1, root, v) && OtherSlotsKept(w1, w2, root, v)
    requires forall r :: IsRoot(w.tags, r) ==> IsRoot(w1.tags, r)
    ensures OtherSlotsKept(w, w2, root, v)
  {
    hide Index;
    forall r, i | IsRoot(w.tags, r) && (r != root || i != Index(v, 0)) ensures At(w2.mem, r, i) == At(w.mem, r, i) {
      assert At(w1.mem, r, i) == At(w.mem, r, i);
    }
  }

  lemma NextSlots(w: World, kroot: Frame, root: Frame, v: nat, level: nat, f: Frame, grant: bool, c: Frame)
    requires Sound(w, kroot) && IsRoot(w.tags, root) && v < VPN_LIMIT && level < 3
    requires f in w.tags && w.tags[f].level == level && TableOf(w.mem, root, v, level) == Some(f)
    requires NextCandidate(w, f, Index(v, level), c)
    ensures OtherSlotsKept(w, NextWorld(w, f, Index(v, level), grant, c), root, v)
  {
    assert level == 0 ==> f == root;
  }

  lemma BuildGrows(w0: World, w: World, kroot: Frame, spaces: set<Frame>, f: Frame, i: nat, grant: bool, c: Frame)
    requires Sound(w, kroot) && Grows(w0, w, spaces)
    requires NextCandidate(w, f, i, c) && w.tags[f].space in spaces
    ensures Sound(NextWorld(w, f, i, grant, c), kroot) && Grows(w0, NextWorld(w, f, i, grant, c), spaces)
  {
    NextWorldGrows(w, kroot, f, i, grant, c);
    GrowsTrans(w0, w, NextWorld(w, f, i, grant, c), spaces, {w.tags[f].space});
    assert spaces + {w.tags[f].space} == spaces;
  }

  lemma BuildPath(w: World, kroot: Frame, root: Frame, v: nat, level: nat, f: Frame, grant: bool, c: Frame)
    requires Sound(w, kroot) && IsRoot(w.tags, root) && v < VPN_LIMIT && level < 3
    requires f in w.tags && w.tags[f].level == level && TableOf(w.mem, root, v, level) == Some(f)
    requires NextCandidate(w, f, Index(v, level), c)
    ensures var w' := NextWorld(w, f, Index(v, level), grant, c);
            && IsRoot(w'.tags, root) && c in w'.tags && w'.tags[c].level == level + 1
            && TableOf(w'.mem, root, v, level + 1) == Some(c)
            && Missing(w.mem, root, v) - Missing(w'.mem, root, v) == |w.free| - |w'.free|
            && w'.tags[c].space == (if level == 0 then PathSpace(w, root, v) else w.tags[f].space)
            && OtherSlotsKept(w, w', root, v)
  {
    var i := Index(v, level);
    hide OtherSlotsKept;
    NextSlots(w, kroot, root, v, level, f, grant, c);
    Descend(w, kroot, root, v, level, grant, f, c);
    if At(w.mem, f, i).Present? {
      PresentBuildStep(w, kroot, root, v, level, f);
    } else {
      assert TableOf(w.mem, root, v, level + 1).None?;
      MissingAbsent(w.mem, root, v, level);
    }
  }

  lemma MissingAbsent(mem: Memory, root: Frame, v: nat, level: nat)
    requires level < 3 && TableOf(mem, root, v, level).Some? && TableOf(mem, root, v, level + 1).None?
    ensures Missing(mem, root, v) == 3 - level
  {
  }

  lemma PresentBuildStep(w: World, kroot: Frame, root: Frame, v: nat, level: nat, f: Frame)
    requires Sound(w, kroot) && IsRoot(w.tags, root) && v < VPN_LIMIT && level < 3
    requires TableOf(w.mem, root, v, level) == Some(f) && f in w.tags && At(w.mem, f, Index(v, level)).Present?
    ensures var c := At(w.mem, f, Index(v, level)).frame;
            && c in w.tags && w.tags[c].level == level + 1
            && w.tags[c].space == if level == 0 then PathSpace(w, root, v) else w.tags[f].space
  {
    PathTag(w.mem, kroot, w.tags, root, v, level);
    assert ForwardAt(w.mem, kroot, w.tags, f, Index(v, level));
  }

  /** One step of the builder edits the one entry of the path at its level. */
  lemma NextEdited(w0: World, w: World, kroot: Frame, root: Frame, v: nat, level: nat, f: Frame, grant: bool, c: Frame)
    requires Sound(w, kroot) && IsRoot(w.tags, root) && v < VPN_LIMIT && level < 3
    requires f in w.tags && w.tags[f].level == level && TableOf(w.mem, root, v, level) == Some(f)
    requires NextCandidate(w, f, Index(v, level), c) && (c !in w.tags ==> c !in w0.tags)
    requires PathEdited(w0, w, root, v, level, grant)
    ensures PathEdited(w0, NextWorld(w, f, Index(v, level), grant, c), root, v, level + 1, grant)
  {
    hide Index, TableOf, Tree, EntryAfter;
    var w' := NextWorld(w, f, Index(v, level), grant, c);
    NextPath(w, kroot, root, v, level, f, grant, c);
    assert EditedAt(w0, w, root, v, level, grant, f, Index(v, level));
    NextEntry(w, f, Index(v, level), grant, c);
    var next := level + 1;
    forall g, i | g in w'.tags && w'.tags[g].level < 3 && 0 <= i < ENTRIES
      ensures EditedAt(w0, w', root, v, next, grant, g, i)
    {
      if g in w.tags {
        assert EditedAt(w0, w, root, v, level, grant, g, i);
        assert w.tags[g].level <= level ==>
               TableOf(w'.mem, root, v, w.tags[g].level) == TableOf(w.mem, root, v, w.tags[g].level);
      }
    }
  }

  /** The step leaves the tables already on the path there. */
  lemma NextPath(w: World, kroot: Frame, root: Frame, v: nat, level: nat, f: Frame, grant: bool, c: Frame)
    requires Sound(w, kroot) && IsRoot(w.tags, root) && v < VPN_LIMIT && level < 3
    requires TableOf(w.mem, root, v, level) == Some(f) && NextCandidate(w, f, Index(v, level), c)
    ensures forall k :: 0 <= k <= level ==>
            TableOf(NextWorld(w, f, Index(v, level), grant, c).mem, root, v, k) == TableOf(w.mem, root, v, k)
  {
    var i := Index(v, level);
    forall k | 0 <= k <= level
      ensures TableOf(NextWorld(w, f, i, grant, c).mem, root, v, k) == TableOf(w.mem, root, v, k)
    {
      ReachedBefore(w.mem, root, v, k, level);
      if At(w.mem, f, i).Absent? {
        LinkPath(w.mem, kroot, w.tags, f, i, c, root, v, k);
      } else if grant {
        assert SameLinks(w.mem, GrantedWorld(w, f, i).mem, w.tags);
        SameLinksSamePath(w.mem, GrantedWorld(w, f, i).mem, kroot, w.tags, root, v, k);
      }
    }
  }

  lemma {:induction false} ReachedBefore(mem: Memory, root: Frame, v: nat, k: nat, level: nat)
    requires k <= level && TableOf(mem, root, v, level).Some?
    ensures TableOf(mem, root, v, k).Some?
    decreases level
  {
    if k < level {
      ReachedBefore(mem, root, v, k, level - 1);
    }
  }

  lemma NextEntry(w: World, f: Frame, i: nat, grant: bool, c: Frame)
    requires NextCandidate(w, f, i, c)
    ensures var w' := NextWorld(w, f, i, grant, c);
            && EntryAfter(At(w.mem, f, i), At(w'.mem, f, i), grant) && NewLink(w, At(w.mem, f, i), At(w'.mem, f, i))
            && (At(w.mem, f, i).Absent? ==> At(w'.mem, f, i).frame == c)
            && (forall g, j :: g in w.tags && (g != f || j != i) ==> At(w'.mem, g, j) == At(w.mem, g, j))
            && (At(w.mem, f, i).Absent? ==> forall j :: At(w'.mem, c, j).Absent?)
            && (forall g :: g in w'.tags && g !in w.tags ==> g == c && At(w.mem, f, i).Absent?)
            && (forall g :: g in w.tags ==> g in w'.tags && w'.tags[g] == w.tags[g])
  {
  }

  /** Where the path to `u` runs after the path to `v` was built: as before, and beyond its old end only
      along the path to `v`, through new tables. */
  lemma {:induction false} PathAfter(w: World, w': World, kroot: Frame, root: Frame, v: nat, u: nat, level: nat)
    requires Sound(w, kroot) && Sound(w', kroot) && IsRoot(w.tags, root) && u < VPN_LIMIT && v < VPN_LIMIT && level <= 3
    requires TablesEdited(w, w', root, v) && forall f :: f in w.tags ==> f in w'.tags && w'.tags[f] == w.tags[f]
    ensures TableOf(w.mem, root, u, level).Some? ==>
            TableOf(w'.mem, root, u, level) == TableOf(w.mem, root, u, level)
    ensures TableOf(w.mem, root, u, level).None? && TableOf(w'.mem, root, u, level).Some? ==>
            TableOf(w'.mem, root, u, level).value !in w.tags && Prefix(u, level) == Prefix(v, level)
  {
    hide Prefix, Index, Tree, EntryKept;
    if level > 0 && TableOf(w'.mem, root, u, level - 1).Some? {
      PathAfter(w, w', kroot, root, v, u, level - 1);
      var p, i := TableOf(w'.mem, root, u, level - 1).value, Index(u, level - 1);
      PathTag(w'.mem, kroot, w'.tags, root, u, level - 1);
      if TableOf(w.mem, root, u, level - 1).Some? {
        PathTag(w.mem, kroot, w.tags, root, u, level - 1);
      }
      assert KeptAt(w, w', root, v, p, i);
      KeptEntry(Was(w, p, i), At(w'.mem, p, i));
      if Was(w, p, i).Absent? && At(w'.mem, p, i).Present? {
        PathTag(w'.mem, kroot, w'.tags, root, v, level - 1);
        PrefixSplit(u, level - 1);
        PrefixSplit(v, level - 1);
      }
    } else if level > 0 {
      PathAfter(w, w', kroot, root, v, u, level - 1);
    }
  }

  lemma KeptEntry(e: Entry, e': Entry)
    ensures EntryKept(e, e') && e.Present? ==> e'.Present? && e'.frame == e.frame
  {
  }

  lemma StartEdited(w: World, root: Frame, v: nat, grant: bool)
    ensures PathEdited(w, w, root, v, 0, grant)
  {
    hide OnPath;
  }

  /** A path that ends above its leaf has been edited as far as it goes. */
  lemma StoppedEdited(w0: World, w: World, kroot: Frame, root: Frame, v: nat, level: nat, f: Frame, grant: bool)
    requires PathEdited(w0, w, root, v, level, grant) && level < 3
    requires TableOf(w.mem, root, v, level) == Some(f) && At(w.mem, f, Index(v, level)).Absent?
    ensures PathEdited(w0, w, root, v, 3, grant)
  {
    hide Index;
    forall g, i | g in w.tags && w.tags[g].level < 3 && 0 <= i < ENTRIES
      ensures EditedAt(w0, w, root, v, 3, grant, g, i)
    {
      assert EditedAt(w0, w, root, v, level, grant, g, i);
      if w.tags[g].level > level {
        assert TableOf(w.mem, root, v, level + 1).None?;
        NotReached(w.mem, root, v, level + 1, w.tags[g].level);
      }
    }
  }

  lemma NotReached(mem: Memory, root: Frame, v: nat, k: nat, level: nat)
    requires k <= level && TableOf(mem, root, v, k).None?
    ensures TableOf(mem, root, v, level).None?
  {
    if TableOf(mem, root, v, level).Some? {
      ReachedBefore(mem, root, v, k, level);
    }
  }

  /** Writing the leaf edits no table entry. */
  lemma LeafEdited(w0: World, mid: World, kroot: Frame, root: Frame, v: nat, grant: bool, t: Frame, leaf: Entry)
    requires PathEdited(w0, mid, root, v, 3, grant) && Sound(mid, kroot) && IsRoot(mid.tags, root) && v < VPN_LIMIT
    requires t in mid.tags && mid.tags[t].level == 3 && IsTable(mid.mem, t)
    ensures PathEdited(w0, LeafWorld(mid, t, v, leaf), root, v, 3, grant)
  {
    hide Index, TableOf, Tree, EntryAfter;
    var w' := LeafWorld(mid, t, v, leaf);
    assert SameLinks(mid.mem, w'.mem, mid.tags);
    forall k | 0 <= k <= 3 ensures TableOf(w'.mem, root, v, k) == TableOf(mid.mem, root, v, k) {
      SameLinksSamePath(mid.mem, w'.mem, kroot, mid.tags, root, v, k);
    }
    forall g, i | g in w'.tags && w'.tags[g].level < 3 && 0 <= i < ENTRIES
      ensures EditedAt(w0, w', root, v, 3, grant, g, i)
    {
      assert EditedAt(w0, mid, root, v, 3, grant, g, i);
    }
  }

  /** The builder stops exactly when the path needs more tables than there are frames. */
  lemma BuildFails(w0: World, w: World, kroot: Frame, root: Frame, v: nat, level: nat, f: Frame)
    requires IsRoot(w0.tags, root) && v < VPN_LIMIT && level < 3
    requires Building(w0, w, kroot, root, v, level, f)
    requires At(w.mem, f, Index(v, level)).Absent? && w.free == {}
    ensures Walk(w0.mem, root, v).Absent? && Missing(w0.mem, root, v) > |w0.free|
  {
    assert TableOf(w.mem, root, v, level + 1).None?;
    MissingAbsent(w.mem, root, v, level);
    assert Walk(w.mem, root, v).Absent?;
  }

  lemma BuildDone(w0: World, w: World, kroot: Frame, root: Frame, v: nat, t: Frame)
    requires IsRoot(w0.tags, root) && v < VPN_LIMIT
    requires Building(w0, w, kroot, root, v, 3, t)
    ensures Missing(w0.mem, root, v) <= |w0.free| && Missing(w.mem, root, v) == 0
    ensures Walk(w0.mem, root, v) == At(w.mem, t, Index(v, 3))
  {
    assert Missing(w.mem, root, v) == 0;
    assert Walk(w.mem, root, v) == Walk(w0.mem, root, v);
  }

  // ---------------------------------------------------------------------------
  // What the processor lets user code do
  // ---------------------------------------------------------------------------

  datatype Access = Read | Write | Execute

  predicate Permits(e: Entry, a: Access) {
    e.Present? && e.flags.userAccessible && (a.Write? ==> e.flags.writable) && (a.Execute? ==> !e.flags.executeDisable)
  }

  /** User code may access page `v`. On x86_64 every entry of the path has to permit it. On AArch64 table
      descriptors restrict access by bits of their own, which the kernel leaves clear, so that the
      leaf alone decides. */
  predicate UserMay(arch: Arch, mem: Memory, root: Frame, v: nat, a: Access) {
    if arch.X86_64? then forall level :: 0 <= level <= 3 ==> Permits(EntryOf(mem, root, v, level), a)
    else Permits(EntryOf(mem, root, v, 3), a)
  }

  /** Under tables that restrict nothing the leaf decides on both architectures. */
  lemma OpenRights(arch: Arch, w: World, kroot: Frame, root: Frame, v: nat, a: Access)
    requires Sound(w, kroot) && OpenTables(w) && IsRoot(w.tags, root) && v < VPN_LIMIT
    ensures UserMay(arch, w.mem, root, v, a) <==> Permits(Walk(w.mem, root, v), a)
  {
    hide Tree, Index, TableOf;
    assert EntryOf(w.mem, root, v, 3) == Walk(w.mem, root, v);
    if Permits(Walk(w.mem, root, v), a) {
      forall level | 0 <= level <= 2 ensures Permits(EntryOf(w.mem, root, v, level), a) {
        OpenEntry(w, kroot, root, v, level);
      }
    }
  }

  lemma OpenEntry(w: World, kroot: Frame, root: Frame, v: nat, level: nat)
    requires Sound(w, kroot) && OpenTables(w) && IsRoot(w.tags, root) && v < VPN_LIMIT && level <= 2
    requires TableOf(w.mem, root, v, 3).Some?
    ensures EntryOf(w.mem, root, v, level).Present? && Open(EntryOf(w.mem, root, v, level).flags)
  {
    hide Tree, Index;
    ReachedBefore(w.mem, root, v, level, 3);
    ReachedBefore(w.mem, root, v, level + 1, 3);
    PathTag(w.mem, kroot, w.tags, root, v, level);
  }

  /** The tables that were already on the path do not stand in the way of the access. */
  predicate TablesAllow(mem: Memory, root: Frame, v: nat, a: Access) {
    forall level :: 0 <= level <= 2 ==>
      var e := EntryOf(mem, root, v, level);
      e.Present? ==> (a.Write? ==> e.flags.writable) && (a.Execute? ==> !e.flags.executeDisable)
  }

  /** What user code may do with a page that was just mapped: what its flags say, and on x86_64 what
      the tables that were already there allow; the user bit of those is raised with the page's. */
  ghost predicate RightsGiven(arch: Arch, mem: Memory, mem': Memory, root: Frame, v: nat, flags: MapFlags) {
    forall a :: UserMay(arch, mem', root, v, a) <==>
                && flags.userAccessible && (a.Write? ==> flags.writable) && (a.Execute? ==> !flags.executeDisable)
                && (arch.X86_64? ==> TablesAllow(mem, root, v, a))
  }

  lemma MappedRights(arch: Arch, w: World, w': World, kroot: Frame, root: Frame, v: nat, frame: Frame, flags: MapFlags)
    requires Sound(w, kroot) && Sound(w', kroot) && IsRoot(w.tags, root) && v < VPN_LIMIT
    requires forall f :: f in w.tags ==> f in w'.tags && w'.tags[f] == w.tags[f]
    requires PathEdited(w, w', root, v, 3, flags.userAccessible && arch.X86_64?)
    requires Walk(w'.mem, root, v) == Present(frame, flags)
    ensures RightsGiven(arch, w.mem, w'.mem, root, v, flags)
  {
    hide PathEdited, Tree, Index;
    if arch.X86_64? && flags.userAccessible {
      forall level | 0 <= level <= 2
        ensures EntryAfter(EntryOf(w.mem, root, v, level), EntryOf(w'.mem, root, v, level), true)
        ensures EntryOf(w'.mem, root, v, level).Present?
      {
        PathEntry(w, w', kroot, root, v, level, true);
      }
    }
    hide UserMay, TablesAllow;
    forall a ensures UserMay(arch, w'.mem, root, v, a) <==>
                     && flags.userAccessible && (a.Write? ==> flags.writable) && (a.Execute? ==> !flags.executeDisable)
                     && (arch.X86_64? ==> TablesAllow(w.mem, root, v, a))
    {
      AccessGiven(arch, w.mem, w'.mem, root, v, frame, flags, a);
    }
  }

  lemma AccessGiven(arch: Arch, mem: Memory, mem': Memory, root: Frame, v: nat, frame: Frame, flags: MapFlags,
                    a: Access)
    requires arch.X86_64? && flags.userAccessible ==> forall level :: 0 <= level <= 2 ==>
             EntryAfter(EntryOf(mem, root, v, level), EntryOf(mem', root, v, level), true) &&
             EntryOf(mem', root, v, level).Present?
    requires Walk(mem', root, v) == Present(frame, flags)
    ensures UserMay(arch, mem', root, v, a) <==>
            && flags.userAccessible && (a.Write? ==> flags.writable) && (a.Execute? ==> !flags.executeDisable)
            && (arch.X86_64? ==> TablesAllow(mem, root, v, a))
  {
    hide Index, TableOf;
    assert EntryOf(mem', root, v, 3) == Present(frame, flags);
  }

  lemma PathEntry(w: World, w': World, kroot: Frame, root: Frame, v: nat, level: nat, grant: bool)
    requires Sound(w, kroot) && Sound(w', kroot) && IsRoot(w.tags, root) && v < VPN_LIMIT && level <= 2
    requires forall f :: f in w.tags ==> f in w'.tags && w'.tags[f] == w.tags[f]
    requires PathEdited(w, w', root, v, 3, grant) && Walk(w'.mem, root, v).Present?
    ensures EntryAfter(EntryOf(w.mem, root, v, level), EntryOf(w'.mem, root, v, level), grant)
    ensures EntryOf(w'.mem, root, v, level).Present?
  {
    hide Tree, Index, EntryAfter, NewLink, PathEdited;
    ReachedBefore(w'.mem, root, v, level, 3);
    ReachedBefore(w'.mem, root, v, level + 1, 3);
    EditedKept(w, w', root, v, grant);
    PathAfter(w, w', kroot, root, v, v, level);
    PathTag(w'.mem, kroot, w'.tags, root, v, level);
    var t := TableOf(w'.mem, root, v, level).value;
    EditedOn(w, w', root, v, grant, t, level);
    if TableOf(w.mem, root, v, level).Some? {
      PathTag(w.mem, kroot, w.tags, root, v, level);
    }
  }

  /** On x86_64, after a page was mapped for user code, user code may pass every table entry of its path,
      whether the entry was there or is new; a new one restricts nothing at all. */
  lemma PathGranted(w: World, w': World, kroot: Frame, root: Frame, v: nat, level: nat)
    requires Sound(w, kroot) && Sound(w', kroot) && IsRoot(w.tags, root) && v < VPN_LIMIT && level <= 2
    requires forall f :: f in w.tags ==> f in w'.tags && w'.tags[f] == w.tags[f]
    requires PathEdited(w, w', root, v, 3, true) && Walk(w'.mem, root, v).Present?
    ensures var e, e' := EntryOf(w.mem, root, v, level), EntryOf(w'.mem, root, v, level);
            && e'.Present? && e'.flags.userAccessible
            && (e.Absent? ==> e'.flags.writable && !e'.flags.executeDisable)
            && (e.Present? ==> e'.frame == e.frame && e'.flags == e.flags.(userAccessible := true))
  {
    PathEntry(w, w', kroot, root, v, level, true);
  }

  lemma EditedOn(w: World, w': World, root: Frame, v: nat, grant: bool, t: Frame, level: nat)
    requires PathEdited(w, w', root, v, 3, grant) && level <= 2 && TableOf(w'.mem, root, v, level) == Some(t)
    requires t in w'.tags && w'.tags[t].level == level
    ensures EntryAfter(Was(w, t, Index(v, level)), At(w'.mem, t, Index(v, level)), grant)
  {
    hide Index, TableOf;
    assert EditedAt(w, w', root, v, 3, grant, t, Index(v, level));
  }

  /** The physical address a virtual address leads to. */
  function Translate(mem: Memory, root: Frame, va: nat): Option<nat> {
    var e := Walk(mem, root, Vpn(va));
    if e.Present? then Some(e.frame * PAGE_SIZE + va % PAGE_SIZE) else None
  }

  /** `map_page` is decided by alignment, by the page being mapped, and by the frames its path needs. */
  ghost function MapOutcome(w: World, root: Frame, va: nat, phys: nat): Result {
    if va % PAGE_SIZE != 0 || phys % PAGE_SIZE != 0 then Err(InvalidAddress)
    else if Walk(w.mem, root, Vpn(va)).Present? then Err(AlreadyMapped)
    else if Missing(w.mem, root, Vpn(va)) > |w.free| then Err(FrameAllocationFailed)
    else Ok
  }

  ghost function LeafWorld(w: World, t: Frame, v: nat, e: Entry): World
    requires IsTable(w.mem, t)
  {
    w.(mem := SetEntry(w.mem, t, Index(v, 3), e))
  }

  /** No other page changes in any address space, and the page itself changes in no other
      address space unless the path lies in tables shared with the kernel. */
  ghost predicate OthersUntouched(w: World, w': World, kroot: Frame, root: Frame, v: nat) {
    forall r, u :: IsRoot(w.tags, r) && 0 <= u < VPN_LIMIT
                   && (u != v || (r != root && PathSpace(w, root, v) == root && root != kroot)) ==>
      Walk(w'.mem, r, u) == Walk(w.mem, r, u)
  }

  lemma LeafWorldWalks(w: World, kroot: Frame, root: Frame, v: nat, t: Frame, e: Entry)
    requires Sound(w, kroot) && IsRoot(w.tags, root) && v < VPN_LIMIT
    requires t in w.tags && TableOf(w.mem, root, v, 3) == Some(t)
    ensures IsTable(w.mem, t) && Sound(LeafWorld(w, t, v, e), kroot)
    ensures Walk(LeafWorld(w, t, v, e).mem, root, v) == e
    ensures OthersUntouched(w, LeafWorld(w, t, v, e), kroot, root, v)
  {
    var i := Index(v, 3);
    PathTag(w.mem, kroot, w.tags, root, v, 3);
    PathSpaceFixed(w.mem, kroot, w.tags, root, v, 3);
    SetLeafTree(w.mem, kroot, w.tags, t, i, e);
    SetLeafWalk(w.mem, kroot, w.tags, t, i, e, root, v);
    forall r, u | IsRoot(w.tags, r) && 0 <= u < VPN_LIMIT
                  && (u != v || (r != root && PathSpace(w, root, v) == root && root != kroot))
      ensures Walk(LeafWorld(w, t, v, e).mem, r, u) == Walk(w.mem, r, u)
    {
      SetLeafWalk(w.mem, kroot, w.tags, t, i, e, r, u);
      if TableOf(w.mem, r, u, 3) == Some(t) {
        PathTag(w.mem, kroot, w.tags, r, u, 3);
      }
    }
  }

  /** The edit of one leaf is the edit of one key of the flat map. */
  lemma LeafWorldFlat(w: World, kroot: Frame, root: Frame, v: nat, t: Frame, e: Entry)
    requires Sound(w, kroot) && IsRoot(w.tags, root) && v < VPN_LIMIT
    requires t in w.tags && TableOf(w.mem, root, v, 3) == Some(t)
    ensures IsTable(w.mem, t)
    ensures var flat := Flat(w.mem, root);
            Flat(LeafWorld(w, t, v, e).mem, root) == if e.Present? then flat[v := e] else flat - {v}
  {
    LeafWorldWalks(w, kroot, root, v, t, e);
    FlatUpdate(w.mem, LeafWorld(w, t, v, e).mem, root, v);
  }

  lemma FlatUpdate(mem: Memory, mem': Memory, root: Frame, v: nat)
    requires v < VPN_LIMIT
    requires forall u :: 0 <= u < VPN_LIMIT && u != v ==> Walk(mem', root, u) == Walk(mem, root, u)
    ensures var e := Walk(mem', root, v);
            var flat := Flat(mem, root);
            Flat(mem', root) == if e.Present? then flat[v := e] else flat - {v}
  {
  }

  /** A growing path shows nothing: the flat maps are equal. */
  lemma GrowsFlat(w: World, w': World, spaces: set<Frame>, root: Frame)
    requires Grows(w, w', spaces) && IsRoot(w.tags, root)
    ensures Flat(w'.mem, root) == Flat(w.mem, root)
  {
    assert SameWalks(w, w');
  }

  /** Building a path and then writing its leaf adds one key to the flat map of `root`
      and touches nothing else. */
  lemma MapRefines(w: World, mid: World, kroot: Frame, root: Frame, v: nat, t: Frame, leaf: Entry)
    requires Sound(mid, kroot) && IsRoot(w.tags, root) && v < VPN_LIMIT && leaf.Present?
    requires Grows(w, mid, {root, PathSpace(w, root, v)})
    requires t in mid.tags && IsTable(mid.mem, t) && TableOf(mid.mem, root, v, 3) == Some(t)
    requires mid.tags[t].space == PathSpace(w, root, v)
    ensures Flat(LeafWorld(mid, t, v, leaf).mem, root) == Flat(w.mem, root)[v := leaf]
    ensures OthersUntouched(w, LeafWorld(mid, t, v, leaf), kroot, root, v)
  {
    GrowsFlat(w, mid, {root, PathSpace(w, root, v)}, root);
    LeafWorldFlat(mid, kroot, root, v, t, leaf);
    LeafWorldWalks(mid, kroot, root, v, t, leaf);
    PathSpaceFixed(mid.mem, kroot, mid.tags, root, v, 3);
    var w' := LeafWorld(mid, t, v, leaf);
    forall r, u | IsRoot(w.tags, r) && 0 <= u < VPN_LIMIT
                  && (u != v || (r != root && PathSpace(w, root, v) == root && root != kroot))
      ensures Walk(w'.mem, r, u) == Walk(w.mem, r, u)
    {
      assert IsRoot(mid.tags, r);
      assert Walk(mid.mem, r, u) == Walk(w.mem, r, u);
    }
  }

  class Machine {
    const arch: Arch
    const pmm: Pmm.BitmapAllocator
    /** What each physical frame holds. */
    var mem: Memory
    /** The kernel's own top-level table. */
    var kroot: Frame
    /** The root the hardware translates through (CR3 or TTBR0_EL1). */
    var active: Frame
    ghost var tags: Tags
    /** The data frames owned by process address spaces, tagged like tables at level 4. */
    ghost var pages: Tags

    constructor (arch: Arch, pmm: Pmm.BitmapAllocator)
      requires 0 !in pmm.FreeSet() && pmm.Capacity() <= FrameLimit(arch)
      ensures Valid() && this.arch == arch && this.pmm == pmm && tags == map[] && pages == map[]
    {
      this.arch := arch;
      this.pmm := pmm;
      mem := map[];
      kroot := 0;
      active := 0;
      tags := map[];
      pages := map[];
    }

    ghost function W(): World
      reads this, pmm.bitmap
    {
      World(mem, tags, pmm.FreeSet())
    }

    ghost predicate Valid()
      reads this, pmm.bitmap
    {
      Sound(W(), kroot) && 0 !in pmm.FreeSet() && pmm.Capacity() <= FrameLimit(arch)
    }

    method AllocFrame() returns (r: Option<Frame>)
      requires Valid()
      modifies pmm.bitmap
      ensures Valid()
      ensures r.None? <==> old(pmm.FreeSet()) == {}
      ensures r.Some? ==> r.value in old(pmm.FreeSet())
      ensures W() == old(W()).(free := old(pmm.FreeSet()) - (if r.Some? then {r.value} else {}))
    {
      r := pmm.AllocateNextFrame();
    }

    /** Follows entry `i` of table `f`, first linking a zeroed table there if it is empty. */
    method NextTable(f: Frame, i: nat, user: bool) returns (r: Option<Frame>)
      requires Valid()
      requires f in tags && tags[f].level < 3 && i < ENTRIES
      modifies this`mem, this`tags, pmm.bitmap
      ensures Valid()
      ensures r.None? <==> old(At(mem, f, i)).Absent? && old(pmm.FreeSet()) == {}
      ensures r.None? ==> W() == old(W())
      ensures r.Some? ==> NextCandidate(old(W()), f, i, r.value)
                          && W() == NextWorld(old(W()), f, i, user && arch.X86_64?, r.value)
    {
      ghost var w := W();
      var e := At(mem, f, i);
      if e.Absent? {
        var frame := AllocFrame();
        if frame.None? {
          return None;
        }
        var c := frame.value;
        LinkGrows(w, kroot, f, i, c);
        mem := mem[c := EmptyTable()];
        mem := SetEntry(mem, f, i, Present(c, TABLE_FLAGS));
        tags := tags[c := ChildTag(tags, f, i)];
      } else if user && arch.X86_64? {
        GrantGrows(w, kroot, f, i);
        mem := SetEntry(mem, f, i, e.(flags := e.flags.(userAccessible := true)));
      }
      r := Some(At(mem, f, i).frame);
    }

    /** `NextTable` as one step of building the path to `v` that began in state `w0`. */
    method ExtendPath(f: Frame, i: nat, user: bool, ghost w0: World, ghost root: Frame, ghost v: nat)
        returns (r: Option<Frame>)
      requires Valid() && IsRoot(w0.tags, root) && v < VPN_LIMIT
      requires f in tags && tags[f].level < 3 && i == Index(v, tags[f].level)
      requires Building(w0, W(), kroot, root, v, tags[f].level, f)
      requires PathEdited(w0, W(), root, v, tags[f].level, user && arch.X86_64?) && w0.free !! w0.tags.Keys
      requires tags[f].level == 0 ==> W() == w0
      modifies this`mem, this`tags, pmm.bitmap
      ensures Valid()
      ensures r.None? ==> W() == old(W()) && Walk(w0.mem, root, v).Absent? && Missing(w0.mem, root, v) > |w0.free|
      ensures r.Some? ==> Building(w0, W(), kroot, root, v, old(tags)[f].level + 1, r.value)
      ensures PathEdited(w0, W(), root, v, if r.Some? then old(tags)[f].level + 1 else 3, user && arch.X86_64?)
    {
      hide Building, PathEdited;
      ghost var w, level := W(), tags[f].level;
      BuildFacts(w0, w, kroot, root, v, level, f);
      r := NextTable(f, i, user);
      if r.Some? {
        BuildStep(w0, w, kroot, root, v, level, f, user && arch.X86_64?, r.value);
        NextEdited(w0, w, kroot, root, v, level, f, user && arch.X86_64?, r.value);
      } else {
        BuildFails(w0, w, kroot, root, v, level, f);
        StoppedEdited(w0, w, kroot, root, v, level, f, user && arch.X86_64?);
      }
    }

    /** Walks to the leaf table of `va`, building the tables the path lacks. */
    method PathTo(root: Frame, va: nat, user: bool) returns (r: Option<Frame>)
      requires Valid() && IsRoot(tags, root)
      modifies this`mem, this`tags, pmm.bitmap
      ensures Valid()
      ensures Grows(old(W()), W(), {root, PathSpace(old(W()), root, Vpn(va))})
      ensures OtherSlotsKept(old(W()), W(), root, Vpn(va))
      ensures r.None? ==>
              Walk(old(W()).mem, root, Vpn(va)).Absent? && Missing(old(W()).mem, root, Vpn(va)) > |old(W()).free|
      ensures r.Some? ==> Building(old(W()), W(), kroot, root, Vpn(va), 3, r.value)
      ensures PathEdited(old(W()), W(), root, Vpn(va), 3, user && arch.X86_64?)
    {
      hide Grows, PathEdited;
      ghost var w := W();
      ghost var v := Vpn(va);
      BuildStart(w, kroot, root, v);
      StartEdited(w, root, v, user && arch.X86_64?);
      IndexIsShiftAndMask(va);
      var l1 := ExtendPath(root, va / 0x80_0000_0000 % 512, user, w, root, v);
      if l1.None? {
        return None;
      }
      var l2 := ExtendPath(l1.value, va / 0x4000_0000 % 512, user, w, root, v);
      if l2.None? {
        return None;
      }
      r := ExtendPath(l2.value, va / 0x20_0000 % 512, user, w, root, v);
    }

    /** Maps one page, building the tables its path lacks. `mid` is the state before the leaf
        is written and `t` the leaf table. */
    method MapPage(root: Frame, va: nat, phys: nat, flags: MapFlags)
        returns (r: Result, ghost mid: World, ghost t: Frame)
      requires Valid() && IsRoot(tags, root)
      modifies this`mem, this`tags, pmm.bitmap
      ensures Valid()
      ensures r == MapOutcome(old(W()), root, va, phys)
      ensures Grows(old(W()), mid, {root, PathSpace(old(W()), root, Vpn(va))})
      ensures r.Err? ==> W() == mid
      ensures r.Ok? ==> Sound(mid, kroot) && t in mid.tags && TableOf(mid.mem, root, Vpn(va), 3) == Some(t)
      ensures r.Ok? ==> mid.tags[t].space == PathSpace(old(W()), root, Vpn(va)) && IsTable(mid.mem, t)
      ensures r.Ok? ==> W() == LeafWorld(mid, t, Vpn(va), LeafFor(arch, phys, flags))
      ensures Flat(mem, root) == if r.Ok? then old(Flat(mem, root))[Vpn(va) := LeafFor(arch, phys, flags)]
              else old(Flat(mem, root))
      ensures OthersUntouched(old(W()), W(), kroot, root, Vpn(va))
      ensures r.Err? ==> SameWalks(old(W()), W())
      ensures OtherSlotsKept(old(W()), W(), root, Vpn(va))
      ensures if r == Err(InvalidAddress) then W() == old(W())
              else PathEdited(old(W()), W(), root, Vpn(va), 3, flags.userAccessible && arch.X86_64?)
      ensures r.Ok? ==> |pmm.FreeSet()| + Missing(old(mem), root, Vpn(va)) == |old(pmm.FreeSet())|
      ensures r.Ok? ==> RightsGiven(arch, old(mem), mem, root, Vpn(va), flags)
    {
      hide Missing, Tree, PathEdited, RightsGiven, Walk;
      ghost var w := W();
      ghost var v := Vpn(va);
      BuildStart(w, kroot, root, v);
      if va % PAGE_SIZE != 0 || phys % PAGE_SIZE != 0 {
        return Err(InvalidAddress), w, root;
      }
      var l3 := PathTo(root, va, flags.userAccessible);
      if l3.None? {
        return Err(FrameAllocationFailed), W(), root;
      }
      IndexIsShiftAndMask(va);
      mid, t := W(), l3.value;
      BuildDone(w, mid, kroot, root, v, t);
      BuildFacts(w, mid, kroot, root, v, 3, t);
      if At(mem, l3.value, va / 0x1000 % 512).Present? {
        return Err(AlreadyMapped), mid, t;
      }
      LeafWorldWalks(mid, kroot, root, v, t, LeafFor(arch, phys, flags));
      assert t != root;
      MapRefines(w, mid, kroot, root, v, t, LeafFor(arch, phys, flags));
      LeafEdited(w, mid, kroot, root, v, flags.userAccessible && arch.X86_64?, t, LeafFor(arch, phys, flags));
      mem := SetEntry(mem, l3.value, va / 0x1000 % 512, LeafFor(arch, phys, flags));
      MappedRights(arch, w, W(), kroot, root, v, LeafFor(arch, phys, flags).frame, flags);
      r := Ok;
    }

    /** Clears the leaf of a mapped page; nothing else is read or written. */
    method UnmapPage(root: Frame, va: nat) returns (r: Result, ghost t: Frame)
      requires Valid() && IsRoot(tags, root)
      modifies this`mem
      ensures Valid()
      ensures r == if va % PAGE_SIZE == 0 && old(Walk(mem, root, Vpn(va))).Present? then Ok else Err(InvalidAddress)
      ensures r.Err? ==> mem == old(mem)
      ensures r.Ok? ==> t in tags && old(TableOf(mem, root, Vpn(va), 3)) == Some(t)
      ensures r.Ok? ==> IsTable(old(mem), t) && W() == LeafWorld(old(W()), t, Vpn(va), Absent)
      ensures Flat(mem, root) == if r.Ok? then old(Flat(mem, root)) - {Vpn(va)} else old(Flat(mem, root))
      ensures OthersUntouched(old(W()), W(), kroot, root, Vpn(va))
    {
      t := root;
      if va % PAGE_SIZE != 0 {
        return Err(InvalidAddress), t;
      }
      ghost var v := Vpn(va);
      IndexIsShiftAndMask(va);
      WalkUnfolds(mem, root, v);
      var e0 := At(mem, root, va / 0x80_0000_0000 % 512);
      if e0.Absent? {
        return Err(InvalidAddress), t;
      }
      var e1 := At(mem, e0.frame, va / 0x4000_0000 % 512);
      if e1.Absent? {
        return Err(InvalidAddress), t;
      }
      var e2 := At(mem, e1.frame, va / 0x20_0000 % 512);
      if e2.Absent? {
        return Err(InvalidAddress), t;
      }
      if At(mem, e2.frame, va / 0x1000 % 512).Absent? {
        return Err(InvalidAddress), t;
      }
      t := e2.frame;
      PathTag(mem, kroot, tags, root, v, 3);
      LeafWorldWalks(W(), kroot, root, v, t, Absent);
      LeafWorldFlat(W(), kroot, root, v, t, Absent);
      mem := SetEntry(mem, e2.frame, va / 0x1000 % 512, Absent);
      r := Ok;
    }

    method TranslateAddr(root: Frame, va: nat) returns (r: Option<nat>)
      requires Valid() && IsRoot(tags, root)
      ensures r == Translate(mem, root, va)
    {
      IndexIsShiftAndMask(va);
      WalkUnfolds(mem, root, Vpn(va));
      var e0 := At(mem, root, va / 0x80_0000_0000 % 512);
      if e0.Absent? {
        return None;
      }
      var e1 := At(mem, e0.frame, va / 0x4000_0000 % 512);
      if e1.Absent? {
        return None;
      }
      var e2 := At(mem, e1.frame, va / 0x20_0000 % 512);
      if e2.Absent? {
        return None;
      }
      var e3 := At(mem, e2.frame, va / 0x1000 % 512);
      if e3.Absent? {
        return None;
      }
      r := Some(e3.frame * PAGE_SIZE + va % PAGE_SIZE);
    }
  }
}
