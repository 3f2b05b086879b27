/** The life of a process address space: created as a copy of the kernel root, used, torn down. */
module Processes {
  import opened Basics
  import opened PageTables
  import opened Worlds
  import opened Vmm
  import opened Spaces
  import opened Teardown

  // ---------------------------------------------------------------------------
  // Creation
  // ---------------------------------------------------------------------------

  /** Slot `i` of `src` is empty or the kernel root's own table for that slot. */
  ghost predicate KernelSlot(w: World, kroot: Frame, src: Frame, i: nat) {
    At(w.mem, src, i).Present? ==>
        At(w.mem, src, i).frame in w.tags && w.tags[At(w.mem, src, i).frame] == Tag(kroot, 1, i, kroot)
  }

  ghost predicate KernelSlots(w: World, kroot: Frame, src: Frame) {
    forall i {:trigger KernelSlot(w, kroot, src, i)} :: 0 <= i < ENTRIES ==> KernelSlot(w, kroot, src, i)
  }

  lemma KernelRootSlots(w: World, kroot: Frame)
    requires Sound(w, kroot) && IsRoot(w.tags, kroot)
    ensures KernelSlots(w, kroot, kroot)
  {
    forall i | 0 <= i < ENTRIES ensures KernelSlot(w, kroot, kroot, i) {
      assert ForwardAt(w.mem, kroot, w.tags, kroot, i);
    }
  }

  ghost function ClonedWorld(w: World, src: Frame, c: Frame): World
    requires src in w.mem
  {
    World(w.mem[c := w.mem[src]], w.tags[c := Tag(c, 0, 0, c)], w.free - {c})
  }

  lemma CloneTree(w: World, kroot: Frame, src: Frame, c: Frame)
    requires Sound(w, kroot) && IsRoot(w.tags, src) && KernelSlots(w, kroot, src) && c in w.free
    ensures src in w.mem && Sound(ClonedWorld(w, src, c), kroot)
  {
    assert IsTable(w.mem, src);
    var w' := ClonedWorld(w, src, c);
    forall f, i | f in w'.tags && w'.tags[f].level < 3 && 0 <= i < ENTRIES
        ensures ForwardAt(w'.mem, kroot, w'.tags, f, i) {
      if f == c {
        assert KernelSlot(w, kroot, src, i);
      } else {
        assert ForwardAt(w.mem, kroot, w.tags, f, i);
      }
    }
    forall d | d in w'.tags ensures BackwardAt(w'.mem, w'.tags, d) {
      if d != c {
        assert BackwardAt(w.mem, w.tags, d);
      }
    }
  }

  lemma {:induction false} ClonePath(w: World, kroot: Frame, src: Frame, c: Frame, v: nat, level: nat)
    requires Sound(w, kroot) && IsRoot(w.tags, src) && c in w.free && v < VPN_LIMIT && 1 <= level <= 3
    ensures src in w.mem && TableOf(ClonedWorld(w, src, c).mem, c, v, level) == TableOf(w.mem, src, v, level)
  {
    assert IsTable(w.mem, src);
    var mem' := ClonedWorld(w, src, c).mem;
    if level == 1 {
      assert TableOf(mem', c, v, 0) == Some(c) && TableOf(w.mem, src, v, 0) == Some(src);
    } else {
      ClonePath(w, kroot, src, c, v, level - 1);
      if TableOf(w.mem, src, v, level - 1).Some? {
        PathTag(w.mem, kroot, w.tags, src, v, level - 1);
      }
    }
  }

  /** The clone translates every address as its source does, and nothing else changes. */
  lemma CloneWalks(w: World, kroot: Frame, src: Frame, c: Frame)
    requires Sound(w, kroot) && IsRoot(w.tags, src) && c in w.free
    ensures src in w.mem && Flat(ClonedWorld(w, src, c).mem, c) == Flat(w.mem, src)
    ensures SameWalks(w, ClonedWorld(w, src, c))
  {
    assert IsTable(w.mem, src);
    var mem' := ClonedWorld(w, src, c).mem;
    forall v | 0 <= v < VPN_LIMIT ensures Walk(mem', c, v) == Walk(w.mem, src, v) {
      ClonePath(w, kroot, src, c, v, 3);
      if TableOf(w.mem, src, v, 3).Some? {
        PathTag(w.mem, kroot, w.tags, src, v, 3);
      }
    }
    forall r, v | IsRoot(w.tags, r) && 0 <= v < VPN_LIMIT ensures Walk(mem', r, v) == Walk(w.mem, r, v) {
      SameTablesSameWalk(w.mem, mem', kroot, w.tags, r, v);
    }
  }

  lemma CloneOwned(w: World, pages: Tags, kroot: Frame, cap: nat, src: Frame, c: Frame)
    requires Sound(w, kroot) && Owned(w, kroot, pages, cap) && IsRoot(w.tags, src) && c in w.free
    ensures src in w.mem && Owned(ClonedWorld(w, src, c), kroot, pages, cap)
    ensures Kept(w, pages, ClonedWorld(w, src, c), pages, {c})
    ensures Accounted(ClonedWorld(w, src, c), pages) == Accounted(w, pages)
  {
    hide Kept, Accounted;
    assert IsTable(w.mem, src);
    CloneKept(w, pages, kroot, cap, src, c);
    var w' := ClonedWorld(w, src, c);
    forall t, i | t in w'.tags && w'.tags[t].level == 3 && w'.tags[t].space != kroot && 0 <= i < ENTRIES
      ensures LeafOwned(w', pages, t, i)
    {
      assert LeafOwned(w, pages, t, i);
    }
    forall d | d in pages ensures PageLinked(w', kroot, pages, d) {
      assert PageLinked(w, kroot, pages, d);
    }
  }

  lemma CloneKept(w: World, pages: Tags, kroot: Frame, cap: nat, src: Frame, c: Frame)
    requires Sound(w, kroot) && Owned(w, kroot, pages, cap) && src in w.mem && c in w.free
    ensures Kept(w, pages, ClonedWorld(w, src, c), pages, {c})
    ensures Accounted(ClonedWorld(w, src, c), pages) == Accounted(w, pages)
  {
  }

  lemma CloneOpen(w: World, src: Frame, c: Frame)
    requires OpenTables(w) && IsRoot(w.tags, src) && src in w.mem
    ensures OpenTables(ClonedWorld(w, src, c))
  {
    var w' := ClonedWorld(w, src, c);
    forall f, i | f in w'.tags && w'.tags[f].level < 3 && At(w'.mem, f, i).Present?
      ensures Open(At(w'.mem, f, i).flags)
    {
      if f == c {
        assert At(w'.mem, c, i) == At(w.mem, src, i);
      } else {
        assert At(w'.mem, f, i) == At(w.mem, f, i);
      }
    }
  }

  /** The root that is copied: the active one on x86_64, the kernel's own on AArch64. */
  function CloneSource(arch: Arch, active: Frame, kroot: Frame): Frame {
    if arch.X86_64? then active else kroot
  }

  /** Zeroes frame `c` and copies the entries of table `src` into it one by one. */
  method CopyTable(m: Machine, src: Frame, c: Frame)
    requires IsTable(m.mem, src) && c != src
    modifies m`mem
    ensures m.mem == old(m.mem)[c := old(m.mem)[src]]
  {
    ghost var mem0 := m.mem;
    m.mem := m.mem[c := EmptyTable()];
    for i := 0 to ENTRIES
      invariant m.mem.Keys == mem0.Keys + {c} && IsTable(m.mem, c)
      invariant forall f :: f in mem0 && f != c ==> m.mem[f] == mem0[f]
      invariant forall j :: 0 <= j < i ==> m.mem[c].entries[j] == mem0[src].entries[j]
    {
      m.mem := SetEntry(m.mem, c, i, At(m.mem, src, i));
    }
    assert m.mem[c].entries == mem0[src].entries;
  }

  /** A new top-level table holding a copy of all 512 entries of the source root. */
  method CreateProcessPageTable(m: Machine) returns (r: Option<Frame>)
    requires SpacesValid(m)
    requires IsRoot(m.tags, CloneSource(m.arch, m.active, m.kroot))
    modifies m`mem, m`tags, m.pmm.bitmap
    ensures SpacesValid(m) && m.pages == old(m.pages)
    ensures r.None? <==> old(m.pmm.FreeSet()) == {}
    ensures r.None? ==> m.W() == old(m.W())
    ensures r.Some? ==> r.value in old(m.pmm.FreeSet())
    ensures r.Some? ==> forall i :: 0 <= i < ENTRIES ==>
              At(m.mem, r.value, i) == old(At(m.mem, if m.arch == X86_64 then m.active else m.kroot, i))
    ensures r.Some? ==>
              var src := CloneSource(m.arch, m.active, m.kroot);
              && src in old(m.mem) && m.mem == old(m.mem)[r.value := old(m.mem)[src]]
              && (KernelSlots(old(m.W()), m.kroot, src) ==> m.W() == ClonedWorld(old(m.W()), src, r.value))
  {
    hide Sound, Owned, KernelSlots, Tree, IsRoot;
    ghost var w, pages, cap := m.W(), m.pages, m.pmm.Capacity();
    var frame := m.AllocFrame();
    if frame.None? {
      assert m.W() == w;
      return None;
    }
    var c := frame.value;
    var src := CloneSource(m.arch, m.active, m.kroot);
    RootIsTable(w, m.kroot, src);
    CopyTable(m, src, c);
    if KernelSlots(w, m.kroot, src) {
      CloneTree(w, m.kroot, src, c);
      CloneOwned(w, pages, m.kroot, cap, src, c);
      m.tags := m.tags[c := Tag(c, 0, 0, c)];
      assert m.W() == ClonedWorld(w, src, c);
    } else {
      OwnedTake(w, m.kroot, pages, cap, c, w.mem[src]);
      assert m.W() == World(w.mem[c := w.mem[src]], w.tags, w.free - {c});
    }
    r := Some(c);
  }

  lemma RootIsTable(w: World, kroot: Frame, r: Frame)
    requires Sound(w, kroot) && IsRoot(w.tags, r)
    ensures IsTable(w.mem, r) && r !in w.free
  {
  }

  /** Teardown of `root` leaves every table of the kernel allocated. */
  ghost predicate SparesKernel(w: World, kroot: Frame, root: Frame, cap: nat) {
    forall f :: f in w.tags && w.tags[f].space == kroot ==> f !in FreedInto(w.free, TeardownOrder(w.mem, root), cap)
  }

  /** Creating a process from a root and tearing it down again leaves every table of the kernel
      allocated if and only if that root uses slot 0 only. The roots that the bootloader builds for
      x86_64 use the upper half as well. */
  lemma CloneSparesIff(w: World, pages: Tags, kroot: Frame, cap: nat, src: Frame, c: Frame)
    requires Sound(w, kroot) && Owned(w, kroot, pages, cap) && IsRoot(w.tags, src) && c in w.free && c != kroot
    requires KernelSlots(w, kroot, src) && forall f :: f in w.tags && w.tags[f].space == kroot ==> 0 < f < cap
    ensures src in w.mem && Sound(ClonedWorld(w, src, c), kroot)
    ensures SparesKernel(ClonedWorld(w, src, c), kroot, c, cap) <==>
            forall i :: 1 <= i < ENTRIES ==> At(w.mem, src, i).Absent?
  {
    hide Sound, Owned, KernelSlots, TeardownOrder, FreedInto, Kept, Accounted, OwnSlots;
    CloneTree(w, kroot, src, c);
    CloneOwned(w, pages, kroot, cap, src, c);
    var w' := ClonedWorld(w, src, c);
    TeardownSparesKernel(w', pages, kroot, cap, c);
    ClonedSlots(w, kroot, src, c);
  }

  /** A clone shares every slot its source uses with the kernel. */
  lemma ClonedSlots(w: World, kroot: Frame, src: Frame, c: Frame)
    requires Sound(w, kroot) && IsRoot(w.tags, src) && src in w.mem && c in w.free && KernelSlots(w, kroot, src)
    ensures OwnSlots(ClonedWorld(w, src, c), kroot, c) <==> forall i :: 1 <= i < ENTRIES ==> At(w.mem, src, i).Absent?
  {
    hide Tree;
    var w' := ClonedWorld(w, src, c);
    forall i | 1 <= i < ENTRIES ensures OwnSlot(w', kroot, c, i) <==> At(w.mem, src, i).Absent? {
      assert KernelSlot(w, kroot, src, i);
      assert At(w'.mem, c, i) == At(w.mem, src, i);
    }
  }

  // ---------------------------------------------------------------------------
  // Teardown of a recorded space
  // ---------------------------------------------------------------------------

  ghost function Without(tags: Tags, s: Frame): Tags {
    map f | f in tags && tags[f].space != s :: tags[f]
  }

  ghost function ReapedWorld(w: World, pages: Tags, s: Frame): World {
    World(w.mem, Without(w.tags, s), w.free + SpaceFrames(w, pages, s))
  }

  lemma ReapTree(w: World, pages: Tags, kroot: Frame, cap: nat, s: Frame)
    requires Sound(w, kroot) && Owned(w, kroot, pages, cap) && s != kroot
    ensures Sound(ReapedWorld(w, pages, s), kroot)
  {
    var w' := ReapedWorld(w, pages, s);
    forall f, i | f in w'.tags && w'.tags[f].level < 3 && 0 <= i < ENTRIES
        ensures ForwardAt(w'.mem, kroot, w'.tags, f, i) {
      assert ForwardAt(w.mem, kroot, w.tags, f, i);
    }
    forall c | c in w'.tags ensures BackwardAt(w'.mem, w'.tags, c) {
      assert BackwardAt(w.mem, w.tags, c);
    }
  }

  lemma ReapOwned(w: World, pages: Tags, kroot: Frame, cap: nat, s: Frame)
    requires Sound(w, kroot) && Owned(w, kroot, pages, cap) && s != kroot
    ensures Owned(ReapedWorld(w, pages, s), kroot, Without(pages, s), cap)
  {
    var w' := ReapedWorld(w, pages, s);
    var pages' := Without(pages, s);
    forall t, i | t in w'.tags && w'.tags[t].level == 3 && w'.tags[t].space != kroot && 0 <= i < ENTRIES
      ensures LeafOwned(w', pages', t, i)
    {
      assert LeafOwned(w, pages, t, i);
    }
    forall d | d in pages' ensures PageLinked(w', kroot, pages', d) {
      assert PageLinked(w, kroot, pages, d);
    }
  }

  lemma ReapKept(w: World, pages: Tags, kroot: Frame, cap: nat, s: Frame)
    requires Sound(w, kroot) && Owned(w, kroot, pages, cap)
    ensures Kept(w, pages, ReapedWorld(w, pages, s), Without(pages, s), {s})
  {
  }

  lemma ReapAccounted(w: World, pages: Tags, s: Frame)
    ensures Accounted(ReapedWorld(w, pages, s), Without(pages, s)) == Accounted(w, pages)
  {
    var w' := ReapedWorld(w, pages, s);
    forall f ensures f in Accounted(w', Without(pages, s)) <==> f in Accounted(w, pages) {
    }
  }

  /** Tearing down a process frees each of its frames once, nothing else, and forgets the space. */
  method ReapProcess(m: Machine, root: Frame) returns (ghost freed: seq<Frame>)
    requires SpacesValid(m) && IsRoot(m.tags, root) && root != m.kroot && PrivateSlots(m.W(), m.kroot, root)
    modifies m`tags, m`pages, m.pmm.bitmap
    ensures SpacesValid(m)
    ensures NoRepeat(freed) && forall f :: f in freed <==> f in SpaceFrames(old(m.W()), old(m.pages), root)
    ensures forall f :: f in freed ==> f !in old(m.pmm.FreeSet())
    ensures m.W() == ReapedWorld(old(m.W()), old(m.pages), root) && m.pages == Without(old(m.pages), root)
    ensures Kept(old(m.W()), old(m.pages), m.W(), m.pages, {root})
    ensures Accounted(m.W(), m.pages) == old(Accounted(m.W(), m.pages))
  {
    hide Sound, Owned, Kept, PrivateSlots, Accounted, TeardownOrder;
    ghost var w, pages, cap := m.W(), m.pages, m.pmm.Capacity();
    freed := FreeProcessPageTable(m, root);
    TeardownExact(w, pages, m.kroot, cap, root);
    ReapTree(w, pages, m.kroot, cap, root);
    ReapOwned(w, pages, m.kroot, cap, root);
    ReapKept(w, pages, m.kroot, cap, root);
    ReapAccounted(w, pages, root);
    m.tags := Without(m.tags, root);
    m.pages := Without(m.pages, root);
    NoZero(w, pages, root, cap, m.kroot);
    assert m.pmm.FreeSet() == w.free + SpaceFrames(w, pages, root);
  }

  lemma NoZero(w: World, pages: Tags, root: Frame, cap: nat, kroot: Frame)
    requires Owned(w, kroot, pages, cap) && root != kroot
    ensures 0 !in SpaceFrames(w, pages, root)
  {
  }
}
