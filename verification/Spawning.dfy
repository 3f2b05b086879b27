/** Spawning a process from an ELF file: a new root, the image, the stack, and a task to own them; and
    what is left behind when one of these fails. */
module Spawning {
  import opened Basics
  import opened PageTables
  import opened Worlds
  import opened Vmm
  import opened Spaces
  import opened LoadRuns
  import opened UserMemory
  import opened Teardown
  import opened Processes
  import opened SlotZero
  import opened Lifetime
  import opened Elf
  import opened Scheduler

  /** The frame belongs to an address space that a task slot owns, and so will be given back. */
  ghost predicate HasOwner(s: Sched, w: World, pages: Tags, f: Frame) {
    exists i :: 0 <= i < |s.tasks| && s.tasks[i].ownsRoot && f in SpaceFrames(w, pages, s.tasks[i].root)
  }

  /** Every frame that left the free set `free` is a table of the kernel or has an owner. */
  ghost predicate NoLeak(free: set<Frame>, w: World, pages: Tags, kroot: Frame, s: Sched) {
    forall f :: f in free && f !in w.free ==> f in KernelTables(w, kroot) || HasOwner(s, w, pages, f)
  }

  /** The roots that slots own are roots. */
  ghost predicate OwnersAreRoots(s: Sched, w: World) {
    forall i :: 0 <= i < |s.tasks| && s.tasks[i].ownsRoot ==> IsRoot(w.tags, s.tasks[i].root)
  }

  /** A new root `c` is loaded by `run`, starting from a clone of `src`. */
  ghost predicate Built(w0: World, pages0: Tags, src: Frame, c: Frame, run: seq<PageLoad>, w: World, pages: Tags,
                        kroot: Frame, cap: nat)
    requires src in w0.mem
  {
    && c in w0.free && LoadRun(ClonedWorld(w0, src, c), pages0, run, w, pages, kroot, cap, c)
    && Charged(ClonedWorld(w0, src, c), pages0, run, w, pages, kroot, c)
  }

  ghost function LostBuilding(w0: World, src: Frame, c: Frame, run: seq<PageLoad>, kroot: Frame): set<Frame>
    requires src in w0.mem
  {
    LostIn(ClonedWorld(w0, src, c), run, kroot, c)
  }

  /** Where the frames are after a root was built, in part or whole: free, in the space of that root,
      lost, or tables of the kernel. */
  lemma FramesAfter(w0: World, pages0: Tags, src: Frame, c: Frame, run: seq<PageLoad>, w: World, pages: Tags,
                    kroot: Frame, cap: nat)
    requires Sound(w0, kroot) && Owned(w0, kroot, pages0, cap) && IsRoot(w0.tags, src) && src in w0.mem
    requires Built(w0, pages0, src, c, run, w, pages, kroot, cap) && c != kroot
    requires Sound(w, kroot) && Owned(w, kroot, pages, cap)
    ensures var lost := LostBuilding(w0, src, c, run, kroot);
            && w.free == w0.free - SpaceFrames(w, pages, c) - lost - KernelTables(w, kroot)
            && lost <= w0.free && lost !! Accounted(w, pages)
    ensures c in w0.free && c in w.tags && w.tags[c] == Tag(c, 0, 0, c)
  {
    hide Sound, Owned, Elsewhere, Separate, LinksKept, LoadRun, LostIn, Accounted, SpaceFrames, KernelTables, Kept;
    var w1, lost := ClonedWorld(w0, src, c), LostBuilding(w0, src, c, run, kroot);
    CloneOwned(w0, pages0, kroot, cap, src, c);
    FreeShrinks(w1, pages0, w, pages, kroot, cap, lost);
    OwnedPages(w, kroot, pages, cap);
    OnlyOwnFrames(w0, pages0, w1, w, pages, kroot, cap, c);
    FreeApart(w0, pages0, kroot, cap);
    FreeApart(w, pages, kroot, cap);
    FreeLeft(w0, pages0, w, pages, kroot, c, lost);
  }

  lemma FreeLeft(w0: World, pages0: Tags, w: World, pages: Tags, kroot: Frame, c: Frame, lost: set<Frame>)
    requires w0.free !! w0.tags.Keys && w0.free !! pages0.Keys && w.free !! w.tags.Keys && w.free !! pages.Keys
    requires Accounted(w, pages) == Accounted(w0, pages0) - lost && w.free <= w0.free
    requires forall f :: f in w.tags && f !in w0.tags ==> w.tags[f].space == c || w.tags[f].space == kroot
    requires forall f :: f in pages && f !in pages0 ==> pages[f].space == c
    ensures w.free == w0.free - SpaceFrames(w, pages, c) - lost - KernelTables(w, kroot) && lost !! Accounted(w, pages)
  {
    forall f ensures f in w.free <==> f in w0.free - SpaceFrames(w, pages, c) - lost - KernelTables(w, kroot) {
      assert f in Accounted(w, pages) <==> f in Accounted(w0, pages0) && f !in lost;
    }
  }

  /** A table or page that was not there before belongs to the new root or to the kernel. */
  lemma OnlyOwnFrames(w0: World, pages0: Tags, w1: World, w: World, pages: Tags, kroot: Frame, cap: nat, c: Frame)
    requires w1.tags == w0.tags[c := Tag(c, 0, 0, c)] && Kept(w1, pages0, w, pages, {c, kroot})
    requires NoKernelPages(pages, kroot)
    ensures forall f :: f in w.tags && f !in w0.tags ==> w.tags[f].space == c || w.tags[f].space == kroot
    ensures forall f :: f in pages && f !in pages0 ==> pages[f].space == c
  {
    forall f | f in w.tags && f !in w0.tags ensures w.tags[f].space == c || w.tags[f].space == kroot {
      assert w.tags[f].space !in {c, kroot} ==> f in w1.tags;
    }
    forall f | f in pages && f !in pages0 ensures pages[f].space == c {
      assert pages[f].space !in {c, kroot} ==> f in pages0;
    }
  }

  /** A root that no task came to own leaks with all its frames, and so do lost frames; nothing else
      does. */
  lemma LeakIff(w0: World, pages0: Tags, src: Frame, c: Frame, run: seq<PageLoad>, w: World, pages: Tags,
                kroot: Frame, cap: nat, s: Sched, s': Sched, ok: bool)
    requires Sound(w0, kroot) && Owned(w0, kroot, pages0, cap) && IsRoot(w0.tags, src) && src in w0.mem
    requires Built(w0, pages0, src, c, run, w, pages, kroot, cap) && c != kroot
    requires Sound(w, kroot) && Owned(w, kroot, pages, cap)
    requires Shaped(s) && OwnersAreRoots(s, w0)
    requires if ok then (s', true) == SpawnStep(s, IsolatedProcess, USER_STACK_TOP, Some(c)) else s' == s
    ensures NoLeak(w0.free, w, pages, kroot, s') <==> ok && LostBuilding(w0, src, c, run, kroot) == {}
  {
    hide Sound, Owned, Built, SpawnStep, Accounted, NoLeak, HasOwner, LostBuilding;
    var lost := LostBuilding(w0, src, c, run, kroot);
    FramesAfter(w0, pages0, src, c, run, w, pages, kroot, cap);
    if !ok {
      Orphan(w0, pages0, kroot, cap, c, w, pages, s);
    } else if f :| f in lost {
      LostForGood(w0, w, pages, kroot, s', f);
    } else {
      var i := Registered(s, s', c);
      AllOwned(w0, w, pages, kroot, s', c, i);
    }
  }

  lemma Registered(s: Sched, s': Sched, c: Frame) returns (i: nat)
    requires Shaped(s) && (s', true) == SpawnStep(s, IsolatedProcess, USER_STACK_TOP, Some(c))
    ensures i < |s'.tasks| && s'.tasks[i].ownsRoot && s'.tasks[i].root == c
  {
    i := FirstFree(s.tasks, 0).value;
  }

  lemma AllOwned(w0: World, w: World, pages: Tags, kroot: Frame, s: Sched, c: Frame, i: nat)
    requires w.free == w0.free - SpaceFrames(w, pages, c) - {} - KernelTables(w, kroot)
    requires i < |s.tasks| && s.tasks[i].ownsRoot && s.tasks[i].root == c
    ensures NoLeak(w0.free, w, pages, kroot, s)
  {
    hide SpaceFrames, KernelTables;
  }

  lemma LostForGood(w0: World, w: World, pages: Tags, kroot: Frame, s: Sched, f: Frame)
    requires f in w0.free && f !in Accounted(w, pages)
    ensures !NoLeak(w0.free, w, pages, kroot, s)
  {
    assert f !in KernelTables(w, kroot) && !HasOwner(s, w, pages, f);
  }

  lemma Orphan(w0: World, pages0: Tags, kroot: Frame, cap: nat, c: Frame, w: World, pages: Tags, s: Sched)
    requires Sound(w0, kroot) && c in w0.free && c != kroot && c in w.tags && w.tags[c] == Tag(c, 0, 0, c)
    requires Sound(w, kroot) && Owned(w, kroot, pages, cap) && OwnersAreRoots(s, w0)
    ensures !NoLeak(w0.free, w, pages, kroot, s)
  {
    hide Tree;
    assert c !in w.free && c !in KernelTables(w, kroot) && c !in pages && !HasOwner(s, w, pages, c);
  }

  /** A clone of `src` can be made and the planned pages loaded into it. */
  ghost predicate CloneFits(w: World, src: Frame, plan: seq<nat>) {
    && PageAligned(plan) && Distinct(plan) && Vacant(w.mem, src, plan)
    && 1 + Need(w.mem, src, PlanPages(plan)) <= |w.free|
  }

  /** A slot is free for a new task. */
  ghost predicate SlotFree(s: Sched) {
    exists i :: 0 <= i < |s.tasks| && s.tasks[i].state.Terminated?
  }

  /** What fits into a clone was decided before it was made. */
  lemma FitsBefore(w: World, kroot: Frame, src: Frame, c: Frame, plan: seq<nat>)
    requires Sound(w, kroot) && IsRoot(w.tags, src) && src in w.mem && c in w.free
    ensures Fits(ClonedWorld(w, src, c), c, plan) <==> CloneFits(w, src, plan)
  {
    hide Sound, Walk, Vpn, MissingTables, Flat;
    var w' := ClonedWorld(w, src, c);
    CloneWalks(w, kroot, src, c);
    forall v | 0 <= v < VPN_LIMIT ensures Walk(w'.mem, c, v).Absent? <==> Walk(w.mem, src, v).Absent? {
      InFlat(w.mem, src, v);
      InFlat(w'.mem, c, v);
    }
    PlanBound(plan);
    MissingInClone(w, kroot, src, c, PlanPages(plan));
    assert |w'.free| == |w.free| - 1;
  }

  lemma PlanBound(plan: seq<nat>)
    ensures forall v :: v in PlanPages(plan) ==> v < VPN_LIMIT
  {
  }

  lemma MissingInClone(w: World, kroot: Frame, src: Frame, c: Frame, vs: set<nat>)
    requires Sound(w, kroot) && IsRoot(w.tags, src) && src in w.mem && c in w.free
    requires forall v :: v in vs ==> v < VPN_LIMIT
    ensures MissingTables(ClonedWorld(w, src, c).mem, c, vs) == MissingTables(w.mem, src, vs)
  {
    hide Sound, TableOf, ClonedWorld;
    var mem' := ClonedWorld(w, src, c).mem;
    forall v, level | v in vs && 1 <= level <= 3
      ensures TableOf(mem', c, v, level) == TableOf(w.mem, src, v, level)
    {
      ClonePath(w, kroot, src, c, v, level);
    }
  }

  /** Spawns a process from an ELF file. The frames taken go to the space of the new root and, one by
      one, to failed mappings and to the kernel's half; they all have an owner afterwards, or are tables
      of the kernel, if and only if the call succeeds without losing a frame, or no root could be
      allocated, when nothing changes at all. The call succeeds if and only if the file is in order, its
      pages and the stack are different and unmapped in the root that is cloned, there are frames for
      them, their tables and the root, and a slot is free. A file whose pages lie in slots the kernel's root leaves
      empty loses no frame when it succeeds, and touches no other space in any case. */
  method SpawnFromElf(m: Machine, t: TaskTable, elf: seq<Byte>)
    returns (ok: bool, root: Option<Frame>, built: bool, ghost run: seq<PageLoad>)
    requires SpacesValid(m) && t.Valid() && m.active == t.register && |elf| < 0x8000_0000_0000_0000
    requires IsRoot(m.tags, m.active) && IsRoot(m.tags, m.kroot) && OwnersAreRoots(t.State(), m.W())
    requires KernelSlots(m.W(), m.kroot, CloneSource(m.arch, m.active, m.kroot))
    modifies m`mem, m`tags, m`pages, m.pmm.bitmap, t`initialized, t.tasks
    ensures SpacesValid(m) && t.Valid()
    ensures root.None? <==> old(m.pmm.FreeSet()) == {}
    ensures root.None? ==> !ok && m.W() == old(m.W()) && m.pages == old(m.pages) && t.State() == old(t.State())
    ensures root.Some? ==>
              var src := CloneSource(m.arch, m.active, m.kroot);
              && src in old(m.mem)
              && Built(old(m.W()), old(m.pages), src, root.value, run, m.W(), m.pages, m.kroot, m.pmm.Capacity())
              && m.pmm.FreeSet() == old(m.pmm.FreeSet()) - SpaceFrames(m.W(), m.pages, root.value)
                                    - LostBuilding(old(m.W()), src, root.value, run, m.kroot)
                                    - KernelTables(m.W(), m.kroot)
              && (NoLeak(old(m.pmm.FreeSet()), m.W(), m.pages, m.kroot, t.State()) <==>
                  ok && LostBuilding(old(m.W()), src, root.value, run, m.kroot) == {})
              && Touched(run) <= AllPages(ProcessSegments(elf))
              && (built ==> AllMapped(run) &&
                            ImageInv(ClonedWorld(old(m.W()), src, root.value), old(m.pages), m.W(), m.pages, m.kroot,
                                     root.value, ProcessSegments(elf)))
              && (if built then
                    (t.State(), ok) == SpawnStep(old(t.State()), IsolatedProcess, USER_STACK_TOP, root)
                  else !ok && t.State() == old(t.State()))
    ensures root.Some? ==>
            (built <==>
             && Accepted(elf, m.arch)
             && CloneFits(old(m.W()), CloneSource(m.arch, m.active, m.kroot), ImagePlan(ProcessSegments(elf))))
    ensures ok <==>
            && Accepted(elf, m.arch) && SlotFree(old(t.State()))
            && CloneFits(old(m.W()), CloneSource(m.arch, m.active, m.kroot), ImagePlan(ProcessSegments(elf)))
    ensures PrivatePages(old(m.W()), m.kroot, AllPages(ProcessSegments(elf))) ==>
              && (NoLeak(old(m.pmm.FreeSet()), m.W(), m.pages, m.kroot, t.State()) <==> ok || root.None?)
              && (root.Some? ==> Kept(old(m.W()), old(m.pages), m.W(), m.pages, {root.value}))
  {
    hide Sound, Owned, KernelSlots, ClonedWorld, LoadRun, Charged, ImageInv, SpawnStep, AllPages, Touched,
         ProcessSegments, AllMapped, OwnersAreRoots, SpaceFrames, KernelTables, NoLeak, LostBuilding, Accepted, Fits,
         CloneFits, ImagePlan, SlotFree;
    ghost var w0, pages0, cap, s0 := m.W(), m.pages, m.pmm.Capacity(), t.State();
    ghost var src := CloneSource(m.arch, m.active, m.kroot);
    RootIsTable(w0, m.kroot, m.kroot);
    RootIsTable(w0, m.kroot, src);
    root := CreateProcessPageTable(m);
    var target := if root.Some? then root.value else t.register;
    CloneIsRoot(w0, m.W(), src, root, target);
    ghost var w1 := m.W();
    var r;
    r, run := BuildProcessImage(m, elf, target);
    ok, built := false, r.Loaded?;
    if root.None? {
      EmptyPool(w0, pages0, run, m.W(), m.pages, m.kroot, cap, target);
      if r.Loaded? {
        StackNeedsFrames(elf, run);
        assert false;
      }
      NothingTaken(w0, pages0, m.kroot, s0);
      NoneFits(w0, src, ImagePlan(ProcessSegments(elf)));
      return;
    }
    FitsBefore(w0, m.kroot, src, root.value, ImagePlan(ProcessSegments(elf)));
    SlotDecides(s0, root);
    if r.Loaded? {
      ok := t.Spawn(IsolatedProcess, USER_STACK_TOP, root);
      NoSlotNoChange(s0, root);
    }
    FramesAfter(w0, pages0, src, root.value, run, m.W(), m.pages, m.kroot, cap);
    LeakIff(w0, pages0, src, root.value, run, m.W(), m.pages, m.kroot, cap, s0, t.State(), ok);
    if PrivatePages(w0, m.kroot, AllPages(ProcessSegments(elf))) {
      PrivateBuild(w0, pages0, src, root.value, run, m.W(), m.pages, m.kroot, cap, AllPages(ProcessSegments(elf)));
    }
  }

  lemma NoneFits(w: World, src: Frame, plan: seq<nat>)
    requires w.free == {}
    ensures !CloneFits(w, src, plan)
  {
  }

  lemma SlotDecides(s: Sched, root: Option<Frame>)
    requires Shaped(s)
    ensures SpawnStep(s, IsolatedProcess, USER_STACK_TOP, root).1 <==> SlotFree(s)
  {
  }

  lemma NothingTaken(w: World, pages: Tags, kroot: Frame, s: Sched)
    ensures NoLeak(w.free, w, pages, kroot, s)
  {
  }

  lemma PrivateBuild(w0: World, pages0: Tags, src: Frame, c: Frame, run: seq<PageLoad>, w: World, pages: Tags,
                     kroot: Frame, cap: nat, vs: set<nat>)
    requires Sound(w0, kroot) && Owned(w0, kroot, pages0, cap) && IsRoot(w0.tags, src) && src in w0.mem
    requires Built(w0, pages0, src, c, run, w, pages, kroot, cap) && c != kroot
    requires PrivatePages(w0, kroot, vs) && Touched(run) <= vs
    ensures Kept(w0, pages0, w, pages, {c})
    ensures AllMapped(run) ==> LostBuilding(w0, src, c, run, kroot) == {}
  {
    hide Sound, Owned, Elsewhere, Standing, Separate, LoadRun, LostIn, Accounted, Kept, Touched, AllMapped;
    CloneOwned(w0, pages0, kroot, cap, src, c);
    KeptTrans(w0, pages0, ClonedWorld(w0, src, c), pages0, w, pages, {c});
  }

  lemma NoSlotNoChange(s: Sched, root: Option<Frame>)
    requires Shaped(s)
    ensures !SpawnStep(s, IsolatedProcess, USER_STACK_TOP, root).1 ==>
            SpawnStep(s, IsolatedProcess, USER_STACK_TOP, root).0 == s
  {
  }

  lemma CloneIsRoot(w: World, w': World, src: Frame, root: Option<Frame>, target: Frame)
    requires src in w.mem
    requires if root.Some? then target == root.value && w' == ClonedWorld(w, src, target)
             else w' == w && IsRoot(w.tags, target)
    ensures IsRoot(w'.tags, target)
  {
  }

  /** A process image is never empty: it has a stack. */
  lemma StackNeedsFrames(elf: seq<Byte>, run: seq<PageLoad>)
    requires Touched(run) == AllPages(ProcessSegments(elf))
    ensures run != []
  {
    hide FileSegments;
    AllPagesMore(FileSegments(elf), StackSegment());
    assert PageOf(Start(StackSegment()), 0) in SegPages(StackSegment());
  }
}
