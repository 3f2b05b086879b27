/** The kernel's own calls as steps of the whole-kernel machine: the task table and the memory system
    driven together. */
module KernelCalls {
  import opened Basics
  import opened PageTables
  import opened Worlds
  import opened Vmm
  import opened Spaces
  import opened UserMemory
  import opened Teardown
  import opened Processes
  import opened SlotZero
  import opened LoadRuns
  import opened Scheduler
  import opened SchedulerRuns
  import opened Kernel
  import Elf
  import KernelRoot
  import Lifetime
  import Pmm
  import Spawning

  /** The machine and the task table are in state `k`, which satisfies the invariant. */
  ghost predicate Runs(m: Machine, t: TaskTable, k: Kernel, all: set<Frame>)
    reads m, m.pmm, m.pmm.bitmap, t, t.tasks
  {
    && SpacesValid(m) && t.Valid() && m.arch.AArch64?
    && k.w == m.W() && k.pages == m.pages && k.y.s == t.State() && m.active == t.register
    && Inv(k, m.kroot, m.pmm.Capacity(), all)
  }

  /** `create_process_page_table` is a step that creates a root. */
  method CreateRoot(m: Machine, t: TaskTable, ghost k: Kernel, ghost all: set<Frame>)
      returns (root: Option<Frame>, ghost k': Kernel)
    requires Runs(m, t, k, all)
    modifies m`mem, m`tags, m.pmm.bitmap
    ensures Runs(m, t, k', all)
    ensures root.None? <==> k.w.free == {}
    ensures root.None? ==> k' == k
    ensures root.Some? ==>
            Step(k, Create(root.value), k', m.kroot, m.pmm.Capacity()) && k'.building == k.building + {root.value}
  {
    hide Inv, Sound, Owned, KernelSlots, ClonedWorld;
    Facts(k, m.kroot, m.pmm.Capacity(), all);
    KernelRootSlots(k.w, m.kroot);
    root := CreateProcessPageTable(m);
    k' := k;
    if root.Some? {
      k' := k.(w := m.W(), building := k.building + {root.value});
      StepKeeps(k, Create(root.value), k', m.kroot, m.pmm.Capacity(), all);
    }
  }

  /** What the calls need of the invariant. */
  lemma Facts(k: Kernel, kroot: Frame, cap: nat, all: set<Frame>)
    requires Inv(k, kroot, cap, all)
    ensures Sound(k.w, kroot) && Owned(k.w, kroot, k.pages, cap) && SupervisorKernel(k.w, kroot) &&
            IsRoot(k.w.tags, kroot)
    ensures Shaped(k.y.s) && (k.y.s.register == kroot || k.y.s.register in k.y.live) && IsRoot(k.w.tags, k.y.s.register)
    ensures forall r :: r in k.building ==> IsRoot(k.w.tags, r)
  {
    ActiveIsLive(k, kroot, cap, all);
    hide Sound, Owned, SupervisorKernel, Ownership, Ids, Books, Recorded, ZeroLinked;
    forall r | r in k.building ensures IsRoot(k.w.tags, r) {
      assert r in Roots(k);
      assert ProcessRoot(k.w, kroot, r);
    }
  }

  ghost function FilledState(k: Kernel, w: World, pages: Tags, kroot: Frame, root: Frame, va: nat,
                             r: FreshMap): Kernel {
    k.(w := w, pages := pages, lost := k.lost + LostBy(k.w, kroot, root, va, r))
  }

  /** A page fault is a step that fills a page of the active space, wherever it is; one that maps a page
      keeps the invariant if and only if it is harmless. */
  method PageFault(m: Machine, t: TaskTable, addr: nat, isUser: bool, ghost k: Kernel, ghost all: set<Frame>)
    returns (handled: bool, ghost a: Action, ghost k': Kernel)
    requires Runs(m, t, k, all) && addr < UPPER_HALF
    modifies m`mem, m`tags, m`pages, m.pmm.bitmap
    ensures SpacesValid(m) && t.Valid() && a.Fill? && handled == a.outcome.Mapped? && k'.w == m.W()
    ensures a == Fill(k.y.s.register, addr / PAGE_SIZE * PAGE_SIZE, MapFlags(true, isUser, false, false), a.outcome)
    ensures Step(k, a, k', m.kroot, m.pmm.Capacity()) && k'.building == k.building
    ensures Harmless(m.kroot, m.active, addr, DemandFlags(isUser)) ==> Runs(m, t, k', all) && Tame(m.kroot, a)
    ensures handled ==> (Runs(m, t, k', all) <==> Harmless(m.kroot, m.active, addr, DemandFlags(isUser)))
  {
    hide Inv, Sound, Owned, FreshStep, Tame, Low, Vpn;
    Facts(k, m.kroot, m.pmm.Capacity(), all);
    handled := HandlePageFault(m, m.active, addr, false, isUser);
    ghost var va := addr / PAGE_SIZE * PAGE_SIZE;
    Lifetime.AlignedVpn(addr);
    ghost var r :| FreshStep(k.w, k.pages, m.W(), m.pages, m.kroot, m.active, va, DemandFlags(isUser), r) &&
        (handled <==> r.Mapped?);
    a, k' := Fill(m.active, va, DemandFlags(isUser), r), FilledState(k, m.W(), m.pages, m.kroot, m.active, va, r);
    FillOutcome(k, k', m.kroot, m.pmm.Capacity(), all, m.active, va, DemandFlags(isUser), r);
  }

  lemma FillOutcome(k: Kernel, k': Kernel, kroot: Frame, cap: nat, all: set<Frame>, root: Frame, va: nat,
                    flags: MapFlags, r: FreshMap)
    requires Inv(k, kroot, cap, all) && Shaped(k.y.s) && Step(k, Fill(root, va, flags, r), k', kroot, cap)
    ensures Harmless(kroot, root, va, flags) ==> Inv(k', kroot, cap, all) && Tame(kroot, Fill(root, va, flags, r))
    ensures r.Mapped? ==> (Inv(k', kroot, cap, all) <==> Harmless(kroot, root, va, flags))
  {
    hide Inv, Step, Low;
    if Harmless(kroot, root, va, flags) {
      StepKeeps(k, Fill(root, va, flags, r), k', kroot, cap, all);
    } else if r.Mapped? {
      StepKeepsIff(k, Fill(root, va, flags, r), k', kroot, cap, all);
    }
  }

  /** Mapping a page for a root being built, as the loader and the stack allocator do. */
  method LoadPage(m: Machine, t: TaskTable, root: Frame, va: nat, flags: MapFlags, ghost k: Kernel,
                  ghost all: set<Frame>)
    returns (r: FreshMap, ghost k': Kernel)
    requires Runs(m, t, k, all) && root in k.building
    modifies m`mem, m`tags, m`pages, m.pmm.bitmap
    ensures SpacesValid(m) && t.Valid() && k'.w == m.W() && k'.pages == m.pages && k'.building == k.building
    ensures Step(k, Fill(root, va, flags, r), k', m.kroot, m.pmm.Capacity())
    ensures Harmless(m.kroot, root, va, flags) ==>
            Runs(m, t, k', all) && Tame(m.kroot, Fill(root, va, flags, r))
    ensures r.Mapped? ==> (Runs(m, t, k', all) <==> Harmless(m.kroot, root, va, flags))
    ensures r.Mapped? && !Low(Vpn(va)) ==> r.frame in k'.pages && k'.pages[r.frame].space == root
  {
    hide Inv, Sound, Owned, FreshStep, Tame, Low, Vpn;
    Facts(k, m.kroot, m.pmm.Capacity(), all);
    r := MapZeroed(m, root, va, flags);
    k' := FilledState(k, m.W(), m.pages, m.kroot, root, va, r);
    FillOutcome(k, k', m.kroot, m.pmm.Capacity(), all, root, va, flags, r);
    if r.Mapped? && !Low(Vpn(va)) {
      NewPage(k, k', m.kroot, m.pmm.Capacity(), all, root, va, flags, r);
    }
  }

  /** A page of the user half is recorded for the root it is mapped in. */
  lemma NewPage(k: Kernel, k': Kernel, kroot: Frame, cap: nat, all: set<Frame>, root: Frame, va: nat, flags: MapFlags,
                r: FreshMap)
    requires Inv(k, kroot, cap, all) && Filled(k, k', kroot, cap, root, va, flags, r) && root in k.building
    requires r.Mapped? && !Low(Vpn(va))
    ensures r.frame in k'.pages && k'.pages[r.frame].space == root && LostBy(k.w, kroot, root, va, r) == {}
  {
    hide Ownership, Ids, Books, MemoryInv, Sound, Owned, Kept, Persist, OthersUntouched, OtherSlotsKept, Accounted,
         MapOutcome, Flat, PathSpace, Low, Vpn;
    FillKeeps(k.w, k.pages, k'.w, k'.pages, kroot, cap, Roots(k), root, va, flags, r);
  }

  /** The loader's copy into a page of a root being built. */
  method CopyPage(m: Machine, t: TaskTable, frame: Frame, c: Contents, ghost k: Kernel, ghost all: set<Frame>)
      returns (ghost k': Kernel)
    requires Runs(m, t, k, all) && frame in k.pages && k.pages[frame].space in k.building && c.Data? &&
             |c.bytes| == PAGE_SIZE
    modifies m`mem
    ensures Runs(m, t, k', all) && k'.building == k.building
    ensures Step(k, Copy(frame, c), k', m.kroot, m.pmm.Capacity()) && m.mem == old(m.mem)[frame := c]
  {
    hide Inv, Sound, Owned;
    m.mem := m.mem[frame := c];
    k' := k.(w := m.W());
    StepKeeps(k, Copy(frame, c), k', m.kroot, m.pmm.Capacity(), all);
    Facts(k', m.kroot, m.pmm.Capacity(), all);
  }

  /** User code has no page in the kernel's root. */
  lemma NoUserRange(w: World, kroot: Frame, ptr: nat, len: nat)
    requires Sound(w, kroot) && IsRoot(w.tags, kroot) && SupervisorKernel(w, kroot) && len > 0
    ensures !UserRange(w.mem, kroot, ptr, len, false)
  {
    hide Walk, Vpn, Sound, SupervisorKernel;
    VpnRange(ptr);
    KernelLeaf(w, kroot, Vpn(ptr));
    assert !UserByte(w.mem, kroot, ptr, false);
  }

  /** The running task is a user process that may read all of a whole number of pages. */
  ghost predicate CanRelease(k: Kernel, ptr: nat, len: nat)
    requires Shaped(k.y.s)
  {
    && ptr % 4096 == 0 && len > 0 && len % 4096 == 0 && k.y.s.tasks[k.y.s.current].isRing3
    && UserRange(k.w.mem, CallerRoot(k.y.s), ptr, len, false)
  }

  /** `munmap` by the running task is a step that releases pages of its space, or none. */
  method Munmap(m: Machine, t: TaskTable, ptr: nat, len: nat, ghost k: Kernel, ghost all: set<Frame>)
    returns (code: nat, ghost gone: set<nat>, ghost k': Kernel)
    requires Runs(m, t, k, all) && CanAct(k.y.s) && ptr < ADDRESS_LIMIT && len < ADDRESS_LIMIT
    modifies m`mem, m`pages, m.pmm.bitmap
    ensures Runs(m, t, k', all) && k'.building == k.building
    ensures code == 0 <==> CanRelease(k, ptr, len)
    ensures code != 0 ==> k' == k
    ensures gone == RangePages(ptr, len / PAGE_SIZE)
    ensures code == 0 ==> Step(k, Release(gone), k', m.kroot, m.pmm.Capacity())
  {
    hide Inv, Sound, Owned, Unmapped, UserRange, SupervisorKernel;
    Facts(k, m.kroot, m.pmm.Capacity(), all);
    CallerIsLive(k, m.kroot, m.pmm.Capacity(), all);
    if len > 0 {
      NoUserRange(k.w, m.kroot, ptr, len);
    }
    var caller := t.tasks[t.current];
    code := SysMunmap(m, caller.root, caller.isRing3, ptr, len);
    gone, k' := RangePages(ptr, len / PAGE_SIZE), k;
    if code == 0 {
      k' := k.(w := m.W(), pages := m.pages);
      StepKeeps(k, Release(gone), k', m.kroot, m.pmm.Capacity(), all);
    }
  }

  // ---------------------------------------------------------------------------
  // The task table
  // ---------------------------------------------------------------------------

  ghost function DispatchedState(k: Kernel, e: Event, w: World, pages: Tags): Kernel
    requires Shaped(k.y.s)
  {
    Kernel(Next(k.y, e), w, pages, k.building - FreshRoots(e), k.lost)
  }

  /** Spawning a task on a root that was built, or on the caller's. */
  method SpawnTask(m: Machine, t: TaskTable, mode: Mode, top: nat, root: Option<Frame>, ghost k: Kernel,
                   ghost all: set<Frame>)
    returns (ok: bool, ghost k': Kernel)
    requires Runs(m, t, k, all) && (CanAct(k.y.s) || !k.y.s.initialized)
    requires FreshRoots(Spawn(mode, top, root)) <= k.building && SharesBorrowed(k.y.s, Spawn(mode, top, root))
    modifies t`initialized, t.tasks
    ensures Runs(m, t, k', all) && Step(k, Dispatch(Spawn(mode, top, root)), k', m.kroot, m.pmm.Capacity())
    ensures k'.building == k.building - FreshRoots(Spawn(mode, top, root)) && (ok <==> Spawning.SlotFree(k.y.s))
  {
    hide Inv, Sound, Owned, SpawnStep, Spawning.SlotFree;
    SpawnedIff(k.y.s, mode, top, root);
    ok := t.Spawn(mode, top, root);
    SameRegister(k.y.s, mode, top, root);
    k' := DispatchedState(k, Spawn(mode, top, root), k.w, k.pages);
    StepKeeps(k, Dispatch(Spawn(mode, top, root)), k', m.kroot, m.pmm.Capacity(), all);
  }

  lemma SpawnedIff(s: Sched, mode: Mode, top: nat, root: Option<nat>)
    requires Shaped(s)
    ensures SpawnStep(s, mode, top, root).1 <==> Spawning.SlotFree(s)
  {
  }

  lemma SameRegister(s: Sched, mode: Mode, top: nat, root: Option<nat>)
    requires Shaped(s)
    ensures SpawnStep(s, mode, top, root).0.register == s.register
  {
  }

  /** The running task exits. */
  method ExitTask(m: Machine, t: TaskTable, ghost k: Kernel, ghost all: set<Frame>) returns (ghost k': Kernel)
    requires Runs(m, t, k, all) && CanAct(k.y.s)
    modifies t.tasks
    ensures Runs(m, t, k', all) && Step(k, Dispatch(Exit), k', m.kroot, m.pmm.Capacity()) && k'.building == k.building
  {
    hide Inv, Sound, Owned;
    t.Exit();
    k' := DispatchedState(k, Exit, k.w, k.pages);
    StepKeeps(k, Dispatch(Exit), k', m.kroot, m.pmm.Capacity(), all);
  }

  method SendFrom(m: Machine, t: TaskTable, dest: nat, data: seq<Byte>, ghost k: Kernel, ghost all: set<Frame>)
    returns (r: SendResult, ghost k': Kernel)
    requires Runs(m, t, k, all) && CanAct(k.y.s)
    modifies t.tasks
    ensures Runs(m, t, k', all) && Step(k, Dispatch(Send(dest, data)), k', m.kroot, m.pmm.Capacity()) &&
            k'.building == k.building && r == SendStep(k.y.s, dest, data).1
  {
    hide Inv, Sound, Owned, SendStep;
    r := t.SendMessage(dest, data);
    k' := DispatchedState(k, Send(dest, data), k.w, k.pages);
    StepKeeps(k, Dispatch(Send(dest, data)), k', m.kroot, m.pmm.Capacity(), all);
  }

  method ReceiveFor(m: Machine, t: TaskTable, ghost k: Kernel, ghost all: set<Frame>)
      returns (r: Option<Message>, ghost k': Kernel)
    requires Runs(m, t, k, all) && CanAct(k.y.s)
    modifies t.tasks
    ensures Runs(m, t, k', all) && Step(k, Dispatch(Receive), k', m.kroot, m.pmm.Capacity()) &&
            k'.building == k.building && r == k.y.s.tasks[k.y.s.current].mailbox
  {
    hide Inv, Sound, Owned, ReceiveStep;
    OwnMail(k, m.kroot, m.pmm.Capacity(), all);
    r := t.ReceiveMessage();
    k' := DispatchedState(k, Receive, k.w, k.pages);
    StepKeeps(k, Dispatch(Receive), k', m.kroot, m.pmm.Capacity(), all);
  }

  lemma OwnMail(k: Kernel, kroot: Frame, cap: nat, all: set<Frame>)
    requires Inv(k, kroot, cap, all) && Shaped(k.y.s) && CanAct(k.y.s)
    ensures ReceiveStep(k.y.s).1 == k.y.s.tasks[k.y.s.current].mailbox
  {
    hide MemoryInv, Ownership, Books;
    ReceiveEffect(k.y.s, k.y.s.current);
  }

  /** A timer tick: the scheduler switches tasks and roots, and the address space of a dead owner is
      torn down, which the invariant shows to be safe. */
  method Tick(m: Machine, t: TaskTable, sp: nat, ghost k: Kernel, ghost all: set<Frame>)
      returns (nextSp: nat, ghost k': Kernel)
    requires Runs(m, t, k, all)
    modifies m`active, m`tags, m`pages, m.pmm.bitmap, t`current, t`register, t.tasks
    ensures Runs(m, t, k', all) && Step(k, Dispatch(Schedule(sp)), k', m.kroot, m.pmm.Capacity()) &&
            k'.building == k.building && nextSp == ScheduleStep(k.y.s, sp).sp
  {
    hide Inv, Sound, Owned, ScheduleStep, ReapedWorld, Without, Kept, PrivateSlots, Accounted;
    ghost var cap := m.pmm.Capacity();
    var freed: Option<nat>;
    nextSp, freed := t.RunSchedule(sp);
    m.active := t.register;
    if freed.Some? {
      FreedIsProcess(k, m.kroot, cap, all, sp);
      var freedFrames := ReapProcess(m, freed.value);
    }
    k' := DispatchedState(k, Schedule(sp), m.W(), m.pages);
    StepKeeps(k, Dispatch(Schedule(sp)), k', m.kroot, cap, all);
  }

  lemma FreedIsProcess(k: Kernel, kroot: Frame, cap: nat, all: set<Frame>, sp: nat)
    requires Inv(k, kroot, cap, all)
    ensures Shaped(k.y.s)
    ensures var freed := ScheduleStep(k.y.s, sp).freed;
            freed.Some? ==>
                IsRoot(k.w.tags, freed.value) && freed.value != kroot && PrivateSlots(k.w, kroot, freed.value)
  {
    hide MemoryInv, Ownership, Ids, Books, ScheduleStep, PrivateSlots;
    Facts(k, kroot, cap, all);
    OwnershipSchedule(k.y, kroot, sp);
    var freed := ScheduleStep(k.y.s, sp).freed;
    if freed.Some? {
      assert freed.value in Freed(k.y.s, Schedule(sp));
      ReapKeeps(k.w, k.pages, kroot, cap, Roots(k), freed.value);
      LiveRoot(k.w, k.pages, kroot, cap, Roots(k), freed.value);
    }
  }

  lemma LiveRoot(w: World, pages: Tags, kroot: Frame, cap: nat, roots: set<Frame>, r: Frame)
    requires MemoryInv(w, pages, kroot, cap, roots) && r in roots
    ensures IsRoot(w.tags, r) && r != kroot
  {
    assert ProcessRoot(w, kroot, r);
  }

  // ---------------------------------------------------------------------------
  // Spawning from a file
  // ---------------------------------------------------------------------------

  /** No page of the segment lies in the kernel's half. */
  predicate HighSegment(seg: Elf.Segment) {
    forall k :: 0 <= k < Elf.PageCount(seg) ==> !Low(PageOf(Elf.Start(seg), k))
  }

  /** No loadable segment of the file has a page in the kernel's half. */
  predicate HighFile(elf: seq<Byte>) {
    forall j :: 0 <= j < |Elf.FileSegments(elf)| ==> HighSegment(Elf.FileSegments(elf)[j])
  }

  lemma {:induction false} HighPages(segs: seq<Elf.Segment>)
    requires forall j :: 0 <= j < |segs| ==> HighSegment(segs[j])
    ensures forall v :: v in Elf.AllPages(segs) ==> !Low(v)
  {
    hide Low, PageOf;
    if segs != [] {
      HighPages(segs[..|segs| - 1]);
      assert HighSegment(segs[|segs| - 1]);
    }
  }

  lemma HighStack()
    ensures HighSegment(Elf.StackSegment())
  {
    hide Low, Vpn;
    var seg := Elf.StackSegment();
    assert Elf.Start(seg) == USER_SPACE_BASE + 0xFFF_C000 && Elf.PageCount(seg) == 4;
    forall k | 0 <= k < Elf.PageCount(seg) ensures !Low(PageOf(Elf.Start(seg), k)) {
      LowAddresses(Elf.Start(seg) + k * PAGE_SIZE);
    }
  }

  lemma HighProcess(elf: seq<Byte>)
    requires HighFile(elf)
    ensures forall v :: v in Elf.AllPages(Elf.ProcessSegments(elf)) ==> !Low(v)
  {
    hide Elf.FileSegments, HighSegment, Low, Elf.AllPages, Elf.StackSegment;
    HighStack();
    var segs := Elf.ProcessSegments(elf);
    forall j | 0 <= j < |segs| ensures HighSegment(segs[j]) {
      assert j < |Elf.FileSegments(elf)| ==> HighSegment(Elf.FileSegments(elf)[j]);
    }
    HighPages(segs);
  }

  /** The actions only map and fill pages of the root. */
  predicate Loads(root: Frame, actions: seq<Action>) {
    forall n :: 0 <= n < |actions| ==> (actions[n].Fill? && actions[n].root == root) || actions[n].Copy?
  }

  /** A page load of a root being built as a run of the whole-kernel machine: one step that maps, and
      one that copies. */
  lemma LiftLoad(k: Kernel, l: PageLoad, kroot: Frame, cap: nat, all: set<Frame>, root: Frame)
    returns (states: seq<Kernel>, actions: seq<Action>)
    requires Inv(k, kroot, cap, all) && Shaped(k.y.s) && root in k.building && !Low(Vpn(l.va))
    requires LoadStep(k.w, k.pages, l, kroot, cap, root)
    ensures KernelRun(states, actions, kroot, cap) && AllTame(kroot, actions) && states[0] == k
    ensures states[|actions|] == FilledState(k, After(l), l.pages, kroot, root, l.va, l.outcome)
    ensures Loads(root, actions)
  {
    hide Inv, Sound, Owned, FreshStep, Low, Vpn;
    BuildingRoots(k, kroot, cap, all);
    var k1 := FilledState(k, l.mid, l.pages, kroot, root, l.va, l.outcome);
    var fill := Fill(root, l.va, l.flags, l.outcome);
    RunMore([k], [], kroot, cap, fill, k1);
    states, actions := [k] + [k1], [] + [fill];
    if l.outcome.Mapped? {
      NewPage(k, k1, kroot, cap, all, root, l.va, l.flags, l.outcome);
      var k2, copy := k1.(w := After(l)), Copy(l.outcome.frame, l.contents);
      RunMore(states, actions, kroot, cap, copy, k2);
      states, actions := states + [k2], actions + [copy];
    }
  }

  /** A run of page loads of a root being built as a run of the whole-kernel machine. */
  lemma {:induction false} LiftLoads(k: Kernel, run: seq<PageLoad>, w: World, pages: Tags, kroot: Frame, cap: nat,
                                     all: set<Frame>, root: Frame)
    returns (states: seq<Kernel>, actions: seq<Action>)
    requires Inv(k, kroot, cap, all) && Shaped(k.y.s) && root in k.building
    requires LoadRun(k.w, k.pages, run, w, pages, kroot, cap, root)
    requires forall v :: v in Touched(run) ==> !Low(v)
    ensures KernelRun(states, actions, kroot, cap) && AllTame(kroot, actions) && states[0] == k
    ensures states[|actions|] == k.(w := w, pages := pages, lost := k.lost + LostIn(k.w, run, kroot, root))
    ensures Loads(root, actions)
    decreases |run|
  {
    hide Inv, LoadStep, Low, Vpn, KernelRun, AllTame, LoadRun, After, LostBy, Touched;
    if run == [] {
      RunOfNone(k.w, k.pages, w, pages, kroot, cap, root);
      RunOfOne(k, kroot, cap);
      states, actions := [k], [];
    } else {
      var n := |run| - 1;
      ShorterRun(k.w, k.pages, run, w, pages, kroot, cap, root);
      assert run == run[..n] + [run[n]];
      TouchedMore(run[..n], run[n]);
      states, actions := LiftLoads(k, run[..n], WorldAt(k.w, run, n), PagesAt(k.pages, run, n), kroot, cap, all, root);
      RunShape(states, actions, kroot, cap);
      RunKeeps(states, actions, kroot, cap, all, |actions|);
      var more, acts := LiftLoad(states[|actions|], run[n], kroot, cap, all, root);
      RunShape(more, acts, kroot, cap);
      RunJoin(states, actions, more, acts, kroot, cap);
      states, actions := states + more[1..], actions + acts;
    }
  }

  lemma RunOfOne(k: Kernel, kroot: Frame, cap: nat)
    requires Shaped(k.y.s)
    ensures KernelRun([k], [], kroot, cap) && AllTame(kroot, [])
  {
  }

  lemma RunShape(states: seq<Kernel>, actions: seq<Action>, kroot: Frame, cap: nat)
    requires KernelRun(states, actions, kroot, cap)
    ensures |states| == |actions| + 1 && forall n :: 0 <= n < |states| ==> Shaped(states[n].y.s)
  {
  }

  lemma RunMore(states: seq<Kernel>, actions: seq<Action>, kroot: Frame, cap: nat, a: Action, k: Kernel)
    requires KernelRun(states, actions, kroot, cap) && AllTame(kroot, actions)
    requires Step(states[|actions|], a, k, kroot, cap) && Tame(kroot, a) && Shaped(k.y.s)
    ensures KernelRun(states + [k], actions + [a], kroot, cap) && AllTame(kroot, actions + [a])
  {
    hide Step, Tame;
    var last := states[|actions|];
    RunJoin(states, actions, [last, k], [a], kroot, cap);
    assert [last, k][1..] == [k];
  }

  lemma RunJoin(states: seq<Kernel>, actions: seq<Action>, more: seq<Kernel>, acts: seq<Action>, kroot: Frame, cap: nat)
    requires KernelRun(states, actions, kroot, cap) && AllTame(kroot, actions)
    requires KernelRun(more, acts, kroot, cap) && AllTame(kroot, acts) && more[0] == states[|actions|]
    ensures KernelRun(states + more[1..], actions + acts, kroot, cap) && AllTame(kroot, actions + acts)
    ensures (states + more[1..])[|actions + acts|] == more[|acts|] && (states + more[1..])[0] == states[0]
  {
    hide Step, Tame;
    var states', actions' := states + more[1..], actions + acts;
    forall n | 0 <= n < |actions'|
      ensures Step(states'[n], actions'[n], states'[n + 1], kroot, cap) && Tame(kroot, actions'[n])
    {
      if n < |actions| {
        assert Step(states[n], actions[n], states[n + 1], kroot, cap) && Tame(kroot, actions[n]);
      } else {
        var i := n - |actions|;
        assert Step(more[i], acts[i], more[i + 1], kroot, cap) && Tame(kroot, acts[i]);
      }
    }
  }

  /** The event that hands a new root to a task. */
  function Register(root: Frame): Event {
    Spawn(IsolatedProcess, Elf.USER_STACK_TOP, Some(root))
  }

  /** The root is created, pages of it are loaded and, if the image could be built, it is handed to a task. */
  predicate LaunchActions(root: Frame, built: bool, actions: seq<Action>) {
    && |actions| >= (if built then 2 else 1) && actions[0] == Create(root)
    && Loads(root, actions[1..if built then |actions| - 1 else |actions|])
    && (built ==> actions[|actions| - 1] == Dispatch(Spawn(IsolatedProcess, 0x80_1000_0000, Some(root))))
  }

  /** Creating, loading and, if the image could be built, registering a root. */
  lemma Launched(k: Kernel, run: seq<PageLoad>, w: World, pages: Tags, kroot: Frame, cap: nat, all: set<Frame>,
                 c: Frame, built: bool)
    returns (states: seq<Kernel>, actions: seq<Action>)
    requires Inv(k, kroot, cap, all) && Shaped(k.y.s) && (CanAct(k.y.s) || !k.y.s.initialized)
    requires c in k.w.free && kroot in k.w.mem && c !in k.building
    requires LoadRun(ClonedWorld(k.w, kroot, c), k.pages, run, w, pages, kroot, cap, c)
    requires forall v :: v in Touched(run) ==> !Low(v)
    ensures KernelRun(states, actions, kroot, cap) && AllTame(kroot, actions) && states[0] == k
    ensures states[|actions|] ==
            Kernel(if built then Next(k.y, Register(c)) else k.y, w, pages,
                   k.building + (if built then {} else {c}),
                   k.lost + LostIn(ClonedWorld(k.w, kroot, c), run, kroot, c))
    ensures LaunchActions(c, built, actions)
  {
    hide Inv, Low, Vpn, LoadRun, Touched, ClonedWorld, LostIn, NextSched, FreedRoot, Tame;
    var k1 := k.(w := ClonedWorld(k.w, kroot, c), building := k.building + {c});
    NotFillTame(kroot, Some(Create(c)));
    StepKeeps(k, Create(c), k1, kroot, cap, all);
    RunOfOne(k, kroot, cap);
    RunMore([k], [], kroot, cap, Create(c), k1);
    var more, acts := LiftLoads(k1, run, w, pages, kroot, cap, all, c);
    RunJoin([k] + [k1], [] + [Create(c)], more, acts, kroot, cap);
    states, actions := [k] + [k1] + more[1..], [] + [Create(c)] + acts;
    if built {
      var last, e := states[|actions|], Register(c);
      var k2 := DispatchedState(last, e, w, pages);
      assert k2.building == k.building;
      Handed(last, k2, kroot, cap, c);
      NotFillTame(kroot, Some(Dispatch(e)));
      RunMore(states, actions, kroot, cap, Dispatch(e), k2);
      states, actions := states + [k2], actions + [Dispatch(e)];
      assert actions[1..|actions| - 1] == acts;
    } else {
      assert actions[1..|actions|] == acts;
    }
  }

  lemma Handed(k: Kernel, k': Kernel, kroot: Frame, cap: nat, c: Frame)
    requires Shaped(k.y.s) && (CanAct(k.y.s) || !k.y.s.initialized) && c in k.building
    requires k' == DispatchedState(k, Register(c), k.w, k.pages)
    ensures Step(k, Dispatch(Register(c)), k', kroot, cap) && Shaped(k'.y.s)
  {
  }

  /** Slots that own a root own one of a live process. */
  lemma OwnersLive(k: Kernel, kroot: Frame, cap: nat, all: set<Frame>)
    requires Inv(k, kroot, cap, all)
    ensures Shaped(k.y.s) && Spawning.OwnersAreRoots(k.y.s, k.w)
  {
    hide MemoryInv, Ids, Books;
    forall i | 0 <= i < |k.y.s.tasks| && k.y.s.tasks[i].ownsRoot ensures IsRoot(k.w.tags, k.y.s.tasks[i].root) {
      assert SlotRoot(k.y, kroot, i);
      LiveIsRoot(k, kroot, cap, all, k.y.s.tasks[i].root);
    }
  }

  lemma HighIsPrivate(k: Kernel, kroot: Frame, cap: nat, all: set<Frame>, segs: seq<Elf.Segment>)
    requires Inv(k, kroot, cap, all) && forall v :: v in Elf.AllPages(segs) ==> !Low(v)
    ensures PrivatePages(k.w, kroot, Elf.AllPages(segs))
    ensures forall r :: r in Roots(k) ==> r !in k.w.free
  {
    hide Ownership, Ids, Books, Sound, Owned, SupervisorKernel, Recorded, Low, Elf.AllPages;
    HighSegments(k.w, kroot, segs);
    forall r | r in Roots(k) ensures r !in k.w.free {
      RootNotFree(k, kroot, cap, all, r);
    }
  }

  lemma FreeNoRoot(w: World, kroot: Frame, c: Frame)
    requires Sound(w, kroot) && c in w.free
    ensures !IsRoot(w.tags, c)
  {
  }

  /** Spawning gives the new root an owner if it succeeds, and only then. */
  lemma OwnedIff(s: Sched, s': Sched, w: World, c: Frame, ok: bool)
    requires Shaped(s) && Spawning.OwnersAreRoots(s, w) && !IsRoot(w.tags, c)
    requires if ok then (s', true) == SpawnStep(s, IsolatedProcess, Elf.USER_STACK_TOP, Some(c)) else s' == s
    ensures Owns(s', c) <==> ok
  {
    if ok {
      hide SpawnStep;
      var i := Spawning.Registered(s, s', c);
    }
  }

  /** All the tables that serve the pages `vs`. */
  ghost function TablesFor(vs: set<nat>): set<(nat, nat)> {
    set v, level | v in vs && 1 <= level <= 3 :: (level, Prefix(v, level))
  }

  /** The pages are different, and `free` frames are enough for a root, the pages and all their tables. */
  ghost predicate PlanFits(plan: seq<nat>, free: nat) {
    Distinct(plan) && 1 + |PlanPages(plan)| + |TablesFor(PlanPages(plan))| <= free
  }

  /** The file is in order, and `free` frames are enough to load it and its stack into a new root. */
  ghost predicate CanLoad(elf: seq<Byte>, free: nat)
    requires |elf| < 0x8000_0000_0000_0000
  {
    Elf.Accepted(elf, AArch64) && PlanFits(Elf.ImagePlan(Elf.ProcessSegments(elf)), free)
  }

  /** Under a clone of the kernel's root the high pages are unmapped and have no tables yet. */
  lemma NothingHigh(w: World, kroot: Frame, v: nat, level: nat)
    requires OnlySlotZero(w, kroot) && !Low(v) && v < VPN_LIMIT && 1 <= level <= 4
    ensures level <= 3 ==> TableOf(w.mem, kroot, v, level).None?
    ensures Walk(w.mem, kroot, v).Absent?
  {
    assert TableOf(w.mem, kroot, v, 0) == Some(kroot);
    assert TableOf(w.mem, kroot, v, 1).None?;
    assert TableOf(w.mem, kroot, v, 2).None?;
    assert TableOf(w.mem, kroot, v, 3).None?;
  }

  /** Whether a file of high pages can be loaded is a matter of its pages and the number of free frames. */
  lemma HighFits(w: World, kroot: Frame, segs: seq<Elf.Segment>)
    requires OnlySlotZero(w, kroot) && forall v :: v in Elf.AllPages(segs) ==> !Low(v)
    ensures Spawning.CloneFits(w, kroot, Elf.ImagePlan(segs)) <==> PlanFits(Elf.ImagePlan(segs), |w.free|)
  {
    hide OnlySlotZero, Low, TableOf, Walk, Elf.AllPages, Elf.ImagePlan, Vpn, Prefix;
    var plan := Elf.ImagePlan(segs);
    Elf.PlanOfImage(segs);
    Spawning.PlanBound(plan);
    var vs := PlanPages(plan);
    forall v, level | v in vs && 1 <= level <= 3 ensures TableOf(w.mem, kroot, v, level).None? {
      NothingHigh(w, kroot, v, level);
    }
    assert MissingTables(w.mem, kroot, vs) == TablesFor(vs);
    forall n | 0 <= n < |plan| ensures Walk(w.mem, kroot, Vpn(plan[n])).Absent? {
      assert Vpn(plan[n]) in vs;
      NothingHigh(w, kroot, Vpn(plan[n]), 4);
    }
  }

  lemma LaunchFits(k: Kernel, kroot: Frame, cap: nat, all: set<Frame>, segs: seq<Elf.Segment>)
    requires Inv(k, kroot, cap, all) && forall v :: v in Elf.AllPages(segs) ==> !Low(v)
    ensures Spawning.CloneFits(k.w, kroot, Elf.ImagePlan(segs)) <==> PlanFits(Elf.ImagePlan(segs), |k.w.free|)
  {
    hide Ownership, Ids, Books, Sound, Owned, Recorded, Low, Elf.AllPages, Elf.ImagePlan, Spawning.CloneFits, PlanFits;
    HighFits(k.w, kroot, segs);
  }

  lemma LaunchReady(k: Kernel, kroot: Frame, cap: nat, all: set<Frame>, elf: seq<Byte>)
    requires Inv(k, kroot, cap, all) && HighFile(elf)
    ensures Shaped(k.y.s) && Spawning.OwnersAreRoots(k.y.s, k.w)
    ensures IsRoot(k.w.tags, kroot) && IsRoot(k.w.tags, k.y.s.register) && KernelSlots(k.w, kroot, kroot)
    ensures PrivatePages(k.w, kroot, Elf.AllPages(Elf.ProcessSegments(elf)))
    ensures forall r :: r in Roots(k) ==> r !in k.w.free
    ensures forall v :: v in Elf.AllPages(Elf.ProcessSegments(elf)) ==> !Low(v)
    ensures Spawning.CloneFits(k.w, kroot, Elf.ImagePlan(Elf.ProcessSegments(elf))) <==>
            PlanFits(Elf.ImagePlan(Elf.ProcessSegments(elf)), |k.w.free|)
  {
    hide Inv, Sound, Owned, KernelSlots, Elf.AllPages, Elf.ProcessSegments, Elf.ImagePlan, HighFile, Low, PrivatePages,
         Spawning.CloneFits, PlanFits, Roots, SupervisorKernel;
    Facts(k, kroot, cap, all);
    KernelRootSlots(k.w, kroot);
    OwnersLive(k, kroot, cap, all);
    HighProcess(elf);
    HighIsPrivate(k, kroot, cap, all, Elf.ProcessSegments(elf));
    LaunchFits(k, kroot, cap, all, Elf.ProcessSegments(elf));
  }

  /** What a launch did, as a run of the whole-kernel machine. */
  lemma LaunchRun(k: Kernel, run: seq<PageLoad>, s: Sched, w: World, pages: Tags, kroot: Frame, cap: nat,
                  all: set<Frame>, c: Frame, built: bool, ok: bool)
    returns (states: seq<Kernel>, actions: seq<Action>)
    requires Inv(k, kroot, cap, all) && Shaped(k.y.s) && (CanAct(k.y.s) || !k.y.s.initialized)
    requires kroot in k.w.mem && Spawning.Built(k.w, k.pages, kroot, c, run, w, pages, kroot, cap)
    requires (forall v :: v in Touched(run) ==> !Low(v)) && (forall r :: r in Roots(k) ==> r !in k.w.free)
    requires if built then (s, ok) == SpawnStep(k.y.s, IsolatedProcess, Elf.USER_STACK_TOP, Some(c))
             else !ok && s == k.y.s
    requires ok ==> Spawning.LostBuilding(k.w, kroot, c, run, kroot) == {}
    ensures KernelRun(states, actions, kroot, cap) && AllTame(kroot, actions) && states[0] == k
    ensures var k' := states[|actions|];
            && Inv(k', kroot, cap, all) && k'.w == w && k'.pages == pages && k'.y.s == s
            && s.register == k.y.s.register && k'.building == k.building + (if built then {} else {c})
            && c !in Roots(k) && Roots(k') == Roots(k) + {c} && (ok ==> k'.lost == k.lost)
    ensures (Owns(s, c) <==> ok) && LaunchActions(c, built, actions)
  {
    hide Inv, Sound, Owned, ClonedWorld, LoadRun, Charged, SpawnStep, Touched, KernelRun, AllTame, Step, Low, LostIn,
         LaunchActions;
    states, actions := Launched(k, run, w, pages, kroot, cap, all, c, built);
    RunShape(states, actions, kroot, cap);
    RunKeeps(states, actions, kroot, cap, all, |actions|);
    SameRegister(k.y.s, IsolatedProcess, Elf.USER_STACK_TOP, Some(c));
    Spawning.NoSlotNoChange(k.y.s, Some(c));
    Facts(k, kroot, cap, all);
    OwnersLive(k, kroot, cap, all);
    FreeNoRoot(k.w, kroot, c);
    OwnedIff(k.y.s, s, k.w, c, ok);
  }

  /** `spawn_from_elf` is a run of the whole-kernel machine: a root is created, pages are mapped and
      filled, and the root is handed to a task. Whether it succeeds depends on the file, the number of free
      frames and a free slot alone. A launch that succeeds loses nothing; one that fails
      after a root was allocated leaves that root without an owner, for ever. */
  method Launch(m: Machine, t: TaskTable, elf: seq<Byte>, ghost k: Kernel, ghost all: set<Frame>)
    returns (ok: bool, root: Option<Frame>, left: set<Frame>, ghost states: seq<Kernel>, ghost actions: seq<Action>)
    requires Runs(m, t, k, all) && (CanAct(k.y.s) || !k.y.s.initialized)
    requires |elf| < 0x8000_0000_0000_0000 && HighFile(elf)
    modifies m`mem, m`tags, m`pages, m.pmm.bitmap, t`initialized, t.tasks
    ensures KernelRun(states, actions, m.kroot, m.pmm.Capacity()) && AllTame(m.kroot, actions) && states[0] == k
    ensures Runs(m, t, states[|actions|], all) && states[|actions|].building == k.building + left
    ensures ok <==> CanLoad(elf, |k.w.free|) && Spawning.SlotFree(k.y.s)
    ensures ok ==> left == {} && states[|actions|].lost == k.lost
    ensures root.None? <==> k.w.free == {}
    ensures root.None? ==> !ok && actions == []
    ensures root.Some? ==>
            && root.value !in Roots(k) && Roots(states[|actions|]) == Roots(k) + {root.value}
            && (Owns(t.State(), root.value) <==> ok)
            && LaunchActions(root.value, CanLoad(elf, |k.w.free|), actions)
    ensures ok ==>
            && m.kroot in k.w.mem
            && Elf.ImageInv(ClonedWorld(k.w, m.kroot, root.value), k.pages, m.W(), m.pages, m.kroot, root.value,
                            Elf.ProcessSegments(elf))
  {
    hide Inv, Sound, Owned, KernelSlots, ClonedWorld, LoadRun, Charged, Elf.ImageInv, SpawnStep, Elf.AllPages, Touched,
         Elf.ProcessSegments, SpaceFrames, KernelTables, Spawning.NoLeak, KernelRun, AllTame, HighFile, Step, Low,
         PrivatePages, Kept, LostIn, AllMapped, Elf.Accepted, Spawning.SlotFree, Spawning.CloneFits, Elf.ImagePlan,
         Fits, Recorded, Spawning.Built, PlanFits, Spawning.OwnersAreRoots, Spawning.LostBuilding, SupervisorKernel,
         Roots, Owns, IsRoot, Shaped, LaunchActions;
    ghost var cap := m.pmm.Capacity();
    LaunchReady(k, m.kroot, cap, all, elf);
    var built;
    ghost var run;
    ok, root, built, run := Spawning.SpawnFromElf(m, t, elf);
    left := if root.Some? && !built then {root.value} else {};
    RunOfOne(k, m.kroot, cap);
    states, actions := [k], [];
    if root.Some? {
      states, actions := LaunchRun(k, run, t.State(), m.W(), m.pages, m.kroot, cap, all, root.value, built, ok);
    }
  }

  // ---------------------------------------------------------------------------
  // Whole runs of calls
  // ---------------------------------------------------------------------------

  datatype Call =
    | NewRoot
    | Load(target: Frame, va: nat, flags: MapFlags, contents: Contents)
    | Exec(elf: seq<Byte>)
    | Fault(addr: nat, isUser: bool)
    | Unmap(ptr: nat, len: nat)
    | Start(mode: Mode, top: nat, root: Option<Frame>)
    | Stop
    | Timer(sp: nat)
    | Post(dest: nat, data: seq<Byte>)
    | Fetch

  /** The call can be made: tasks act while they live, roots handed over were built, threads are spawned
      by contexts that do not own their root, and mappings are harmless. */
  predicate CanCall(s: Sched, kroot: Frame, building: set<Frame>, c: Call)
    requires Shaped(s)
  {
    match c
    case NewRoot => true
    case Load(target, va, flags, contents) =>
      && target in building && Harmless(kroot, target, va, flags)
      && contents.Data? && |contents.bytes| == PAGE_SIZE
    case Exec(elf) => (CanAct(s) || !s.initialized) && |elf| < 0x8000_0000_0000_0000 && HighFile(elf)
    case Fault(addr, isUser) => addr < UPPER_HALF && Harmless(kroot, s.register, addr, DemandFlags(isUser))
    case Unmap(ptr, len) => CanAct(s) && ptr < ADDRESS_LIMIT && len < ADDRESS_LIMIT
    case Start(mode, top, root) =>
      && (CanAct(s) || !s.initialized) && FreshRoots(Spawn(mode, top, root)) <= building
      && SharesBorrowed(s, Spawn(mode, top, root))
    case Timer(_) => true
    case _ => CanAct(s)
  }

  /** What a running task that borrows its root can do: anything, on roots that were built and harmless pages. */
  lemma RunningTaskCan(s: Sched, kroot: Frame, building: set<Frame>, c: Call)
    requires Shaped(s) && CanAct(s) && !s.tasks[s.current].ownsRoot
    requires c.Load? ==>
             && c.target in building && Harmless(kroot, c.target, c.va, c.flags)
             && c.contents.Data? && |c.contents.bytes| == 4096
    requires c.Exec? ==> |c.elf| < 0x8000_0000_0000_0000 && HighFile(c.elf)
    requires c.Fault? ==> c.addr < 0xFFFF_0000_0000_0000 && Harmless(kroot, s.register, c.addr, DemandFlags(c.isUser))
    requires c.Unmap? ==> c.ptr < ADDRESS_LIMIT && c.len < ADDRESS_LIMIT
    requires c.Start? && c.mode.IsolatedProcess? && c.root.Some? ==> c.root.value in building
    ensures CanCall(s, kroot, building, c)
  {
    hide Harmless, HighFile;
  }

  /** The steps that a call is, made in state `k`. */
  ghost predicate Does(c: Call, k: Kernel, actions: seq<Action>)
    requires Shaped(k.y.s)
  {
    match c
    case NewRoot => if k.w.free == {} then actions == [] else |actions| == 1 && actions[0].Create?
    case Load(target, va, flags, contents) =>
      && 1 <= |actions| <= 2 && actions[0].Fill? && actions[0] == Fill(target, va, flags, actions[0].outcome)
      && (|actions| == 2 <==> actions[0].outcome.Mapped? && !Low(Vpn(va)))
      && (|actions| == 2 ==> actions[1] == Copy(actions[0].outcome.frame, contents))
    case Exec(elf) =>
      && |elf| < 0x8000_0000_0000_0000
      && if k.w.free == {} then actions == [] else exists root :: LaunchActions(root, CanLoad(elf, |k.w.free|), actions)
    case Fault(addr, isUser) =>
      && |actions| == 1 && actions[0].Fill?
      && actions[0] == Fill(k.y.s.register, addr / 4096 * 4096, MapFlags(true, isUser, false, false),
                            actions[0].outcome)
    case Unmap(ptr, len) => actions == if CanRelease(k, ptr, len) then [Release(RangePages(ptr, len / 4096))] else []
    case Start(mode, top, root) => actions == [Dispatch(Spawn(mode, top, root))]
    case Stop => actions == [Dispatch(Exit)]
    case Timer(sp) => actions == [Dispatch(Schedule(sp))]
    case Post(dest, data) => actions == [Dispatch(Send(dest, data))]
    case Fetch => actions == [Dispatch(Receive)]
  }

  lemma SingleStep(k: Kernel, a: Action, k': Kernel, kroot: Frame, cap: nat)
    requires Shaped(k.y.s) && Step(k, a, k', kroot, cap) && Shaped(k'.y.s) && Tame(kroot, a)
    ensures KernelRun([k, k'], [a], kroot, cap) && AllTame(kroot, [a])
  {
    hide Step, Tame;
  }

  /** Maps a page for a root being built and fills it. */
  method LoadFilled(m: Machine, t: TaskTable, root: Frame, va: nat, flags: MapFlags, c: Contents, ghost k: Kernel,
                    ghost all: set<Frame>)
    returns (r: FreshMap, ghost states: seq<Kernel>, ghost actions: seq<Action>)
    requires Runs(m, t, k, all) && root in k.building && Harmless(m.kroot, root, va, flags)
    requires c.Data? && |c.bytes| == PAGE_SIZE
    modifies m`mem, m`tags, m`pages, m.pmm.bitmap
    ensures KernelRun(states, actions, m.kroot, m.pmm.Capacity()) && AllTame(m.kroot, actions) && states[0] == k
    ensures Runs(m, t, states[|actions|], all) && states[|actions|].building == k.building
    ensures r.Mapped? && !Low(Vpn(va)) ==> r.frame in m.mem && m.mem[r.frame] == c
    ensures Does(Load(root, va, flags, c), k, actions)
  {
    hide Runs, Step, Inv, Harmless, Tame, KernelRun, AllTame, Low, Vpn;
    ghost var k1, k2;
    RunsState(m, t, k, all);
    r, k1 := LoadPage(m, t, root, va, flags, k, all);
    RunsState(m, t, k1, all);
    states, actions := [k, k1], [Fill(root, va, flags, r)];
    SingleStep(k, actions[0], k1, m.kroot, m.pmm.Capacity());
    if r.Mapped? && !Low(Vpn(va)) {
      k2 := CopyPage(m, t, r.frame, c, k1, all);
      RunsState(m, t, k2, all);
      NotFillTame(m.kroot, Some(Copy(r.frame, c)));
      RunMore(states, actions, m.kroot, m.pmm.Capacity(), Copy(r.frame, c), k2);
      states, actions := states + [k2], actions + [Copy(r.frame, c)];
    }
  }

  /** One call, and the steps it is. */
  method Perform(m: Machine, t: TaskTable, c: Call, building: set<Frame>, ghost k: Kernel, ghost all: set<Frame>)
    returns (building': set<Frame>, ghost states: seq<Kernel>, ghost actions: seq<Action>)
    requires Runs(m, t, k, all) && k.building == building && CanCall(k.y.s, m.kroot, building, c)
    modifies m`mem, m`tags, m`pages, m`active, m.pmm.bitmap, t`current, t`register, t`initialized, t.tasks
    ensures KernelRun(states, actions, m.kroot, m.pmm.Capacity()) && AllTame(m.kroot, actions) && states[0] == k
    ensures Runs(m, t, states[|actions|], all) && states[|actions|].building == building'
    ensures Does(c, k, actions)
  {
    hide Runs, Step, Inv, Harmless, Tame, KernelRun, AllTame, HighFile, LaunchActions, CanLoad, CanRelease, RangePages,
         Low, Vpn, Elf.ImageInv;
    RunsState(m, t, k, all);
    building' := building;
    ghost var a: Option<Action>, k' := None, k;
    match c {
      case Load(target, va, flags, contents) =>
        var r;
        r, states, actions := LoadFilled(m, t, target, va, flags, contents, k, all);
        return;
      case Exec(elf) =>
        var ok, root, left;
        ok, root, left, states, actions := Launch(m, t, elf, k, all);
        building' := building + left;
        return;
      case NewRoot =>
        var root;
        root, k' := CreateRoot(m, t, k, all);
        a := if root.Some? then Some(Create(root.value)) else None;
        building' := if root.Some? then building + {root.value} else building;
      case Fault(addr, isUser) =>
        var handled;
        ghost var fill;
        handled, fill, k' := PageFault(m, t, addr, isUser, k, all);
        a := Some(fill);
      case Unmap(ptr, len) =>
        var code;
        ghost var gone;
        code, gone, k' := Munmap(m, t, ptr, len, k, all);
        a := if code == 0 then Some(Release(gone)) else None;
      case Start(mode, top, root) =>
        var ok;
        ok, k' := SpawnTask(m, t, mode, top, root, k, all);
        a := Some(Dispatch(Spawn(mode, top, root)));
        building' := building - FreshRoots(Spawn(mode, top, root));
      case Stop =>
        k' := ExitTask(m, t, k, all);
        a := Some(Dispatch(Exit));
      case Timer(sp) =>
        var nextSp;
        nextSp, k' := Tick(m, t, sp, k, all);
        a := Some(Dispatch(Schedule(sp)));
      case Post(dest, data) =>
        var sent;
        sent, k' := SendFrom(m, t, dest, data, k, all);
        a := Some(Dispatch(Send(dest, data)));
      case Fetch =>
        var got;
        got, k' := ReceiveFor(m, t, k, all);
        a := Some(Dispatch(Receive));
    }
    NotFillTame(m.kroot, a);
    RunsState(m, t, k', all);
    RunOfOne(k, m.kroot, m.pmm.Capacity());
    states, actions := [k], [];
    if a.Some? {
      SingleStep(k, a.value, k', m.kroot, m.pmm.Capacity());
      states, actions := [k, k'], [a.value];
    }
  }

  /** The run is the calls one after the other: call `i` is what happens from state `at[i]` to state
      `at[i + 1]`, or nothing if it cannot be made there. */
  ghost predicate Answered(calls: seq<Call>, states: seq<Kernel>, actions: seq<Action>, kroot: Frame, at: seq<nat>) {
    && |at| == |calls| + 1 && at[0] == 0 && at[|calls|] == |actions| && |states| == |actions| + 1
    && forall i :: 0 <= i < |calls| ==> AnsweredAt(calls[i], states, actions, kroot, at[i], at[i + 1])
  }

  ghost predicate AnsweredAt(c: Call, states: seq<Kernel>, actions: seq<Action>, kroot: Frame, from: nat, to: nat) {
    && from <= to <= |actions| < |states| && Shaped(states[from].y.s)
    && if CanCall(states[from].y.s, kroot, states[from].building, c) then Does(c, states[from], actions[from..to])
       else from == to
  }

  lemma AnsweredMore(calls: seq<Call>, states: seq<Kernel>, actions: seq<Action>, kroot: Frame, at: seq<nat>, n: nat,
                     more: seq<Kernel>, acts: seq<Action>)
    requires n < |calls| && Answered(calls[..n], states, actions, kroot, at)
    requires |more| == |acts| + 1 && more[0] == states[|actions|] && Shaped(more[0].y.s)
    requires if CanCall(more[0].y.s, kroot, more[0].building, calls[n]) then Does(calls[n], more[0], acts)
             else acts == []
    ensures Answered(calls[..n + 1], states + more[1..], actions + acts, kroot, at + [|actions + acts|])
  {
    hide CanCall, Does;
    var states', actions', at' := states + more[1..], actions + acts, at + [|actions + acts|];
    forall i | 0 <= i < n + 1 ensures AnsweredAt(calls[i], states', actions', kroot, at'[i], at'[i + 1]) {
      if i < n {
        assert AnsweredAt(calls[..n][i], states, actions, kroot, at[i], at[i + 1]);
        assert actions'[at[i]..at[i + 1]] == actions[at[i]..at[i + 1]];
      } else {
        assert at'[n] == |actions| && states'[|actions|] == states[|actions|];
        assert actions'[|actions|..|actions'|] == acts;
      }
    }
  }

  lemma RunsState(m: Machine, t: TaskTable, k: Kernel, all: set<Frame>)
    requires Runs(m, t, k, all)
    ensures t.Valid() && k.y.s == t.State() && m.active == t.register
  {
  }

  lemma NotFillTame(kroot: Frame, a: Option<Action>)
    ensures a.Some? && !a.value.Fill? ==> Tame(kroot, a.value)
  {
  }

  /** Every list of calls, each made if it can be made, is a run of the whole-kernel machine, and so
      everything proved of such runs holds of the task table and the memory system. */
  method PerformAll(m: Machine, t: TaskTable, calls: seq<Call>, ghost k: Kernel, ghost all: set<Frame>)
    returns (ghost states: seq<Kernel>, ghost actions: seq<Action>, ghost at: seq<nat>)
    requires Runs(m, t, k, all) && k.building == {}
    modifies m`mem, m`tags, m`pages, m`active, m.pmm.bitmap, t`current, t`register, t`initialized, t.tasks
    ensures KernelRun(states, actions, m.kroot, m.pmm.Capacity()) && AllTame(m.kroot, actions)
    ensures states[0] == k && Runs(m, t, states[|actions|], all)
    ensures Answered(calls, states, actions, m.kroot, at)
  {
    hide Runs, Step, Inv, Harmless, Tame, HighFile, KernelRun, AllTame, Answered, Does, CanCall;
    RunsState(m, t, k, all);
    RunOfOne(k, m.kroot, m.pmm.Capacity());
    states, actions, at := [k], [], [0];
    AnsweredNone(calls, k, m.kroot);
    var building: set<Frame> := {};
    for i := 0 to |calls|
      invariant KernelRun(states, actions, m.kroot, m.pmm.Capacity()) && AllTame(m.kroot, actions)
      invariant |states| == |actions| + 1 && states[0] == k
      invariant Runs(m, t, states[|actions|], all) && states[|actions|].building == building
      invariant Answered(calls[..i], states, actions, m.kroot, at)
    {
      ghost var now := states[|actions|];
      RunsState(m, t, now, all);
      var s := Sched(t.tasks[..], t.current, t.register, t.initialized, t.frames);
      if CanCall(s, m.kroot, building, calls[i]) {
        ghost var more, acts;
        building, more, acts := Perform(m, t, calls[i], building, now, all);
        RunShape(more, acts, m.kroot, m.pmm.Capacity());
        RunJoin(states, actions, more, acts, m.kroot, m.pmm.Capacity());
        AnsweredMore(calls, states, actions, m.kroot, at, i, more, acts);
        states, actions := states + more[1..], actions + acts;
      } else {
        AnsweredMore(calls, states, actions, m.kroot, at, i, [now], []);
        assert states + [now][1..] == states && actions + [] == actions;
      }
      at := at + [|actions|];
    }
    assert calls[..|calls|] == calls;
  }

  lemma AnsweredNone(calls: seq<Call>, k: Kernel, kroot: Frame)
    ensures Answered(calls[..0], [k], [], kroot, [0])
  {
  }

  /** Serves any list of calls from the state the boot-time mapping leaves. When nothing is left
      running or under construction, the free frames are those of that state, less the frames lost and
      the tables the kernel's half gained. */
  method ServeFromBoot(m: Machine, t: TaskTable, calls: seq<Call>)
      returns (ghost states: seq<Kernel>, ghost actions: seq<Action>, ghost at: seq<nat>)
    requires SpacesValid(m) && KernelRoot.KernelShape(m.W(), m.kroot) && OnlySlotZero(m.W(), m.kroot) &&
             m.pages == map[]
    requires m.arch.AArch64? && m.active == m.kroot && m.kroot != 0
    requires t.Valid() && t.State() == Boot(m.kroot, t.frames).s
    modifies m`mem, m`tags, m`pages, m`active, m.pmm.bitmap, t`current, t`register, t`initialized, t.tasks
    ensures KernelRun(states, actions, m.kroot, m.pmm.Capacity()) && AllTame(m.kroot, actions)
    ensures t.Valid() && states[|actions|].w == m.W() && states[|actions|].y.s == t.State()
    ensures var last := states[|actions|];
            last.y.live == {} && last.building == {} ==>
              m.pmm.FreeSet() == old(m.pmm.FreeSet()) - last.lost - KernelTables(m.W(), m.kroot)
    ensures states[0] == AtBoot(old(m.W()), m.kroot, t.frames) && Answered(calls, states, actions, m.kroot, at)
    ensures Accounted(m.W(), m.pages) <= old(Accounted(m.W(), m.pages)) && m.kroot == old(m.kroot)
    ensures old(KernelTables(m.W(), m.kroot)) <= KernelTables(m.W(), m.kroot)
  {
    hide Inv, Sound, Owned, SupervisorKernel, OnlySlotZero, Step, KernelTables, Accounted, Answered;
    ghost var w, cap := m.W(), m.pmm.Capacity();
    ghost var k := AtBoot(w, m.kroot, t.frames);
    StartInv(w, m.kroot, cap, t.frames);
    states, actions, at := PerformAll(m, t, calls, k, Accounted(w, map[]));
    BooksBound(states[|actions|], m.kroot, cap, Accounted(w, map[]));
    TablesGrow(states, actions, m.kroot, cap, Accounted(w, map[]), |actions|);
    if states[|actions|].y.live == {} && states[|actions|].building == {} {
      AllFramesReturn(states, actions, w, m.kroot, cap, t.frames, |actions|);
    }
  }

  lemma BooksBound(k: Kernel, kroot: Frame, cap: nat, all: set<Frame>)
    requires Inv(k, kroot, cap, all)
    ensures Accounted(k.w, k.pages) <= all
  {
    hide Ownership, Ids, MemoryInv, Accounted;
  }

  /** From a bitmap with every frame reserved: the pool is filled, boot memory protected, the kernel's
      root built, and any list of calls served. No table and no page of any process, and no frame left
      to hand out, holds a byte of the low megabyte, the kernel, the heap or the ramdisk; and when nothing
      is left running or under construction, every frame is back but the lost ones and the kernel's
      tables. */
  method RunFromReset(m: Machine, entries: Option<seq<Pmm.MemmapEntry>>, r: Pmm.BootRanges, frames: seq<nat>,
                      calls: seq<Call>)
    returns (t: TaskTable, ghost states: seq<Kernel>, ghost actions: seq<Action>, ghost at: seq<nat>)
    requires m.Valid() && m.arch.AArch64? && m.tags == map[] && m.pages == map[] && m.pmm.FreeSet() == {}
    requires Pmm.EndsFit(r) && |frames| == MAX_TASKS
    requires KernelRoot.RootAndPath(Pmm.BootFree(entries, r, m.pmm.Capacity()))
    modifies m, m.pmm.bitmap
    ensures KernelRun(states, actions, m.kroot, m.pmm.Capacity()) && AllTame(m.kroot, actions)
    ensures t.Valid() && states[|actions|].w == m.W() && states[|actions|].y.s == t.State()
    ensures Answered(calls, states, actions, m.kroot, at)
    ensures forall f, b: nat :: f in Accounted(m.W(), m.pages) && Pmm.BootByte(r, b) ==> b / PAGE_SIZE != f
    ensures var last := states[|actions|];
            last.y.live == {} && last.building == {} ==>
              m.pmm.FreeSet() ==
              Pmm.BootFree(entries, r, m.pmm.Capacity()) - last.lost - KernelTables(m.W(), m.kroot)
  {
    hide Inv, Sound, Owned, SupervisorKernel, OnlySlotZero, Step, KernelTables, Pmm.BootFree, Pmm.Protected,
         Pmm.BootByte, KernelRoot.RootAndPath, KernelRoot.KernelShape, KernelRoot.Stock, KernelRun, AllTame, Accounted,
         Answered;
    ghost var start := Pmm.BootFree(entries, r, m.pmm.Capacity());
    Pmm.BootPool(m.pmm, entries, r);
    EmptyStart(m.W(), m.kroot, r, start);
    var ok := KernelRoot.InitKernelRoot(m);
    ghost var w := m.W();
    StartStock(start, w, m.kroot, r);
    t := new TaskTable(m.kroot, frames);
    states, actions, at := ServeFromBoot(m, t, calls);
    RunShape(states, actions, m.kroot, m.pmm.Capacity());
    StillUnprotected(start, m.W(), m.pages, r);
    FreeFromReset(start, w, m.W(), m.kroot, states[|actions|].lost);
  }

  lemma EmptyStart(w: World, kroot: Frame, r: Pmm.BootRanges, start: set<Frame>)
    requires w.tags == map[] && w.free == start && start !! Pmm.Protected(r)
    ensures Sound(w, kroot) && 0 !in w.free && (KernelRoot.RootAndPath(start) ==> start != {})
  {
    assert Pmm.Within(0, 0, Pmm.LOW_FRAMES);
  }

  lemma StartStock(start: set<Frame>, w: World, kroot: Frame, r: Pmm.BootRanges)
    requires KernelRoot.Stock(w, start) && KernelRoot.KernelShape(w, kroot)
    ensures Accounted(w, map[]) == start && start == w.free + KernelTables(w, kroot)
  {
    hide Sound, Flat, SupervisorKernel;
  }

  lemma StillUnprotected(start: set<Frame>, w: World, pages: Tags, r: Pmm.BootRanges)
    requires Accounted(w, pages) <= start && start !! Pmm.Protected(r) && Pmm.EndsFit(r)
    ensures forall f, b: nat :: f in Accounted(w, pages) && Pmm.BootByte(r, b) ==> b / PAGE_SIZE != f
  {
    hide Accounted, Pmm.Protected, Pmm.BootByte, Pmm.EndsFit;
    forall f, b: nat | f in Accounted(w, pages) && Pmm.BootByte(r, b) ensures b / PAGE_SIZE != f {
      Pmm.ProtectedCoversBytes(r, b);
    }
  }

  lemma FreeFromReset(start: set<Frame>, w: World, w': World, kroot: Frame, lost: set<Frame>)
    requires start == w.free + KernelTables(w, kroot) && KernelTables(w, kroot) <= KernelTables(w', kroot)
    ensures w.free - lost - KernelTables(w', kroot) == start - lost - KernelTables(w', kroot)
  {
    hide KernelTables;
  }
}
