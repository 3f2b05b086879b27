/** Whole runs of the scheduler: who may free a root, who runs, who waits, and where messages go. */
module SchedulerRuns {
  import opened Basics
  import opened Scheduler

  datatype Event =
    | Spawn(mode: Mode, userStackTop: nat, freshRoot: Option<nat>)
    | Exit
    | Schedule(sp: nat)
    | Send(dest: nat, data: seq<Byte>)
    | Receive

  /** The scheduler together with the process roots allocated and not yet freed. */
  datatype Sys = Sys(s: Sched, live: set<nat>)

  function Boot(kroot: nat, frames: seq<nat>): Sys {
    Sys(Sched(seq(MAX_TASKS, i => EmptyTask()), 0, kroot, false, frames), {})
  }

  function FreshRoots(e: Event): set<nat> {
    if e.Spawn? && e.mode.IsolatedProcess? && e.freshRoot.Some? then {e.freshRoot.value} else {}
  }

  function Freed(s: Sched, e: Event): set<nat>
    requires Shaped(s)
  {
    if e.Schedule? && ScheduleStep(s, e.sp).freed.Some? then {ScheduleStep(s, e.sp).freed.value} else {}
  }

  function NextSched(s: Sched, e: Event): Sched
    requires Shaped(s)
  {
    match e
    case Spawn(mode, top, freshRoot) => SpawnStep(s, mode, top, freshRoot).0
    case Exit => ExitStep(s)
    case Schedule(sp) => ScheduleStep(s, sp).s
    case Send(dest, data) => SendStep(s, dest, data).0
    case Receive => ReceiveStep(s).0
  }

  function Next(y: Sys, e: Event): Sys
    requires Shaped(y.s)
  {
    Sys(NextSched(y.s, e), y.live + FreshRoots(e) - Freed(y.s, e))
  }

  /** A task that has exited only waits to be switched away. */
  predicate CanAct(s: Sched)
    requires Shaped(s)
  {
    s.initialized && !s.tasks[s.current].state.Terminated?
  }

  /** The allocator hands out roots that are not in use; code of a task runs only while it lives. */
  predicate Enabled(y: Sys, kroot: nat, e: Event)
    requires Shaped(y.s)
  {
    && (e.Schedule? || CanAct(y.s) || (e.Spawn? && !y.s.initialized))
    && (forall r :: r in FreshRoots(e) ==> r !in y.live && r != 0 && r != kroot)
  }

  /** A root is shared with a new task only by a context that does not own it. */
  predicate SharesBorrowed(s: Sched, e: Event)
    requires Shaped(s)
  {
    e.Spawn? && FreshRoots(e) == {} ==> !(s.tasks[s.current].ownsRoot && s.tasks[s.current].root == s.register)
  }

  ghost predicate Run(states: seq<Sys>, events: seq<Event>, kroot: nat, frames: seq<nat>) {
    && |states| == |events| + 1 && kroot != 0 && |frames| == MAX_TASKS
    && states[0] == Boot(kroot, frames)
    && (forall k :: 0 <= k < |states| ==> Shaped(states[k].s))
    && (forall k :: 0 <= k < |events| ==>
        Enabled(states[k], kroot, events[k]) && states[k + 1] == Next(states[k], events[k]))
  }

  // ---------------------------------------------------------------------------
  // Ownership of roots
  // ---------------------------------------------------------------------------

  /** Slot `i` owns a live root, or uses the kernel's, or is dead. */
  predicate SlotRoot(y: Sys, kroot: nat, i: nat)
    requires Shaped(y.s) && i < MAX_TASKS
  {
    var t := y.s.tasks[i];
    && (t.ownsRoot ==> t.root in y.live && t.root != 0 && t.root != kroot)
    && (!t.ownsRoot && !t.state.Terminated? ==> t.root == kroot)
    && (!t.ownsRoot ==> t.root == kroot || t.root == 0)
    && (t.ownsRoot && t.state.Terminated? ==> i == y.s.current)
  }

  predicate OwnersDiffer(s: Sched, i: nat, j: nat)
    requires Shaped(s) && i < MAX_TASKS && j < MAX_TASKS
  {
    i != j && s.tasks[i].ownsRoot && s.tasks[j].ownsRoot ==> s.tasks[i].root != s.tasks[j].root
  }

  ghost predicate Ownership(y: Sys, kroot: nat) {
    && Shaped(y.s) && kroot != 0
    && (forall i :: 0 <= i < MAX_TASKS ==> SlotRoot(y, kroot, i))
    && (forall i, j :: 0 <= i < MAX_TASKS && 0 <= j < MAX_TASKS ==> OwnersDiffer(y.s, i, j))
    && (y.s.register == kroot || (y.s.tasks[y.s.current].ownsRoot && y.s.tasks[y.s.current].root == y.s.register))
    && (!y.s.initialized ==> Untouched(y.s, kroot))
  }

  /** Before the first spawn every slot is empty. */
  predicate Untouched(s: Sched, kroot: nat)
    requires Shaped(s)
  {
    s.current == 0 && s.register == kroot && forall i :: 0 <= i < MAX_TASKS ==> s.tasks[i] == EmptyTask()
  }

  lemma OwnershipBoot(kroot: nat, frames: seq<nat>)
    requires kroot != 0 && |frames| == MAX_TASKS
    ensures Ownership(Boot(kroot, frames), kroot)
  {
  }

  lemma OwnershipSpawn(y: Sys, kroot: nat, e: Event)
    requires Ownership(y, kroot) && e.Spawn? && Enabled(y, kroot, e) && SharesBorrowed(y.s, e)
    ensures Ownership(Next(y, e), kroot)
  {
    var y' := Next(y, e);
    assert SlotRoot(y, kroot, y.s.current);
    forall i | 0 <= i < MAX_TASKS ensures SlotRoot(y', kroot, i) {
      assert SlotRoot(y, kroot, i);
    }
    forall i, j | 0 <= i < MAX_TASKS && 0 <= j < MAX_TASKS ensures OwnersDiffer(y'.s, i, j) {
      assert SlotRoot(y, kroot, i) && SlotRoot(y, kroot, j) && OwnersDiffer(y.s, i, j);
    }
  }

  /** What one spawn does to each slot: the first Terminated one becomes a Ready task of its own index,
      at its first frame, on the root the mode calls for, and in ring 3 if and only if it is a process with
      a user stack; its mailbox stays. The very first spawn starts slot 0, and nothing else changes. */
  lemma SpawnEffect(s: Sched, mode: Mode, top: nat, root: Option<nat>, i: nat)
    requires Shaped(s) && i < MAX_TASKS
    ensures var (s', ok) := SpawnStep(s, mode, top, root);
            var t, t' := s.tasks[i], s'.tasks[i];
            var chosen := t.state.Terminated? && forall k :: 0 <= k < i ==> !s.tasks[k].state.Terminated?;
            && (ok <==> exists k :: 0 <= k < MAX_TASKS && s.tasks[k].state.Terminated?)
            && s' == s.(tasks := s'.tasks, initialized := ok || s.initialized) && Shaped(s')
            && t'.mailbox == t.mailbox
            && (t'.state == if ok && !s.initialized && i == 0 then Running else if chosen then Ready else t.state)
            && (!chosen ==> t' == t.(state := t'.state))
            && (chosen ==>
                  && t'.id == i && t'.sp == s.frames[i] && t'.ownsRoot == (mode.IsolatedProcess? && root.Some?)
                  && (if t'.ownsRoot then Some(t'.root) == root else t'.root == s.register)
                  && (t'.isRing3 <==> mode == IsolatedProcess && top > 0))
  {
    var slot := FirstFree(s.tasks, 0);
    if slot.Some? {
      assert s.tasks[slot.value].state.Terminated?;
    }
  }

  /** The privilege of a task is the one it was spawned with, whatever happens afterwards: slot `i` runs in
      ring 3 if and only if its last spawn, event `m`, was of a process with a user stack. */
  lemma {:induction false} RingAsSpawned(states: seq<Sys>, events: seq<Event>, kroot: nat, frames: seq<nat>, n: nat,
                                         i: nat) returns (m: nat)
    requires Run(states, events, kroot, frames) && n <= |events| && i < MAX_TASKS
    requires exists k :: 0 <= k < n && SpawnsAt(states[k].s, events[k], i)
    ensures m < n && SpawnsAt(states[m].s, events[m], i)
    ensures forall k :: m < k < n ==> !SpawnsAt(states[k].s, events[k], i)
    ensures states[n].s.tasks[i].isRing3 <==> events[m].mode == IsolatedProcess && events[m].userStackTop > 0
  {
    hide NextSched, SpawnsAt, Enabled;
    var y, e := states[n - 1], events[n - 1];
    assert states[n] == Next(y, e);
    RingStep(y.s, e, i);
    if SpawnsAt(y.s, e, i) {
      m := n - 1;
    } else {
      m := RingAsSpawned(states, events, kroot, frames, n - 1, i);
    }
  }

  /** The event spawns a task into slot `i`, the first Terminated one. */
  predicate SpawnsAt(s: Sched, e: Event, i: nat): (r: bool)
    requires Shaped(s) && i < MAX_TASKS
    ensures r ==> e.Spawn?
  {
    e.Spawn? && s.tasks[i].state.Terminated? && forall k :: 0 <= k < i ==> !s.tasks[k].state.Terminated?
  }

  lemma RingStep(s: Sched, e: Event, i: nat)
    requires Shaped(s) && i < MAX_TASKS
    ensures Shaped(NextSched(s, e))
    ensures NextSched(s, e).tasks[i].isRing3 ==
            if SpawnsAt(s, e, i) then e.mode == IsolatedProcess && e.userStackTop > 0 else s.tasks[i].isRing3
  {
    if e.Spawn? {
      SpawnEffect(s, e.mode, e.userStackTop, e.freshRoot, i);
    } else if e.Schedule? && s.initialized {
      ScheduleEffect(s, e.sp);
      hide SaveCurrent, Pick, SwitchTo, ScheduleStep;
      var next := Pick(SaveCurrent(s, e.sp).tasks, s.current, 1);
      assert SlotAfter(s, e.sp, next, i, NextSched(s, e).tasks[i]);
    }
  }

  /** What one scheduling step does to each slot. */
  lemma ScheduleEffect(s: Sched, sp: nat)
    requires Shaped(s) && s.initialized
    ensures var out := ScheduleStep(s, sp);
            var next := Pick(SaveCurrent(s, sp).tasks, s.current, 1);
            && Shaped(out.s) && out.s.initialized && out.s.frames == s.frames
            && (next.None? ==> out.s == s && out.freed.None? && out.sp == sp)
            && (next.Some? ==>
                  && out.s.current == next.value && out.sp == out.s.tasks[next.value].sp
                  && (out.freed.Some? <==> s.tasks[s.current].state.Terminated? && s.tasks[s.current].ownsRoot)
                  && (out.freed.Some? ==> out.freed.value == s.tasks[s.current].root && next.value != s.current)
                  && out.s.register == (if s.tasks[next.value].root != s.tasks[s.current].root &&
                                        s.tasks[next.value].root != 0
                                        then s.tasks[next.value].root else s.register))
            && forall i :: 0 <= i < MAX_TASKS ==> SlotAfter(s, sp, next, i, out.s.tasks[i])
  {
    var s1 := SaveCurrent(s, sp);
    PickNone(s1.tasks, s.current, 1);
    assert s1.tasks[s.current].state.Ready? ==> Pick(s1.tasks, s.current, 1).Some?;
  }

  predicate SlotAfter(s: Sched, sp: nat, next: Option<nat>, i: nat, t: Task)
    requires Shaped(s) && i < MAX_TASKS
  {
    var was := s.tasks[i];
    var saved := i == s.current && sp != 0 && was.state.Running? && next.Some?;
    var reaped := i == s.current && next.Some? && was.state.Terminated? && was.ownsRoot;
    && t.id == was.id && t.mailbox == was.mailbox && t.isRing3 == was.isRing3
    && t.sp == (if saved then sp else was.sp)
    && t.ownsRoot == (was.ownsRoot && !reaped)
    && t.root == (if reaped then 0 else was.root)
    && t.state == (if next == Some(i) then Running else if saved then Ready else was.state)
  }

  /** The search fails only when no slot is Ready. */
  lemma {:induction false} PickNone(tasks: seq<Task>, from: nat, k: nat)
    requires |tasks| == MAX_TASKS && from < MAX_TASKS && 1 <= k <= MAX_TASKS + 1
    ensures Pick(tasks, from, k).None? ==> forall j :: k <= j <= MAX_TASKS ==> !tasks[Around(from, j)].state.Ready?
    decreases MAX_TASKS + 1 - k
  {
    if k <= MAX_TASKS {
      PickNone(tasks, from, k + 1);
    }
  }

  lemma OwnershipSchedule(y: Sys, kroot: nat, sp: nat)
    requires Ownership(y, kroot)
    ensures Ownership(Next(y, Schedule(sp)), kroot)
    ensures FreesSafely(y, Schedule(sp))
  {
    if y.s.initialized {
      var y' := Next(y, Schedule(sp));
      ScheduleEffect(y.s, sp);
      hide SaveCurrent, Pick, SwitchTo, ScheduleStep;
      var next := Pick(SaveCurrent(y.s, sp).tasks, y.s.current, 1);
      assert SlotRoot(y, kroot, y.s.current);
      if next.Some? {
        assert SlotRoot(y, kroot, next.value) && OwnersDiffer(y.s, next.value, y.s.current);
        assert SlotAfter(y.s, sp, next, next.value, y'.s.tasks[next.value]);
      }
      forall i | 0 <= i < MAX_TASKS ensures SlotRoot(y', kroot, i) {
        assert SlotRoot(y, kroot, i) && OwnersDiffer(y.s, i, y.s.current);
        assert SlotAfter(y.s, sp, next, i, y'.s.tasks[i]);
      }
      forall i, j | 0 <= i < MAX_TASKS && 0 <= j < MAX_TASKS ensures OwnersDiffer(y'.s, i, j) {
        assert OwnersDiffer(y.s, i, j);
        assert SlotAfter(y.s, sp, next, i, y'.s.tasks[i]) && SlotAfter(y.s, sp, next, j, y'.s.tasks[j]);
      }
      forall t, r | t in y'.s.tasks && !t.state.Terminated? && r in Freed(y.s, Schedule(sp)) ensures t.root != r {
        var i :| 0 <= i < MAX_TASKS && y'.s.tasks[i] == t;
        assert SlotRoot(y, kroot, i) && OwnersDiffer(y.s, i, y.s.current);
        assert SlotAfter(y.s, sp, next, i, t);
      }
    }
  }

  /** A root that the step frees was allocated and not yet freed, is not the root the hardware
      translates through afterwards, and is no live task's root. */
  ghost predicate FreesSafely(y: Sys, e: Event)
    requires Shaped(y.s)
  {
    forall r :: r in Freed(y.s, e) ==>
      && r in y.live
      && NextSched(y.s, e).register != r
      && forall t :: t in NextSched(y.s, e).tasks && !t.state.Terminated? ==> t.root != r
  }

  /** Slots that were ever used carry their own index as id. */
  ghost predicate Ids(s: Sched) {
    && Shaped(s)
    && (forall i :: 0 <= i < MAX_TASKS ==> s.tasks[i].id == i || (s.tasks[i].id == 0 && s.tasks[i].state.Terminated?))
    && (s.initialized ==> s.tasks[s.current].id == s.current)
    && (!s.initialized ==> s.current == 0)
  }

  lemma IdsStep(y: Sys, kroot: nat, e: Event)
    requires Ids(y.s) && Enabled(y, kroot, e)
    requires !y.s.initialized ==> Untouched(y.s, kroot)
    ensures Ids(NextSched(y.s, e))
  {
    if e.Schedule? && y.s.initialized {
      ScheduleEffect(y.s, e.sp);
      hide SaveCurrent, Pick, SwitchTo, ScheduleStep;
      var next := Pick(SaveCurrent(y.s, e.sp).tasks, y.s.current, 1);
      forall i | 0 <= i < MAX_TASKS ensures SlotAfter(y.s, e.sp, next, i, NextSched(y.s, e).tasks[i]) {
      }
      PickedLive(y.s, e.sp);
    }
  }

  lemma PickedLive(s: Sched, sp: nat)
    requires Shaped(s)
    ensures var next := Pick(SaveCurrent(s, sp).tasks, s.current, 1);
            next.Some? ==> next.value < MAX_TASKS && !s.tasks[next.value].state.Terminated?
  {
  }

  /** The caller of a receive is found under its own id. */
  lemma ReceiverIsCurrent(s: Sched)
    requires Ids(s) && s.initialized
    ensures FindId(s.tasks, s.current, 0) == Some(s.current)
  {
  }

  lemma OwnershipOther(y: Sys, kroot: nat, e: Event)
    requires Ownership(y, kroot) && Ids(y.s) && Enabled(y, kroot, e) && (e.Exit? || e.Send? || e.Receive?)
    ensures Ownership(Next(y, e), kroot)
  {
    hide SpawnStep, ScheduleStep, FindId, FindLive;
    var y' := Next(y, e);
    ReceiverIsCurrent(y.s);
    forall i | 0 <= i < MAX_TASKS ensures SlotRoot(y', kroot, i) {
      assert SlotRoot(y, kroot, i);
    }
    forall i, j | 0 <= i < MAX_TASKS && 0 <= j < MAX_TASKS ensures OwnersDiffer(y'.s, i, j) {
      assert OwnersDiffer(y.s, i, j);
    }
  }

  lemma OwnershipStep(y: Sys, kroot: nat, e: Event)
    requires Ownership(y, kroot) && Ids(y.s) && Enabled(y, kroot, e) && SharesBorrowed(y.s, e)
    ensures Ownership(Next(y, e), kroot) && Ids(Next(y, e).s) && FreesSafely(y, e)
  {
    hide Ownership, SpawnStep, ScheduleStep, SendStep, ReceiveStep;
    OwnershipParts(y, kroot);
    IdsStep(y, kroot, e);
    match e {
      case Spawn(_, _, _) => OwnershipSpawn(y, kroot, e);
      case Schedule(sp) => OwnershipSchedule(y, kroot, sp);
      case Exit => OwnershipOther(y, kroot, e);
      case Send(_, _) => OwnershipOther(y, kroot, e);
      case Receive => OwnershipOther(y, kroot, e);
    }
  }

  lemma OwnershipParts(y: Sys, kroot: nat)
    requires Ownership(y, kroot)
    ensures !y.s.initialized ==> Untouched(y.s, kroot)
  {
  }

  /** In every run in which roots are shared only by contexts that do not own them, each root is
      freed at most once per allocation, never while it is active or a live task's root, and a
      dead slot that still owns a root is the current slot, which no spawn can reuse. */
  lemma {:induction false} RootsFreedSafely(states: seq<Sys>, events: seq<Event>, kroot: nat, frames: seq<nat>, n: nat)
    requires Run(states, events, kroot, frames) && n <= |events|
    requires forall k :: 0 <= k < n ==> SharesBorrowed(states[k].s, events[k])
    ensures Ownership(states[n], kroot) && Ids(states[n].s)
    ensures forall k :: 0 <= k < n ==> FreesSafely(states[k], events[k])
  {
    if n == 0 {
      OwnershipBoot(kroot, frames);
    } else {
      RootsFreedSafely(states, events, kroot, frames, n - 1);
      OwnershipStep(states[n - 1], kroot, events[n - 1]);
    }
  }

  /** Without that condition the property fails: a thread spawned by a process keeps running on
      the process's root after it has been freed. */
  lemma SharingAnOwnedRootFails(kroot: nat, frames: seq<nat>, r: nat)
    requires |frames| == MAX_TASKS && kroot != 0 && r != 0 && r != kroot && forall f :: f in frames ==> f != 0
    ensures var y0 := Boot(kroot, frames);
            var y1 := Next(y0, Spawn(SharedThread, 0, None));
            var y2 := Next(y1, Spawn(IsolatedProcess, 4096, Some(r)));
            var y3 := Next(y2, Schedule(8));
            var y4 := Next(y3, Spawn(SharedThread, 0, None));
            var y5 := Next(y4, Exit);
            && !SharesBorrowed(y3.s, Spawn(SharedThread, 0, None))
            && Freed(y5.s, Schedule(8)) == {r} && NextSched(y5.s, Schedule(8)).register == r
  {
    var y0 := Boot(kroot, frames);
    var y1 := Next(y0, Spawn(SharedThread, 0, None));
    assert FirstFree(y0.s.tasks, 0) == Some(0);
    var y2 := Next(y1, Spawn(IsolatedProcess, 4096, Some(r)));
    assert FirstFree(y1.s.tasks, 0) == Some(1);
    assert y2.s.tasks[1].state.Ready? && y2.s.tasks[0].state.Running?;
    assert y2.s.tasks[0].root == kroot && y2.s.tasks[1].root == r;
    var y3 := Next(y2, Schedule(8));
    assert Around(0, 1) == 1;
    assert Pick(SaveCurrent(y2.s, 8).tasks, 0, 1) == Some(1);
    assert y3.s.current == 1 && y3.s.register == r;
    var y4 := Next(y3, Spawn(SharedThread, 0, None));
    assert y3.s.tasks[0].state.Ready? && y3.s.tasks[1].state.Running? && y3.s.tasks[2].state.Terminated?;
    assert FirstFree(y3.s.tasks, 0) == Some(2);
    var y5 := Next(y4, Exit);
    assert Around(1, 1) == 2;
    assert Pick(y5.s.tasks, 1, 1) == Some(2);
  }

  /** And it fails from every state, not in one run only: whenever a task that owns its root spawns a
      thread, its exit and the next scheduling call, with any stack pointer, free the root while the
      thread still uses it. */
  lemma SharingAlwaysFails(y: Sys, kroot: nat, e: Event, sp: nat)
    requires Ownership(y, kroot) && e.Spawn? && Enabled(y, kroot, e) && y.s.initialized && FirstFree(y.s.tasks, 0).Some?
    requires !SharesBorrowed(y.s, e)
    ensures Shaped(Next(y, e).s) && Shaped(Next(Next(y, e), Exit).s) &&
            !FreesSafely(Next(Next(y, e), Exit), Schedule(sp))
  {
    hide Pick, SaveCurrent, ScheduleStep, SwitchTo;
    var i, c := FirstFree(y.s.tasks, 0).value, y.s.current;
    var y2 := Next(Next(y, e), Exit);
    assert i != c && y2.s.tasks[i].state.Ready? && y2.s.tasks[i].root == y.s.tasks[c].root;
    var r := y.s.tasks[c].root;
    DistanceRange(c, i);
    NothingSaved(y2.s, sp);
    PickNearest(y2.s.tasks, c, 1, i);
    ScheduleEffect(y2.s, sp);
    var next := Pick(y2.s.tasks, c, 1);
    var s' := NextSched(y2.s, Schedule(sp));
    assert SlotAfter(y2.s, sp, next, i, s'.tasks[i]);
    assert r in Freed(y2.s, Schedule(sp)) && s'.tasks[i] in s'.tasks;
  }

  lemma NothingSaved(s: Sched, sp: nat)
    requires Shaped(s) && s.tasks[s.current].state.Terminated?
    ensures SaveCurrent(s, sp) == s
  {
  }

  /** The condition is exact: when a spawn finds a slot, the caller's exit and the scheduling call after
      it free roots safely if and only if the caller does not share a root it owns. */
  lemma SpawnSafeIff(y: Sys, kroot: nat, e: Event, sp: nat)
    requires Ownership(y, kroot) && Ids(y.s) && e.Spawn? && Enabled(y, kroot, e) && y.s.initialized &&
             FirstFree(y.s.tasks, 0).Some?
    ensures Shaped(Next(y, e).s) && Shaped(Next(Next(y, e), Exit).s)
    ensures FreesSafely(Next(Next(y, e), Exit), Schedule(sp)) <==> SharesBorrowed(y.s, e)
  {
    hide ScheduleStep, Ownership, FreesSafely;
    if SharesBorrowed(y.s, e) {
      OwnershipStep(y, kroot, e);
      var y1 := Next(y, e);
      SpawnCanAct(y, e);
      OwnershipStep(y1, kroot, Exit);
      OwnershipStep(Next(y1, Exit), kroot, Schedule(sp));
    } else {
      SharingAlwaysFails(y, kroot, e, sp);
    }
  }

  lemma SpawnCanAct(y: Sys, e: Event)
    requires Shaped(y.s) && e.Spawn? && CanAct(y.s)
    ensures CanAct(Next(y, e).s)
  {
  }

  /** A process root is registered with a task exactly when a slot is free; otherwise it is lost. */
  lemma SpawnKeepsRootIff(s: Sched, mode: Mode, userStackTop: nat, r: nat)
    requires Shaped(s) && mode.IsolatedProcess?
    requires forall t :: t in s.tasks ==> t.root != r
    ensures var (s', ok) := SpawnStep(s, mode, userStackTop, Some(r));
            && (ok <==> exists i :: 0 <= i < MAX_TASKS && s.tasks[i].state.Terminated?)
            && (ok <==> exists i :: 0 <= i < MAX_TASKS && s'.tasks[i].ownsRoot && s'.tasks[i].root == r)
  {
    var slot := FirstFree(s.tasks, 0);
    var (s', ok) := SpawnStep(s, mode, userStackTop, Some(r));
    if slot.Some? {
      assert s'.tasks[slot.value].ownsRoot && s'.tasks[slot.value].root == r;
    }
  }

  /** Some slot owns the root, and so frees it when its task dies. */
  ghost predicate Owns(s: Sched, r: nat) {
    exists i :: 0 <= i < |s.tasks| && s.tasks[i].ownsRoot && s.tasks[i].root == r
  }

  /** A root that no slot owns is not freed, and gets an owner only as the fresh root of a spawn. */
  lemma UnownedStays(s: Sched, e: Event, r: nat)
    requires Shaped(s) && !Owns(s, r) && r !in FreshRoots(e)
    ensures !Owns(NextSched(s, e), r) && r !in Freed(s, e)
  {
    if e.Schedule? && s.initialized {
      ScheduleEffect(s, e.sp);
      hide SaveCurrent, Pick, SwitchTo, ScheduleStep;
      var next := Pick(SaveCurrent(s, e.sp).tasks, s.current, 1);
      forall i | 0 <= i < MAX_TASKS && NextSched(s, e).tasks[i].ownsRoot ensures NextSched(s, e).tasks[i].root != r {
        assert SlotAfter(s, e.sp, next, i, NextSched(s, e).tasks[i]);
      }
    }
  }

  // ---------------------------------------------------------------------------
  // Bounded waiting
  // ---------------------------------------------------------------------------

  /** How many places the search goes before it reaches slot `t`: from 1 to MAX_TASKS. */
  function Distance(current: nat, t: nat): nat
    requires current < MAX_TASKS && t < MAX_TASKS
  {
    (t + MAX_TASKS - current - 1) % MAX_TASKS + 1
  }

  lemma DistanceRange(current: nat, t: nat)
    requires current < MAX_TASKS && t < MAX_TASKS
    ensures 1 <= Distance(current, t) <= MAX_TASKS
  {
  }

  /** The search stops at the nearest Ready slot. */
  lemma {:induction false} PickNearest(tasks: seq<Task>, from: nat, k: nat, t: nat)
    requires |tasks| == MAX_TASKS && from < MAX_TASKS && t < MAX_TASKS && tasks[t].state.Ready?
    requires 1 <= k <= Distance(from, t)
    ensures Pick(tasks, from, k).Some?
    ensures var n := Pick(tasks, from, k).value; n == t || Distance(n, t) < Distance(from, t)
    decreases MAX_TASKS + 1 - k
  {
    if !tasks[Around(from, k)].state.Ready? {
      PickNearest(tasks, from, k + 1, t);
    }
  }

  /** A scheduling step selects a Ready slot or brings the search strictly closer to it. */
  lemma ScheduleCloser(s: Sched, sp: nat, t: nat)
    requires Shaped(s) && s.initialized && t < MAX_TASKS && s.tasks[t].state.Ready?
    ensures var s' := NextSched(s, Schedule(sp));
            && Shaped(s') && s'.initialized
            && (s'.tasks[t].state.Ready? ==> Distance(s'.current, t) < Distance(s.current, t))
  {
    PickNearest(SaveCurrent(s, sp).tasks, s.current, 1, t);
    ScheduleEffect(s, sp);
    var next := Pick(SaveCurrent(s, sp).tasks, s.current, 1);
    assert SlotAfter(s, sp, next, t, ScheduleStep(s, sp).s.tasks[t]);
  }

  function Schedules(events: seq<Event>): nat {
    if events == [] then 0 else Schedules(events[..|events| - 1]) + (if events[|events| - 1].Schedule? then 1 else 0)
  }

  lemma OthersKeepPlace(s: Sched, e: Event)
    requires Shaped(s) && s.initialized && !e.Schedule?
    ensures Shaped(NextSched(s, e)) && NextSched(s, e).initialized && NextSched(s, e).current == s.current
  {
  }

  /** A slot that is Ready from state `a` to state `b` has been passed over by fewer scheduling
      calls than its distance, hence by fewer than MAX_TASKS, whatever else happens in between. */
  lemma {:induction false} BoundedWaiting(states: seq<Sys>, events: seq<Event>, kroot: nat, frames: seq<nat>, a: nat,
                                          b: nat, t: nat)
    requires Run(states, events, kroot, frames) && a <= b <= |events| && t < MAX_TASKS
    requires states[a].s.initialized
    requires forall k :: a <= k <= b ==> states[k].s.tasks[t].state.Ready?
    ensures states[b].s.initialized
    ensures Schedules(events[a..b]) + Distance(states[b].s.current, t) <= Distance(states[a].s.current, t)
    ensures Schedules(events[a..b]) < MAX_TASKS
  {
    hide Distance, NextSched, ScheduleStep, Enabled;
    DistanceRange(states[b].s.current, t);
    DistanceRange(states[a].s.current, t);
    if a < b {
      BoundedWaiting(states, events, kroot, frames, a, b - 1, t);
      assert events[a..b][..b - a - 1] == events[a..b - 1];
      var e := events[b - 1];
      assert states[b] == Next(states[b - 1], e);
      if e.Schedule? {
        ScheduleCloser(states[b - 1].s, e.sp, t);
      } else {
        OthersKeepPlace(states[b - 1].s, e);
      }
    }
  }

  // ---------------------------------------------------------------------------
  // Who runs, and where it resumes
  // ---------------------------------------------------------------------------

  /** Only the current slot can be Running. */
  ghost predicate OneRunning(s: Sched) {
    Shaped(s) && forall i :: 0 <= i < MAX_TASKS && s.tasks[i].state.Running? ==> s.initialized && i == s.current
  }

  lemma OneRunningStep(s: Sched, e: Event)
    requires OneRunning(s) && Ids(s) && (!s.initialized ==> forall i :: 0 <= i < MAX_TASKS ==>
                                         s.tasks[i] == EmptyTask())
    requires e.Schedule? ==> e.sp != 0
    requires !s.initialized ==> e.Schedule? || e.Spawn?
    ensures OneRunning(NextSched(s, e))
  {
    if e.Schedule? && s.initialized {
      ScheduleEffect(s, e.sp);
      var next := Pick(SaveCurrent(s, e.sp).tasks, s.current, 1);
      forall i | 0 <= i < MAX_TASKS ensures SlotAfter(s, e.sp, next, i, NextSched(s, e).tasks[i]) {
      }
    }
  }

  /** In every run with nonzero stack pointers a Running slot is the current slot. */
  lemma {:induction false} RunningIsCurrent(states: seq<Sys>, events: seq<Event>, kroot: nat, frames: seq<nat>, n: nat)
    requires Run(states, events, kroot, frames) && n <= |events|
    requires forall k :: 0 <= k < n && events[k].Schedule? ==> events[k].sp != 0
    ensures OneRunning(states[n].s)
  {
    if n > 0 {
      hide NextSched, OneRunning, Mailboxes, Ids, Pending;
      RunningIsCurrent(states, events, kroot, frames, n - 1);
      MessagesConserved(states, events, kroot, frames, 0, n - 1);
      MailboxesIds(states[n - 1].s);
      assert Enabled(states[n - 1], kroot, events[n - 1]);
      OneRunningStep(states[n - 1].s, events[n - 1]);
    }
  }

  lemma MailboxesIds(s: Sched)
    requires Mailboxes(s)
    ensures Ids(s)
  {
  }

  /** With a zero stack pointer the outgoing task stays Running, so a step keeps a single Running
      slot exactly when it does not switch away from a Running task without a stack pointer. */
  lemma ZeroStackPointer(s: Sched, sp: nat)
    requires OneRunning(s) && s.initialized
    ensures OneRunning(ScheduleStep(s, sp).s)
            <==> !(sp == 0 && s.tasks[s.current].state.Running? && Pick(s.tasks, s.current, 1).Some?)
  {
    ScheduleEffect(s, sp);
    var next := Pick(SaveCurrent(s, sp).tasks, s.current, 1);
    var s' := ScheduleStep(s, sp).s;
    forall i | 0 <= i < MAX_TASKS ensures SlotAfter(s, sp, next, i, s'.tasks[i]) {
    }
    if sp == 0 && s.tasks[s.current].state.Running? && next.Some? {
      assert s'.tasks[s.current].state.Running? && s'.current != s.current;
    }
  }

  /** Event `k` sets the stack pointer of slot `i`: it spawns a task there, or preempts it while Running. */
  predicate SetsSp(s: Sched, e: Event, i: nat)
    requires Shaped(s)
  {
    || (e.Spawn? && FirstFree(s.tasks, 0) == Some(i))
    || (e.Schedule? && e.sp != 0 && s.initialized && s.current == i && s.tasks[i].state.Running?)
  }

  function SpSet(s: Sched, e: Event, i: nat): nat
    requires Shaped(s) && i < MAX_TASKS
  {
    if e.Schedule? then e.sp else s.frames[i]
  }

  lemma SpStep(s: Sched, e: Event, i: nat)
    requires Shaped(s) && i < MAX_TASKS
    ensures Shaped(NextSched(s, e)) && NextSched(s, e).frames == s.frames
    ensures NextSched(s, e).tasks[i].sp == if SetsSp(s, e, i) then SpSet(s, e, i) else s.tasks[i].sp
  {
    if e.Schedule? && s.initialized {
      ScheduleEffect(s, e.sp);
      var next := Pick(SaveCurrent(s, e.sp).tasks, s.current, 1);
      assert SlotAfter(s, e.sp, next, i, NextSched(s, e).tasks[i]);
      if e.sp != 0 && s.tasks[s.current].state.Running? {
        SavedIsReady(s, e.sp);
      }
      hide SaveCurrent, Pick, SwitchTo, ScheduleStep;
    }
  }

  lemma SavedIsReady(s: Sched, sp: nat)
    requires Shaped(s) && sp != 0 && s.tasks[s.current].state.Running?
    ensures Pick(SaveCurrent(s, sp).tasks, s.current, 1).Some?
  {
    var tasks := SaveCurrent(s, sp).tasks;
    PickNearest(tasks, s.current, 1, s.current);
  }

  /** A task that is switched to resumes where it was last preempted while Running or, if that has
      not happened since it was spawned, at its first frame: the stack pointer it gets was set by
      some event `m`, and no later event set it. */
  lemma {:induction false} ResumesWhereLeft(states: seq<Sys>, events: seq<Event>, kroot: nat, frames: seq<nat>, n: nat,
                                            i: nat) returns (m: nat)
    requires Run(states, events, kroot, frames) && n <= |events| && i < MAX_TASKS
    requires exists k :: 0 <= k < n && SetsSp(states[k].s, events[k], i)
    ensures m < n && SetsSp(states[m].s, events[m], i)
    ensures forall k :: m < k < n ==> !SetsSp(states[k].s, events[k], i)
    ensures states[n].s.tasks[i].sp == if events[m].Schedule? then events[m].sp else frames[i]
    ensures states[n].s.frames == frames
  {
    hide NextSched, SetsSp, Enabled, SpSet;
    FramesFixed(states, events, kroot, frames, n - 1);
    var y, e := states[n - 1], events[n - 1];
    assert states[n] == Next(y, e);
    SpStep(y.s, e, i);
    SpSetIs(y.s, e, i);
    if SetsSp(states[n - 1].s, events[n - 1], i) {
      m := n - 1;
    } else {
      m := ResumesWhereLeft(states, events, kroot, frames, n - 1, i);
    }
  }

  lemma SpSetIs(s: Sched, e: Event, i: nat)
    requires Shaped(s) && i < MAX_TASKS
    ensures SpSet(s, e, i) == if e.Schedule? then e.sp else s.frames[i]
  {
  }

  lemma {:induction false} FramesFixed(states: seq<Sys>, events: seq<Event>, kroot: nat, frames: seq<nat>, n: nat)
    requires Run(states, events, kroot, frames) && n <= |events|
    ensures states[n].s.frames == frames
  {
    if n > 0 {
      FramesFixed(states, events, kroot, frames, n - 1);
      SpStep(states[n - 1].s, events[n - 1], 0);
    }
  }

  /** Switching away records the caller's stack pointer exactly when the caller was Running: a
      task that blocked itself resumes at an older one. */
  lemma SavedIffRunning(s: Sched, sp: nat)
    requires Shaped(s) && s.initialized && sp != 0 && s.tasks[s.current].sp != sp
    ensures ScheduleStep(s, sp).s.tasks[s.current].sp == sp <==> s.tasks[s.current].state.Running?
  {
    SpStep(s, Schedule(sp), s.current);
  }

  /** And tasks do block themselves: whoever receives from an empty mailbox is switched away without its
      stack pointer being recorded, whatever it is. */
  lemma BlockingLosesPointer(s: Sched, sp: nat)
    requires Ids(s) && CanAct(s) && s.tasks[s.current].mailbox.None?
    ensures var s' := ReceiveStep(s).0;
            && Shaped(s') && s'.tasks[s'.current].state.Blocked?
            && ScheduleStep(s', sp).s.tasks[s.current].sp == s.tasks[s.current].sp
  {
    ReceiverIsCurrent(s);
    var s' := ReceiveStep(s).0;
    ScheduleEffect(s', sp);
    hide SaveCurrent, Pick, SwitchTo, ScheduleStep, ReceiveStep;
    var next := Pick(SaveCurrent(s', sp).tasks, s'.current, 1);
    assert SlotAfter(s', sp, next, s.current, ScheduleStep(s', sp).s.tasks[s.current]);
  }

  // ---------------------------------------------------------------------------
  // Mailboxes
  // ---------------------------------------------------------------------------

  /** The task of slot `i` lives and has the id `dest`. */
  predicate Addressed(s: Sched, dest: nat, i: nat)
    requires Shaped(s) && i < MAX_TASKS
  {
    s.tasks[i].id == dest && !s.tasks[i].state.Terminated?
  }

  /** Whom a message can reach decides what becomes of it: it is delivered if and only if a live task of
      that id has an empty mailbox, refused as full if and only if such a task has a full one, and reported
      lost if and only if there is no such task. */
  lemma SendOutcome(s: Sched, dest: nat, data: seq<Byte>)
    requires Ids(s)
    ensures var r := SendStep(s, dest, data).1;
            && (r.Sent? <==> exists i :: 0 <= i < MAX_TASKS && Addressed(s, dest, i) && s.tasks[i].mailbox.None?)
            && (r.MailboxFull? <==> exists i :: 0 <= i < MAX_TASKS && Addressed(s, dest, i) && s.tasks[i].mailbox.Some?)
            && (r.NotFound? <==> forall i :: 0 <= i < MAX_TASKS ==> !Addressed(s, dest, i))
  {
    var found := FindLive(s.tasks, dest, 0);
    if found.Some? {
      assert Addressed(s, dest, found.value);
    }
  }

  /** What becomes of slot `i` when a message is sent: only the slot it is addressed to changes, and only
      if its mailbox is empty; it then holds the sender's message and, if it slept, wakes up. */
  lemma SendEffect(s: Sched, dest: nat, data: seq<Byte>, i: nat)
    requires Ids(s) && i < MAX_TASKS
    ensures var s' := SendStep(s, dest, data).0;
            var t, t' := s.tasks[i], s'.tasks[i];
            && s' == s.(tasks := s'.tasks) && |s'.tasks| == MAX_TASKS
            && if Addressed(s, dest, i) && t.mailbox.None? then
                 && t' == t.(mailbox := Some(Message(s.current, data)), state := t'.state)
                 && t'.state == (if t.state.Blocked? then Ready else t.state)
               else t' == t
  {
    var found := FindLive(s.tasks, dest, 0);
    assert found.Some? && Addressed(s, dest, i) ==> found.value == i;
  }

  /** Receiving hands the running task what its own mailbox holds. The mailbox is empty afterwards, and
      its owner sleeps if it was empty before; no other slot changes. */
  lemma ReceiveEffect(s: Sched, i: nat)
    requires Ids(s) && s.initialized && i < MAX_TASKS
    ensures var (s', r) := ReceiveStep(s);
            var t, t' := s.tasks[i], s'.tasks[i];
            && s' == s.(tasks := s'.tasks) && |s'.tasks| == MAX_TASKS && r == s.tasks[s.current].mailbox
            && if i == s.current then
                 t' == t.(mailbox := None, state := if t.mailbox.None? then Blocked else t.state)
               else t' == t
  {
    ReceiverIsCurrent(s);
  }

  /** The three outcomes and the effects hold in every state of every run. */
  lemma SendInRun(states: seq<Sys>, events: seq<Event>, kroot: nat, frames: seq<nat>, n: nat, dest: nat,
                  data: seq<Byte>)
    requires Run(states, events, kroot, frames) && n <= |events|
    ensures var s := states[n].s;
            var (s', r) := SendStep(s, dest, data);
            && (r.Sent? <==> exists i :: 0 <= i < MAX_TASKS && Addressed(s, dest, i) && s.tasks[i].mailbox.None?)
            && (r.MailboxFull? <==> exists i :: 0 <= i < MAX_TASKS && Addressed(s, dest, i) && s.tasks[i].mailbox.Some?)
            && (r.NotFound? <==> forall i :: 0 <= i < MAX_TASKS ==> !Addressed(s, dest, i))
            && (!r.Sent? ==> s' == s)
    ensures forall i, j :: 0 <= i < j < MAX_TASKS && Addressed(states[n].s, dest, i) ==>
            !Addressed(states[n].s, dest, j)
  {
    hide Accepted, Received, Untouched, FindLive, Enabled, NextSched;
    MessagesConserved(states, events, kroot, frames, 0, n);
    SendOutcome(states[n].s, dest, data);
  }

  /** The messages slot `i` accepts: those sent to its id while it lives and its mailbox is empty. */
  function AcceptedBy(s: Sched, e: Event, i: nat): seq<Message>
    requires Shaped(s) && i < MAX_TASKS
  {
    if e.Send? && Addressed(s, e.dest, i) && s.tasks[i].mailbox.None? then [Message(s.current, e.data)] else []
  }

  /** The messages taken from slot `i`: what its mailbox holds when it is the one that receives. */
  function TakenFrom(s: Sched, e: Event, i: nat): seq<Message>
    requires Shaped(s) && i < MAX_TASKS
  {
    if e.Receive? && s.current == i then Pending(s.tasks[i]) else []
  }

  function Pending(t: Task): seq<Message> {
    if t.mailbox.Some? then [t.mailbox.value] else []
  }

  /** All messages accepted for slot `i` in the first `n` events, in order. */
  ghost function Accepted(states: seq<Sys>, events: seq<Event>, i: nat, n: nat): seq<Message>
    requires n <= |events| < |states| && i < MAX_TASKS && forall k :: 0 <= k < |states| ==> Shaped(states[k].s)
  {
    if n == 0 then [] else Accepted(states, events, i, n - 1) + AcceptedBy(states[n - 1].s, events[n - 1], i)
  }

  ghost function Received(states: seq<Sys>, events: seq<Event>, i: nat, n: nat): seq<Message>
    requires n <= |events| < |states| && i < MAX_TASKS && forall k :: 0 <= k < |states| ==> Shaped(states[k].s)
  {
    if n == 0 then [] else Received(states, events, i, n - 1) + TakenFrom(states[n - 1].s, events[n - 1], i)
  }

  ghost predicate Mailboxes(s: Sched) {
    Ids(s) && forall i :: 0 <= i < MAX_TASKS && s.tasks[i].state.Blocked? ==> s.tasks[i].mailbox.None?
  }

  lemma MailboxStep(y: Sys, kroot: nat, e: Event, i: nat)
    requires Mailboxes(y.s) && Enabled(y, kroot, e) && i < MAX_TASKS
    requires !y.s.initialized ==> Untouched(y.s, kroot)
    ensures Mailboxes(NextSched(y.s, e))
    ensures Pending(y.s.tasks[i]) + AcceptedBy(y.s, e, i) == TakenFrom(y.s, e, i) + Pending(NextSched(y.s, e).tasks[i])
  {
    if e.Schedule? && y.s.initialized {
      MailboxSchedule(y, kroot, e, i);
    } else if e.Spawn? {
      MailboxSpawn(y, kroot, e, i);
    } else {
      MailboxOther(y, kroot, e, i);
    }
  }

  lemma MailboxSchedule(y: Sys, kroot: nat, e: Event, i: nat)
    requires Mailboxes(y.s) && Enabled(y, kroot, e) && i < MAX_TASKS && e.Schedule? && y.s.initialized
    ensures Mailboxes(NextSched(y.s, e))
    ensures Pending(y.s.tasks[i]) + AcceptedBy(y.s, e, i) == TakenFrom(y.s, e, i) + Pending(NextSched(y.s, e).tasks[i])
  {
    hide SaveCurrent, Pick, SwitchTo, ScheduleStep, FindId, FirstFree;
    IdsStep(y, kroot, e);
    ScheduleEffect(y.s, e.sp);
    var next := Pick(SaveCurrent(y.s, e.sp).tasks, y.s.current, 1);
    forall j | 0 <= j < MAX_TASKS ensures SlotAfter(y.s, e.sp, next, j, NextSched(y.s, e).tasks[j]) {
    }
  }

  lemma MailboxSpawn(y: Sys, kroot: nat, e: Event, i: nat)
    requires Mailboxes(y.s) && Enabled(y, kroot, e) && i < MAX_TASKS && e.Spawn?
    requires !y.s.initialized ==> Untouched(y.s, kroot)
    ensures Mailboxes(NextSched(y.s, e))
    ensures Pending(y.s.tasks[i]) + AcceptedBy(y.s, e, i) == TakenFrom(y.s, e, i) + Pending(NextSched(y.s, e).tasks[i])
  {
    hide FindId, FirstFree, FindLive;
    IdsStep(y, kroot, e);
  }

  lemma MailboxOther(y: Sys, kroot: nat, e: Event, i: nat)
    requires Mailboxes(y.s) && Enabled(y, kroot, e) && i < MAX_TASKS
    requires !e.Spawn? && !(e.Schedule? && y.s.initialized)
    requires !y.s.initialized ==> Untouched(y.s, kroot)
    ensures Mailboxes(NextSched(y.s, e))
    ensures Pending(y.s.tasks[i]) + AcceptedBy(y.s, e, i) == TakenFrom(y.s, e, i) + Pending(NextSched(y.s, e).tasks[i])
  {
    IdsStep(y, kroot, e);
    if e.Send? {
      OtherMailboxes(y.s, e);
      SendEffect(y.s, e.dest, e.data, i);
    } else if e.Receive? {
      OtherMailboxes(y.s, e);
      ReceiveEffect(y.s, i);
    }
    hide SendStep, ReceiveStep, Pick, SwitchTo, SaveCurrent, SpawnStep;
  }

  lemma OtherMailboxes(s: Sched, e: Event)
    requires Mailboxes(s) && (e.Send? || (e.Receive? && s.initialized))
    ensures forall j :: 0 <= j < MAX_TASKS && NextSched(s, e).tasks[j].state.Blocked? ==>
            NextSched(s, e).tasks[j].mailbox.None?
  {
    forall j | 0 <= j < MAX_TASKS && NextSched(s, e).tasks[j].state.Blocked?
      ensures NextSched(s, e).tasks[j].mailbox.None?
    {
      if e.Send? {
        SendEffect(s, e.dest, e.data, j);
      } else {
        ReceiveEffect(s, j);
      }
    }
  }

  /** For every slot the messages accepted are the messages received followed by the pending one,
      and a Blocked slot has nothing pending, so no wake-up is lost. */
  lemma {:induction false} MessagesConserved(states: seq<Sys>, events: seq<Event>, kroot: nat, frames: seq<nat>,
                                             i: nat, n: nat)
    requires Run(states, events, kroot, frames) && n <= |events| && i < MAX_TASKS
    ensures Mailboxes(states[n].s) && (!states[n].s.initialized ==> Untouched(states[n].s, kroot))
    ensures Accepted(states, events, i, n) == Received(states, events, i, n) + Pending(states[n].s.tasks[i])
  {
    hide NextSched, AcceptedBy, TakenFrom, Enabled, Mailboxes, Untouched;
    BootMailboxes(kroot, frames);
    if n > 0 {
      MessagesConserved(states, events, kroot, frames, i, n - 1);
      var y, e := states[n - 1], events[n - 1];
      MailboxStep(y, kroot, e, i);
      UntouchedStep(y, kroot, e);
      assert states[n] == Next(y, e);
      var acc, rec := Accepted(states, events, i, n - 1), Received(states, events, i, n - 1);
      assert acc + AcceptedBy(y.s, e, i) == rec + (Pending(y.s.tasks[i]) + AcceptedBy(y.s, e, i));
      assert rec + (TakenFrom(y.s, e, i) + Pending(states[n].s.tasks[i])) == rec + TakenFrom(y.s, e, i) +
             Pending(states[n].s.tasks[i]);
    }
  }

  lemma BootMailboxes(kroot: nat, frames: seq<nat>)
    requires |frames| == MAX_TASKS
    ensures Mailboxes(Boot(kroot, frames).s) && Untouched(Boot(kroot, frames).s, kroot)
    ensures forall i :: 0 <= i < MAX_TASKS ==> Pending(Boot(kroot, frames).s.tasks[i]) == []
  {
  }

  lemma UntouchedStep(y: Sys, kroot: nat, e: Event)
    requires Shaped(y.s) && Enabled(y, kroot, e) && (!y.s.initialized ==> Untouched(y.s, kroot))
    ensures Shaped(NextSched(y.s, e)) && (!NextSched(y.s, e).initialized ==> Untouched(NextSched(y.s, e), kroot))
  {
    if e.Schedule? && y.s.initialized {
      ScheduleEffect(y.s, e.sp);
    }
  }

  /** Live task ids are pairwise different. */
  lemma LiveIdsUnique(s: Sched, i: nat, j: nat)
    requires Ids(s) && i < MAX_TASKS && j < MAX_TASKS && i != j
    requires !s.tasks[i].state.Terminated? && !s.tasks[j].state.Terminated?
    ensures s.tasks[i].id != s.tasks[j].id
  {
  }

  /** A slot's mailbox survives reuse: a new task starts with an empty mailbox exactly when the
      slot's last occupant left none pending. */
  lemma SpawnKeepsMailbox(s: Sched, mode: Mode, userStackTop: nat, freshRoot: Option<nat>)
    requires Shaped(s) && FirstFree(s.tasks, 0).Some?
    ensures var i := FirstFree(s.tasks, 0).value;
            SpawnStep(s, mode, userStackTop, freshRoot).0.tasks[i].mailbox == s.tasks[i].mailbox
  {
  }

  /** What that does: a message for a task that died reaches the next task of its slot. */
  lemma DeadLetter(kroot: nat, frames: seq<nat>, data: seq<Byte>)
    requires |frames| == MAX_TASKS && kroot != 0
    ensures var thread := Spawn(SharedThread, 0, None);
            var y3 := Next(Next(Next(Boot(kroot, frames), thread), thread), Send(0, data));
            var y6 := Next(Next(Next(y3, Exit), Schedule(8)), thread);
            var y7 := Next(y6, Schedule(8));
            && Shaped(y3.s) && Shaped(y6.s) && Shaped(y7.s)
            && FirstFree(Next(Next(y3, Exit), Schedule(8)).s.tasks, 0) == Some(0) && y7.s.current == 0
            && ReceiveStep(y7.s).1 == Some(Message(0, data))
  {
    var thread := Spawn(SharedThread, 0, None);
    var y0 := Boot(kroot, frames);
    assert FirstFree(y0.s.tasks, 0) == Some(0);
    var y1 := Next(y0, thread);
    assert FirstFree(y1.s.tasks, 0) == Some(1);
    var y2 := Next(y1, thread);
    assert FindLive(y2.s.tasks, 0, 0) == Some(0);
    var y3 := Next(y2, Send(0, data));
    var y4 := Next(y3, Exit);
    assert y4.s.tasks[0].mailbox == Some(Message(0, data)) && y4.s.tasks[0].state.Terminated?;
    assert y4.s.tasks[1].state.Ready? && Around(0, 1) == 1 && Pick(SaveCurrent(y4.s, 8).tasks, 0, 1) == Some(1);
    var y5 := Next(y4, Schedule(8));
    assert FirstFree(y5.s.tasks, 0) == Some(0);
    var y6 := Next(y5, thread);
    assert y6.s.tasks[0].state.Ready? && y6.s.tasks[0].mailbox == Some(Message(0, data));
    DeadLetterArrives(y6.s, data);
  }

  lemma DeadLetterArrives(s: Sched, data: seq<Byte>)
    requires Shaped(s) && s.initialized && s.current == 1 && s.tasks[0].state.Ready? && s.tasks[0].id == 0
    requires s.tasks[0].mailbox == Some(Message(0, data)) && s.tasks[1].state.Running?
    requires s.tasks[2].state.Terminated? && s.tasks[3].state.Terminated?
    ensures var s' := NextSched(s, Schedule(8));
            Shaped(s') && s'.current == 0 && ReceiveStep(s').1 == Some(Message(0, data))
  {
    assert Around(1, 1) == 2 && Around(1, 2) == 3 && Around(1, 3) == 0;
    var tasks := SaveCurrent(s, 8).tasks;
    assert Pick(tasks, 1, 3) == Some(0);
    assert Pick(tasks, 1, 2) == Some(0);
    assert Pick(tasks, 1, 1) == Some(0);
  }

  lemma {:induction false} HistoryGrows(states: seq<Sys>, events: seq<Event>, i: nat, a: nat, b: nat)
    requires a <= b <= |events| < |states| && i < MAX_TASKS && forall k :: 0 <= k < |states| ==> Shaped(states[k].s)
    ensures Accepted(states, events, i, a) <= Accepted(states, events, i, b)
    ensures Received(states, events, i, a) <= Received(states, events, i, b)
    decreases b
  {
    hide AcceptedBy, TakenFrom;
    if a < b {
      HistoryGrows(states, events, i, a, b - 1);
    }
  }

  /** Since any state `a` of a run, and so since a task was spawned into slot `i`, the slot was given the
      message then pending and after it the messages accepted since. What it received and has pending is
      exactly what was accepted since if and only if nothing was pending at `a`. */
  lemma OccupantMailIff(states: seq<Sys>, events: seq<Event>, kroot: nat, frames: seq<nat>, i: nat, a: nat, b: nat)
    requires Run(states, events, kroot, frames) && a <= b <= |events| && i < MAX_TASKS
    ensures |Accepted(states, events, i, a)| <= |Accepted(states, events, i, b)|
    ensures |Received(states, events, i, a)| <= |Received(states, events, i, b)|
    ensures var sent := Accepted(states, events, i, b)[|Accepted(states, events, i, a)|..];
            var given := Received(states, events, i, b)[|Received(states, events, i, a)|..];
            var left := Pending(states[b].s.tasks[i]);
            && given + left == Pending(states[a].s.tasks[i]) + sent
            && (given + left == sent <==> states[a].s.tasks[i].mailbox.None?)
  {
    HistoryGrows(states, events, i, a, b);
    MessagesConserved(states, events, kroot, frames, i, a);
    MessagesConserved(states, events, kroot, frames, i, b);
    hide Accepted, Received, Run, Mailboxes, Untouched;
    var accA, accB := Accepted(states, events, i, a), Accepted(states, events, i, b);
    var recA, recB := Received(states, events, i, a), Received(states, events, i, b);
    SinceThen(accA, accB, recA, recB, Pending(states[a].s.tasks[i]), Pending(states[b].s.tasks[i]));
  }

  lemma SinceThen(accA: seq<Message>, accB: seq<Message>, recA: seq<Message>, recB: seq<Message>, pendA: seq<Message>,
                  pendB: seq<Message>)
    requires accA <= accB && recA <= recB && accA == recA + pendA && accB == recB + pendB
    ensures recB[|recA|..] + pendB == pendA + accB[|accA|..]
  {
    assert accB == recA + pendA + accB[|accA|..];
    assert accB == recA + recB[|recA|..] + pendB;
    assert accB[|recA|..] == pendA + accB[|accA|..];
    assert accB[|recA|..] == recB[|recA|..] + pendB;
  }
}
