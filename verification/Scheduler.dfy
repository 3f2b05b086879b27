/** The task table and the round-robin scheduler, changed slot by slot. */
module Scheduler {
  import opened Basics

  const MAX_TASKS: nat := 4

  datatype TaskState = Ready | Running | Blocked | Terminated

  datatype Mode = IsolatedProcess | SharedThread

  datatype Message = Message(sender: nat, data: seq<Byte>)

  datatype Task = Task(id: nat, sp: nat, root: nat, ownsRoot: bool, isRing3: bool, state: TaskState,
                       mailbox: Option<Message>)

  /** The scheduler's state: the slots, the current index, the hardware root register, whether
      scheduling has begun, and where each slot's first stack frame lies. */
  datatype Sched = Sched(tasks: seq<Task>, current: nat, register: nat, initialized: bool, frames: seq<nat>)

  predicate Shaped(s: Sched) {
    |s.tasks| == MAX_TASKS && |s.frames| == MAX_TASKS && s.current < MAX_TASKS
  }

  function EmptyTask(): Task {
    Task(0, 0, 0, false, false, Terminated, None)
  }

  // ---------------------------------------------------------------------------
  // Steps
  // ---------------------------------------------------------------------------

  /** The first slot from `i` on whose state is Terminated. */
  function FirstFree(tasks: seq<Task>, i: nat): (r: Option<nat>)
    requires i <= |tasks|
    ensures r.Some? ==> i <= r.value < |tasks| && tasks[r.value].state.Terminated?
    ensures forall k :: i <= k < (if r.Some? then r.value else |tasks|) ==> !tasks[k].state.Terminated?
    decreases |tasks| - i
  {
    if i == |tasks| then None
    else if tasks[i].state.Terminated? then Some(i)
    else FirstFree(tasks, i + 1)
  }

  /** Initialising a slot writes every field but the mailbox. */
  function InitTask(t: Task, slot: nat, frame: nat, mode: Mode, root: nat, owns: bool, userStackTop: nat): Task {
    t.(id := slot, sp := frame, root := root, ownsRoot := owns, isRing3 := mode.IsolatedProcess? &&
       userStackTop != 0, state := Ready)
  }

  /** The root a new task gets: the caller's for a thread, a fresh one for a process, or the
      caller's again when no fresh root could be allocated. */
  function RootFor(register: nat, mode: Mode, freshRoot: Option<nat>): (nat, bool) {
    if mode.IsolatedProcess? && freshRoot.Some? then (freshRoot.value, true) else (register, false)
  }

  function SpawnStep(s: Sched, mode: Mode, userStackTop: nat, freshRoot: Option<nat>): (Sched, bool)
    requires Shaped(s)
  {
    match FirstFree(s.tasks, 0)
    case None => (s, false)
    case Some(i) =>
      var (root, owns) := RootFor(s.register, mode, freshRoot);
      var tasks := s.tasks[i := InitTask(s.tasks[i], i, s.frames[i], mode, root, owns, userStackTop)];
      if s.initialized then (s.(tasks := tasks), true)
      else (s.(tasks := tasks[0 := tasks[0].(state := Running)], initialized := true), true)
  }

  function ExitStep(s: Sched): Sched
    requires Shaped(s)
  {
    s.(tasks := s.tasks[s.current := s.tasks[s.current].(state := Terminated)])
  }

  /** The slot `k` places after `from`, around the table. */
  function Around(from: nat, k: nat): nat {
    (from + k) % MAX_TASKS
  }

  /** The first Ready slot among the `k`-th to the last place after `from`. */
  function Pick(tasks: seq<Task>, from: nat, k: nat): (r: Option<nat>)
    requires |tasks| == MAX_TASKS && 1 <= k <= MAX_TASKS + 1
    ensures r.Some? ==> r.value < MAX_TASKS && tasks[r.value].state.Ready?
    decreases MAX_TASKS + 1 - k
  {
    if k == MAX_TASKS + 1 then None
    else if tasks[Around(from, k)].state.Ready? then Some(Around(from, k))
    else Pick(tasks, from, k + 1)
  }

  lemma AroundNone(from: nat)
    requires from < MAX_TASKS
    ensures Around(from, 0) == from
  {
  }

  lemma PickExhausted(tasks: seq<Task>, from: nat)
    requires |tasks| == MAX_TASKS
    ensures Pick(tasks, from, MAX_TASKS + 1) == None
  {
  }

  lemma PickStep(tasks: seq<Task>, from: nat, k: nat)
    requires |tasks| == MAX_TASKS && k < MAX_TASKS
    ensures (Around(from, k) + 1) % MAX_TASKS == Around(from, k + 1) < MAX_TASKS
    ensures Pick(tasks, from, k + 1) ==
            if tasks[Around(from, k + 1)].state.Ready? then Some(Around(from, k + 1)) else Pick(tasks, from, k + 2)
  {
  }

  /** The outgoing task is saved if it is Running and the stack pointer is not zero. */
  function SaveCurrent(s: Sched, sp: nat): (s': Sched)
    requires Shaped(s)
    ensures Shaped(s')
  {
    if sp != 0 && s.tasks[s.current].state.Running?
    then s.(tasks := s.tasks[s.current := s.tasks[s.current].(sp := sp, state := Ready)])
    else s
  }

  /** Switching to `next`: load its root if it differs from the outgoing slot's, then take back
      the root of an outgoing slot that is Terminated and owns one. */
  function SwitchTo(s: Sched, next: nat): (Sched, Option<nat>)
    requires Shaped(s) && next < MAX_TASKS
  {
    var tasks := s.tasks[next := s.tasks[next].(state := Running)];
    var nextRoot := tasks[next].root;
    var register := if nextRoot != tasks[s.current].root && nextRoot != 0 then nextRoot else s.register;
    if tasks[s.current].state.Terminated? && tasks[s.current].ownsRoot
    then (s.(tasks := tasks[s.current := tasks[s.current].(ownsRoot := false, root := 0)], current := next,
             register := register),
          Some(tasks[s.current].root))
    else (s.(tasks := tasks, current := next, register := register), None)
  }

  datatype Scheduled = Scheduled(s: Sched, sp: nat, freed: Option<nat>)

  function ScheduleStep(s: Sched, sp: nat): Scheduled
    requires Shaped(s)
  {
    if !s.initialized then Scheduled(s, sp, None)
    else
      var s1 := SaveCurrent(s, sp);
      match Pick(s1.tasks, s.current, 1)
      case Some(next) =>
        var (s2, freed) := SwitchTo(s1, next);
        Scheduled(s2, s2.tasks[next].sp, freed)
      case None =>
        if s1.tasks[s.current].state.Ready?
        then Scheduled(s1.(tasks := s1.tasks[s.current := s1.tasks[s.current].(state := Running)]), sp, None)
        else Scheduled(s1, sp, None)
  }

  /** The first live slot with the given id. */
  function FindLive(tasks: seq<Task>, dest: nat, i: nat): (r: Option<nat>)
    requires i <= |tasks|
    ensures r.Some? ==> i <= r.value < |tasks| && tasks[r.value].id == dest && !tasks[r.value].state.Terminated?
    ensures forall k :: i <= k < (if r.Some? then r.value else |tasks|) ==>
            tasks[k].id != dest || tasks[k].state.Terminated?
    decreases |tasks| - i
  {
    if i == |tasks| then None
    else if tasks[i].id == dest && !tasks[i].state.Terminated? then Some(i)
    else FindLive(tasks, dest, i + 1)
  }

  datatype SendResult = Sent | MailboxFull | NotFound

  function Deliver(t: Task, msg: Message): Task {
    t.(mailbox := Some(msg), state := if t.state.Blocked? then Ready else t.state)
  }

  function SendStep(s: Sched, dest: nat, data: seq<Byte>): (Sched, SendResult)
    requires Shaped(s)
  {
    match FindLive(s.tasks, dest, 0)
    case None => (s, NotFound)
    case Some(i) =>
      if s.tasks[i].mailbox.Some? then (s, MailboxFull)
      else (s.(tasks := s.tasks[i := Deliver(s.tasks[i], Message(s.current, data))]), Sent)
  }

  /** The first slot with the given id, live or not. */
  function FindId(tasks: seq<Task>, id: nat, i: nat): (r: Option<nat>)
    requires i <= |tasks|
    ensures r.Some? ==> i <= r.value < |tasks| && tasks[r.value].id == id
    ensures forall k :: i <= k < (if r.Some? then r.value else |tasks|) ==> tasks[k].id != id
    decreases |tasks| - i
  {
    if i == |tasks| then None else if tasks[i].id == id then Some(i) else FindId(tasks, id, i + 1)
  }

  /** Takes the pending message, or blocks the caller when there is none. */
  function ReceiveStep(s: Sched): (Sched, Option<Message>)
    requires Shaped(s)
  {
    match FindId(s.tasks, s.current, 0)
    case None => (s, None)
    case Some(i) =>
      if s.tasks[i].mailbox.Some?
      then (s.(tasks := s.tasks[i := s.tasks[i].(mailbox := None)]), s.tasks[i].mailbox)
      else (s.(tasks := s.tasks[i := s.tasks[i].(state := Blocked)]), None)
  }

  // ---------------------------------------------------------------------------
  // The table in place
  // ---------------------------------------------------------------------------

  class TaskTable {
    const tasks: array<Task>
    var current: nat
    var register: nat
    var initialized: bool
    const frames: seq<nat>

    ghost predicate Valid()
      reads this, tasks
    {
      tasks.Length == MAX_TASKS && |frames| == MAX_TASKS && current < MAX_TASKS
    }

    ghost function State(): (s: Sched)
      requires Valid()
      reads this, tasks
      ensures Shaped(s)
    {
      Sched(tasks[..], current, register, initialized, frames)
    }

    constructor (bootRoot: nat, stackFrames: seq<nat>)
      requires |stackFrames| == MAX_TASKS
      ensures Valid() && fresh(tasks)
      ensures State() == Sched(seq(MAX_TASKS, i => EmptyTask()), 0, bootRoot, false, stackFrames)
    {
      tasks := new Task[MAX_TASKS](i => EmptyTask());
      current, register, initialized := 0, bootRoot, false;
      frames := stackFrames;
    }

    method Spawn(mode: Mode, userStackTop: nat, freshRoot: Option<nat>) returns (ok: bool)
      requires Valid()
      modifies this`initialized, tasks
      ensures Valid() && (State(), ok) == SpawnStep(old(State()), mode, userStackTop, freshRoot)
    {
      var (root, owns) := RootFor(register, mode, freshRoot);
      ghost var before := tasks[..];
      for i := 0 to MAX_TASKS
        invariant tasks[..] == before && initialized == old(initialized)
        invariant FirstFree(before, 0) == FirstFree(before, i)
      {
        if tasks[i].state.Terminated? {
          tasks[i] := InitTask(tasks[i], i, frames[i], mode, root, owns, userStackTop);
          assert tasks[..] == before[i := tasks[i]];
          if !initialized {
            ghost var mid := tasks[..];
            tasks[0] := tasks[0].(state := Running);
            assert tasks[..] == mid[0 := tasks[0]];
            initialized := true;
          }
          return true;
        }
      }
      ok := false;
    }

    method Exit()
      requires Valid()
      modifies tasks
      ensures Valid() && State() == ExitStep(old(State()))
    {
      tasks[current] := tasks[current].(state := Terminated);
      assert tasks[..] == old(tasks[..])[current := tasks[current]];
    }

    method RunSchedule(sp: nat) returns (nextSp: nat, freed: Option<nat>)
      requires Valid()
      modifies this`current, this`register, tasks
      ensures Valid() && Scheduled(State(), nextSp, freed) == ScheduleStep(old(State()), sp)
    {
      hide Around, SwitchTo, Pick;
      if !initialized {
        return sp, None;
      }
      AroundNone(current);
      var cur := current;
      if sp != 0 && tasks[cur].state.Running? {
        tasks[cur] := tasks[cur].(sp := sp, state := Ready);
        assert tasks[..] == old(tasks[..])[cur := tasks[cur]];
      }
      ghost var saved := tasks[..];
      assert SaveCurrent(old(State()), sp).tasks == saved;
      var next := cur;
      for k := 0 to MAX_TASKS
        invariant tasks[..] == saved && current == cur && register == old(register)
        invariant next == Around(cur, k)
        invariant Pick(saved, cur, 1) == Pick(saved, cur, k + 1)
      {
        PickStep(saved, cur, k);
        next := (next + 1) % MAX_TASKS;
        if tasks[next].state.Ready? {
          nextSp, freed := Switch(cur, next);
          return;
        }
      }
      PickExhausted(saved, cur);
      if tasks[cur].state.Ready? {
        tasks[cur] := tasks[cur].(state := Running);
        assert tasks[..] == saved[cur := tasks[cur]];
      }
      nextSp, freed := sp, None;
    }

    /** The body of the search loop once a Ready slot is found. */
    method Switch(cur: nat, next: nat) returns (nextSp: nat, freed: Option<nat>)
      requires Valid() && cur == current && next < MAX_TASKS
      modifies this`current, this`register, tasks
      ensures Valid() && (State(), freed) == SwitchTo(old(State()), next) && nextSp == tasks[next].sp
    {
      tasks[next] := tasks[next].(state := Running);
      ghost var mid := tasks[..];
      assert mid == old(tasks[..])[next := tasks[next]];
      current := next;
      var nextRoot := tasks[next].root;
      if nextRoot != tasks[cur].root && nextRoot != 0 {
        register := nextRoot;
      }
      freed := None;
      if tasks[cur].state.Terminated? && tasks[cur].ownsRoot {
        freed := Some(tasks[cur].root);
        tasks[cur] := tasks[cur].(ownsRoot := false, root := 0);
        assert tasks[..] == mid[cur := tasks[cur]];
      }
      nextSp := tasks[next].sp;
    }

    method SendMessage(dest: nat, data: seq<Byte>) returns (r: SendResult)
      requires Valid()
      modifies tasks
      ensures Valid() && (State(), r) == SendStep(old(State()), dest, data)
    {
      ghost var before := tasks[..];
      for i := 0 to MAX_TASKS
        invariant tasks[..] == before
        invariant FindLive(before, dest, 0) == FindLive(before, dest, i)
      {
        if tasks[i].id == dest && !tasks[i].state.Terminated? {
          if tasks[i].mailbox.Some? {
            return MailboxFull;
          }
          tasks[i] := Deliver(tasks[i], Message(current, data));
          assert tasks[..] == before[i := tasks[i]];
          return Sent;
        }
      }
      r := NotFound;
    }

    method ReceiveMessage() returns (r: Option<Message>)
      requires Valid()
      modifies tasks
      ensures Valid() && (State(), r) == ReceiveStep(old(State()))
    {
      ghost var before := tasks[..];
      for i := 0 to MAX_TASKS
        invariant tasks[..] == before
        invariant FindId(before, current, 0) == FindId(before, current, i)
      {
        if tasks[i].id == current {
          r := tasks[i].mailbox;
          if r.Some? {
            tasks[i] := tasks[i].(mailbox := None);
          } else {
            tasks[i] := tasks[i].(state := Blocked);
          }
          assert tasks[..] == before[i := tasks[i]];
          return;
        }
      }
      r := None;
    }
  }
}
