/**
 The scheduler as a step system over any number of processors.

 Each step is one action of one processor between two points where another processor or an interrupt can be seen.
 The run-queue lock is taken by a task that is switched away from and released by the one switched to; the
 preemption count of a processor and the guards of whichever task is on its stack are tracked separately.  A lookup by
 the scheduler of a task that does not exist, a save into the registers of a deleted task, an unlock of a lock not held,
 a negative preemption count and a switch to a task already running are all steps into `Broken`.  The panics that code
 outside the scheduler can bring about are steps into `Panicked`: awakening a task that is gone, creating one when there
 is no kernel stack or no frame left for it, and the last call of the scheduler by a killed task returning to it.
 */
module Scheduler {
  import opened Common
  import opened RunQueueModel

  /** Where a task is.  No step reads this field; it records what the invariant says of the queue and the processors. */
  datatype Place = Queued | Running(cpu: nat) | Popped(cpu: nat) | Made(maker: TaskId) | IdleOf(cpu: nat)

  /** `unstarted`: never run, so its first act will be to force the lock open.  `guards`: preemption guards on its stack,
      counting the one for the run-queue lock with which it was switched away.  `making`: created by this task in
      `new_task` and not yet queued. */
  datatype Task = Task(
    state: Desired, life: Life, unstarted: bool, guards: nat, savedInterrupts: bool, making: Option<TaskId>, place: Place)

  /** `Dying`: in `kill_current_task`, past the store of the killed state; it no longer sleeps or creates.
      `Exiting`: in the call of the scheduler at the end of `kill_current_task`. */
  datatype Life = Alive | Dying | Exiting

  datatype Phase =
    | Working
    | Raised(enqueue: bool)
    | Wanting(enqueue: bool)
    | Enqueuing
    | Reaping(i: nat)
    | Picking(prevReady: bool, left: nat)
    | Dispatching(next: TaskId)
    | Swapped(prev: TaskId)
    | Landed
    | Unlocked
    | Settling

  datatype Cpu = Cpu(idle: TaskId, current: TaskId, stack: TaskId, count: int, interrupts: bool, phase: Phase)

  datatype Sys = Sys(
    cpus: seq<Cpu>, tasks: map<TaskId, Task>, queue: seq<TaskId>, nextId: TaskId,
    holder: Option<nat>, acquired: nat, released: nat)

  datatype Action =
    | TakeGuard | DropGuard | SetInterrupts(on: bool)
    | Sleep | Kill | Awaken(task: TaskId)
    | Create(room: bool) // whether a kernel stack and the frames for it and for a page table are left
    | Exit(expired: bool)
    | Raise(enqueue: bool) | Disable | Acquire
    | Enqueue | Reap | Pick | Dispatch | Switch
    | Unlock | Restore | Settle

  datatype Outcome = To(s: Sys) | NotNow | Panicked | Broken

  function WithCpu(s: Sys, c: nat, cpu: Cpu): Sys
    requires c < |s.cpus|
  {
    s.(cpus := s.cpus[c := cpu])
  }

  function WithTask(s: Sys, id: TaskId, t: Task): Sys {
    s.(tasks := s.tasks[id := t])
  }

  /** A processor changes its own record and that of its stack's task. */
  function Own(s: Sys, c: nat, cpu: Cpu, me: Task): Sys
    requires c < |s.cpus|
  {
    s.(cpus := s.cpus[c := cpu], tasks := s.tasks[s.cpus[c].stack := me])
  }

  function Step(s: Sys, c: nat, a: Action): (o: Outcome)
    requires c < |s.cpus|
  {
    var cpu := s.cpus[c];
    if cpu.stack !in s.tasks then Broken else
    var me := s.tasks[cpu.stack];
    match (a, cpu.phase)
    case (TakeGuard, Working) => To(Own(s, c, cpu.(count := cpu.count + 1), me.(guards := me.guards + 1)))
    case (DropGuard, Working) =>
      if me.guards == 0 then NotNow else To(Own(s, c, cpu.(count := cpu.count - 1), me.(guards := me.guards - 1)))
    case (SetInterrupts(on), Working) => To(Own(s, c, cpu.(interrupts := on), me))
    case (Sleep, Working) => if !me.life.Alive? then NotNow else To(Own(s, c, cpu, me.(state := Sleeping)))
    case (Kill, Working) =>
      if cpu.stack == cpu.idle || me.making.Some? || !me.life.Alive? then NotNow
      else To(Own(s, c, cpu, me.(state := Killed, life := Dying)))
    case (Exit(expired), Working) =>
      if !me.life.Dying? then NotNow
      else if cpu.count < 0 then Broken
      else if cpu.count > 0 || (me.state == ReadyToRun && !expired) then Panicked
      else To(Own(s, c, cpu.(count := cpu.count + 1, phase := Raised(false)), me.(guards := me.guards + 1, life := Exiting)))
    case (Awaken(t), _) =>
      if !Interruptible(cpu.phase) then NotNow
      else if t !in s.tasks then Panicked
      else To(WithTask(s, t, s.tasks[t].(state := ReadyToRun)))
    case (Create(room), Working) =>
      if me.making.Some? || !me.life.Alive? then NotNow
      else if !room then Panicked
      else To(CreateStep(s, cpu.stack))
    case (Raise(enqueue), Working) =>
      if enqueue && me.making.None? then NotNow
      else if !enqueue && cpu.count < 0 then Broken
      else if !enqueue && cpu.count > 0 then NotNow
      else To(Own(s, c, cpu.(count := cpu.count + 1, phase := Raised(enqueue)), me.(guards := me.guards + 1)))
    case (Disable, Raised(enqueue)) =>
      To(Own(s, c, cpu.(interrupts := false, phase := Wanting(enqueue)), me.(savedInterrupts := cpu.interrupts)))
    case (Acquire, Wanting(enqueue)) =>
      if s.holder.Some? then NotNow
      else To(Own(s, c, cpu.(phase := if enqueue then Enqueuing else Reaping(0)), me).(holder := Some(c), acquired := s.acquired + 1))
    case (Enqueue, Enqueuing) =>
      if me.making.None? || me.making.value !in s.tasks then Broken else To(EnqueueStep(s, c, me.making.value))
    case (Reap, Reaping(i)) => ReapStep(s, c, i)
    case (Pick, Picking(prevReady, left)) => PickStep(s, c, prevReady, left)
    case (Dispatch, Dispatching(next)) => DispatchStep(s, c, next)
    case (Switch, Swapped(prev)) =>
      if prev !in s.tasks || cpu.current !in s.tasks then Broken
      else To(WithCpu(s, c, cpu.(stack := cpu.current, phase := Landed)))
    case (Unlock, Landed) =>
      if s.holder != Some(c) then Broken
      else To(Own(s, c, cpu.(phase := Unlocked), me).(holder := None, released := s.released + 1))
    case (Restore, Unlocked) =>
      To(Own(s, c, cpu.(interrupts := me.unstarted || me.savedInterrupts, phase := Settling), me))
    case (Settle, Settling) =>
      if me.unstarted then To(Own(s, c, cpu.(count := 0, phase := Working), me.(unstarted := false, guards := 0)))
      else if me.guards == 0 then Broken
      else if me.life.Exiting? then Panicked
      else To(Own(s, c, cpu.(count := cpu.count - 1, phase := Working), me.(guards := me.guards - 1)))
    case _ => NotNow
  }

  /** Where other code can come in on this processor: its own, or an interrupt handler's while interrupts are not yet
      disabled for the run-queue lock or are restored again. */
  predicate Interruptible(p: Phase) {
    p.Working? || p.Raised? || p.Settling?
  }

  /** `Tasks::new_task`: the new task exists but is not queued yet. */
  function CreateStep(s: Sys, maker: TaskId): Sys
    requires maker in s.tasks
  {
    var s1 := WithTask(s, maker, s.tasks[maker].(making := Some(s.nextId)));
    WithTask(s1, s.nextId, Task(ReadyToRun, Alive, true, 1, true, None, Made(maker))).(nextId := s.nextId + 1)
  }

  /** The push at the end of `new_task`, with the run-queue lock held. */
  function EnqueueStep(s: Sys, c: nat, id: TaskId): Sys
    requires c < |s.cpus| && s.cpus[c].stack in s.tasks && id in s.tasks
  {
    var s1 := WithTask(s, id, s.tasks[id].(place := Queued));
    var me := s1.tasks[s.cpus[c].stack].(making := None);
    Own(s1, c, s.cpus[c].(phase := Landed), me).(queue := s.queue + [id])
  }

  /** One turn of the loop in `remove_killed_pending_tasks`, and the load of the previous task's state after it. */
  function ReapStep(s: Sys, c: nat, i: nat): (o: Outcome)
    requires c < |s.cpus|
  {
    var cpu := s.cpus[c];
    if i >= |s.queue| then
      if cpu.current !in s.tasks then Broken
      else To(WithCpu(s, c, cpu.(phase := Picking(s.tasks[cpu.current].state == ReadyToRun, |s.queue|))))
    else
      var id := s.queue[i];
      if id !in s.tasks then Broken
      else if s.tasks[id].state == Killed then To(s.(tasks := s.tasks - {id}, queue := s.queue[..i] + s.queue[i + 1..]))
      else To(WithCpu(s, c, cpu.(phase := Reaping(i + 1))))
  }

  /** One turn of the loop in `pop_next_ready_pending_task`, and what follows when it found nothing. */
  function PickStep(s: Sys, c: nat, prevReady: bool, left: nat): (o: Outcome)
    requires c < |s.cpus|
  {
    var cpu := s.cpus[c];
    if left == 0 then
      To(WithCpu(s, c, cpu.(phase := if cpu.current == cpu.idle || prevReady then Landed else Dispatching(cpu.idle))))
    else if |s.queue| == 0 then Broken
    else
      var id := s.queue[0];
      if id !in s.tasks then Broken
      else if s.tasks[id].state == ReadyToRun then
        To(WithTask(WithCpu(s, c, cpu.(phase := Dispatching(id))), id, s.tasks[id].(place := Popped(c))).(queue := s.queue[1..]))
      else To(WithCpu(s, c, cpu.(phase := Picking(prevReady, left - 1))).(queue := s.queue[1..] + [id]))
  }

  /** Make `next` the current task and put the previous one at the back of the queue, unless it is the idle task. */
  function DispatchStep(s: Sys, c: nat, next: TaskId): (o: Outcome)
    requires c < |s.cpus|
  {
    var cpu := s.cpus[c];
    var prev := cpu.current;
    if prev !in s.tasks || next !in s.tasks || prev == next then Broken
    else
      var s1 := if next == cpu.idle then s else WithTask(s, next, s.tasks[next].(place := Running(c)));
      var s2 := if prev == cpu.idle then s1 else WithTask(s1, prev, s1.tasks[prev].(place := Queued)).(queue := s.queue + [prev]);
      To(WithCpu(s2, c, cpu.(current := next, phase := Swapped(prev))))
  }

  // ---------- invariant ----------

  predicate Holding(p: Phase) {
    p.Enqueuing? || p.Reaping? || p.Picking? || p.Dispatching? || p.Swapped? || p.Landed?
  }

  /** Between raising the preemption count for the scheduler and switching stacks a task holds that guard alone. */
  predicate Scheduling(p: Phase) {
    p == Raised(false) || p == Wanting(false) || p.Reaping? || p.Picking? || p.Dispatching? || p.Swapped?
  }

  predicate Releasing(p: Phase) {
    p.Landed? || p.Unlocked? || p.Settling?
  }

  ghost predicate CpuOk(s: Sys, c: nat)
    requires c < |s.cpus|
  {
    var cpu := s.cpus[c];
    && cpu.idle in s.tasks && s.tasks[cpu.idle].place == IdleOf(c) && !s.tasks[cpu.idle].unstarted
    && cpu.current in s.tasks && cpu.stack in s.tasks
    && (Holding(cpu.phase) <==> s.holder == Some(c))
    && (cpu.current == cpu.idle || s.tasks[cpu.current].place == Running(c))
    && (if cpu.phase.Swapped? then
          && cpu.phase.prev == cpu.stack && cpu.stack != cpu.current
          && (cpu.stack == cpu.idle || s.tasks[cpu.stack].place == Queued)
        else cpu.stack == cpu.current)
    && (cpu.phase.Dispatching? ==>
          var next := cpu.phase.next;
          && next in s.tasks && next != cpu.current
          && (next == cpu.idle || s.tasks[next].place == Popped(c)))
    && (cpu.phase.Picking? ==> cpu.phase.left <= |s.queue|)
    && cpu.count == s.tasks[cpu.stack].guards
    && (Scheduling(cpu.phase) ==> s.tasks[cpu.stack].guards == 1 && !s.tasks[cpu.stack].unstarted)
    && (!cpu.phase.Working? ==> s.tasks[cpu.stack].guards >= 1)
    && (s.tasks[cpu.stack].unstarted ==> Releasing(cpu.phase) && s.tasks[cpu.stack].guards == 1)
    && ((cpu.phase == Raised(true) || cpu.phase == Wanting(true) || cpu.phase.Enqueuing?) ==> s.tasks[cpu.stack].making.Some?)
    && (Holding(cpu.phase) || cpu.phase.Wanting? || cpu.phase.Unlocked? ==> !cpu.interrupts)
    && (s.tasks[cpu.stack].life.Exiting? ==> !cpu.phase.Working?)
  }

  /** A task off every stack holds one guard, the one it was switched away with. */
  ghost predicate TaskOk(s: Sys, id: TaskId)
    requires id in s.tasks
  {
    var t := s.tasks[id];
    && id < s.nextId
    && (t.place.Queued? <==> id in s.queue)
    && (t.making.Some? ==> t.making.value in s.tasks && s.tasks[t.making.value].place == Made(id))
    && (match t.place
        case Queued => t.guards == 1
        case Running(c) =>
          && c < |s.cpus| && s.cpus[c].current == id && id != s.cpus[c].idle
          && (s.cpus[c].stack != id ==> t.guards == 1)
        case Popped(c) =>
          && c < |s.cpus| && s.cpus[c].phase == Dispatching(id) && id != s.cpus[c].idle
          && t.guards == 1 && t.state == ReadyToRun
        case Made(maker) => maker in s.tasks && s.tasks[maker].making == Some(id) && t.guards == 1 && t.unstarted
        case IdleOf(c) => c < |s.cpus| && s.cpus[c].idle == id && (s.cpus[c].stack != id ==> t.guards == 1))
    && (t.state == Killed ==> !t.life.Alive?)
    && (!t.life.Alive? ==> t.making.None? && !t.unstarted && !t.place.IdleOf?)
    && (t.unstarted ==> t.state == ReadyToRun && t.making.None?)
  }

  ghost predicate Inv(s: Sys) {
    && (forall c: nat :: c < |s.cpus| ==> CpuOk(s, c))
    && (forall id :: id in s.tasks ==> TaskOk(s, id))
    && (forall id :: id in s.queue ==> id in s.tasks)
    && NoRepeats(s.queue)
    && (s.holder.Some? ==> s.holder.value < |s.cpus|)
    && s.acquired == s.released + (if s.holder.Some? then 1 else 0)
  }

  // ---------- the invariant is kept ----------

  /** A task on its own processor is none of the tasks another processor is concerned with. */
  lemma Apart(s: Sys, c: nat, d: nat)
    requires c < |s.cpus| && d < |s.cpus| && c != d && CpuOk(s, c) && CpuOk(s, d) && !s.cpus[c].phase.Swapped?
    ensures s.cpus[c].stack != s.cpus[d].idle && s.cpus[c].stack != s.cpus[d].current && s.cpus[c].stack != s.cpus[d].stack
    ensures s.cpus[d].phase.Dispatching? ==> s.cpus[c].stack != s.cpus[d].phase.next
  {
  }

  /** A task keeps its place and what it is making; only an unstarted one may count as unstarted. */
  predicate SameRole(was: Task, t: Task) {
    && t.place == was.place && t.making == was.making && (t.unstarted ==> was.unstarted && t.state == was.state)
    && (t.state == Killed ==> !t.life.Alive?)
    && (!t.life.Alive? ==> t.making.None? && !t.unstarted && !t.place.IdleOf?)
  }

  /** The step changes only the processor's own record, its stack's task, and the lock. */
  ghost predicate OwnChange(s: Sys, s': Sys, c: nat, cpu: Cpu, me: Task)
    requires Inv(s) && c < |s.cpus|
  {
    && s' == Own(s, c, cpu, me).(holder := s'.holder, acquired := s'.acquired, released := s'.released)
    && !s.cpus[c].phase.Swapped? && !s.cpus[c].phase.Dispatching? && !cpu.phase.Swapped?
    && cpu.idle == s.cpus[c].idle && cpu.current == s.cpus[c].current && cpu.stack == s.cpus[c].stack
    && cpu.stack in s.tasks
    && SameRole(s.tasks[cpu.stack], me)
    && (s'.holder == s.holder || (s'.holder == Some(c) && s.holder.None?) || (s'.holder.None? && s.holder == Some(c)))
    && s'.acquired == s'.released + (if s'.holder.Some? then 1 else 0)
  }

  lemma OwnKeeps(s: Sys, s': Sys, c: nat, cpu: Cpu, me: Task)
    requires Inv(s) && c < |s.cpus| && OwnChange(s, s', c, cpu, me) && CpuOk(s', c)
    ensures Inv(s')
  {
    assert CpuOk(s, c);
    forall d: nat | d < |s'.cpus| ensures CpuOk(s', d) {
      assert CpuOk(s, d);
      if d != c { Apart(s, c, d); }
      hide Inv, TaskOk;
    }
    forall id | id in s'.tasks ensures TaskOk(s', id) {
      assert TaskOk(s, id);
      hide Inv;
    }
  }

  lemma TaskSteps(s: Sys, c: nat, a: Action)
    requires Inv(s) && c < |s.cpus|
    requires a.TakeGuard? || a.DropGuard? || a.SetInterrupts? || a.Sleep? || a.Kill? || a.Exit?
    ensures !Step(s, c, a).Broken? && (Step(s, c, a).To? ==> Inv(Step(s, c, a).s))
  {
    assert CpuOk(s, c);
    assert TaskOk(s, s.cpus[c].stack);
    hide Inv, TaskOk;
    var o := Step(s, c, a);
    if o.To? {
      var s' := o.s;
      var cpu := s'.cpus[c];
      OwnKeeps(s, s', c, cpu, s'.tasks[cpu.stack]);
    }
  }

  lemma LockSteps(s: Sys, c: nat, a: Action)
    requires Inv(s) && c < |s.cpus|
    requires a.Raise? || a.Disable? || a.Acquire?
    ensures !Step(s, c, a).Broken? && (Step(s, c, a).To? ==> Inv(Step(s, c, a).s))
  {
    assert CpuOk(s, c);
    assert TaskOk(s, s.cpus[c].stack);
    hide Inv, TaskOk;
    var o := Step(s, c, a);
    if o.To? {
      var s' := o.s;
      var cpu := s'.cpus[c];
      OwnKeeps(s, s', c, cpu, s'.tasks[cpu.stack]);
    }
  }

  /** What the invariant says of a processor and its stack's task. */
  lemma ItsTask(s: Sys, c: nat)
    requires Inv(s) && c < |s.cpus|
    ensures CpuOk(s, c) && s.cpus[c].stack in s.tasks && TaskOk(s, s.cpus[c].stack)
    ensures s.acquired == s.released + (if s.holder.Some? then 1 else 0)
  {
    assert CpuOk(s, c);
  }

  lemma UnlockKeeps(s: Sys, c: nat)
    requires Inv(s) && c < |s.cpus|
    ensures !Step(s, c, Unlock).Broken? && (Step(s, c, Unlock).To? ==> Inv(Step(s, c, Unlock).s))
  {
    hide Inv, NoRepeats;
    ItsTask(s, c);
    var o := Step(s, c, Unlock);
    if o.To? {
      var s' := o.s;
      var cpu := s'.cpus[c];
      OwnKeeps(s, s', c, cpu, s'.tasks[cpu.stack]);
    }
  }

  lemma RestoreKeeps(s: Sys, c: nat)
    requires Inv(s) && c < |s.cpus|
    ensures !Step(s, c, Restore).Broken? && (Step(s, c, Restore).To? ==> Inv(Step(s, c, Restore).s))
  {
    hide Inv, NoRepeats;
    ItsTask(s, c);
    var o := Step(s, c, Restore);
    if o.To? {
      var s' := o.s;
      var cpu := s'.cpus[c];
      OwnKeeps(s, s', c, cpu, s'.tasks[cpu.stack]);
    }
  }

  lemma SettleKeeps(s: Sys, c: nat)
    requires Inv(s) && c < |s.cpus|
    ensures !Step(s, c, Settle).Broken? && (Step(s, c, Settle).To? ==> Inv(Step(s, c, Settle).s))
  {
    hide Inv, NoRepeats;
    ItsTask(s, c);
    var o := Step(s, c, Settle);
    if o.To? {
      var s' := o.s;
      var cpu := s'.cpus[c];
      OwnKeeps(s, s', c, cpu, s'.tasks[cpu.stack]);
    }
  }

  lemma AwakenStep(s: Sys, c: nat, id: TaskId)
    requires Inv(s) && c < |s.cpus|
    ensures !Step(s, c, Awaken(id)).Broken? && (Step(s, c, Awaken(id)).To? ==> Inv(Step(s, c, Awaken(id)).s))
  {
    hide CpuOk, TaskOk;
    ItsTask(s, c);
    var o := Step(s, c, Awaken(id));
    if o.To? {
      var s' := o.s;
      forall d: nat | d < |s'.cpus| ensures CpuOk(s', d) { AwakenCpu(s, id, d); }
      forall x | x in s'.tasks ensures TaskOk(s', x) { AwakenTask(s, id, x); }
    }
  }

  lemma AwakenCpu(s: Sys, id: TaskId, d: nat)
    requires d < |s.cpus| && CpuOk(s, d) && id in s.tasks
    ensures CpuOk(WithTask(s, id, s.tasks[id].(state := ReadyToRun)), d)
  {
  }

  lemma AwakenTask(s: Sys, id: TaskId, x: TaskId)
    requires x in s.tasks && TaskOk(s, x) && id in s.tasks
    ensures TaskOk(WithTask(s, id, s.tasks[id].(state := ReadyToRun)), x)
  {
  }

  lemma CreateKeeps(s: Sys, c: nat)
    requires Inv(s) && c < |s.cpus| && s.cpus[c].phase.Working?
    requires s.cpus[c].stack in s.tasks && s.tasks[s.cpus[c].stack].making.None? && s.tasks[s.cpus[c].stack].life.Alive?
    ensures Inv(CreateStep(s, s.cpus[c].stack))
  {
    hide CpuOk, TaskOk;
    var s' := CreateStep(s, s.cpus[c].stack);
    NextIsNew(s);
    assert CpuOk(s, c) && TaskOk(s, s.cpus[c].stack);
    forall d: nat | d < |s'.cpus| ensures CpuOk(s', d) { CreateCpu(s, c, d); }
    forall x | x in s'.tasks ensures TaskOk(s', x) { CreateTask(s, c, x); }
  }

  lemma NextIsNew(s: Sys)
    requires forall id :: id in s.tasks ==> TaskOk(s, id)
    ensures s.nextId !in s.tasks
  {
  }

  lemma CreateCpu(s: Sys, c: nat, d: nat)
    requires c < |s.cpus| && d < |s.cpus| && s.cpus[c].phase.Working? && CpuOk(s, c) && CpuOk(s, d)
    requires s.nextId !in s.tasks
    ensures CpuOk(CreateStep(s, s.cpus[c].stack), d)
  {
    if d != c { Apart(s, c, d); }
  }

  lemma CreateTask(s: Sys, c: nat, x: TaskId)
    requires c < |s.cpus| && s.cpus[c].phase.Working? && CpuOk(s, c) && TaskOk(s, s.cpus[c].stack)
    requires s.tasks[s.cpus[c].stack].making.None? && s.tasks[s.cpus[c].stack].life.Alive?
    requires s.nextId !in s.tasks && s.nextId !in s.queue && (x == s.nextId || (x in s.tasks && TaskOk(s, x)))
    ensures var s' := CreateStep(s, s.cpus[c].stack); x in s'.tasks && TaskOk(s', x)
  {
  }

  /** A task that is about to queue another, and the one it made. */
  ghost predicate Queuing(s: Sys, c: nat, id: TaskId) {
    && c < |s.cpus| && s.cpus[c].phase.Enqueuing? && s.cpus[c].stack in s.tasks && CpuOk(s, c)
    && s.tasks[s.cpus[c].stack].making == Some(id) && TaskOk(s, s.cpus[c].stack)
    && id in s.tasks && TaskOk(s, id)
  }

  lemma EnqueueCpu(s: Sys, c: nat, id: TaskId, d: nat)
    requires Queuing(s, c, id) && d < |s.cpus| && CpuOk(s, d)
    ensures CpuOk(EnqueueStep(s, c, id), d)
  {
    if d != c { Apart(s, c, d); }
  }

  lemma EnqueueTask(s: Sys, c: nat, id: TaskId, x: TaskId)
    requires Queuing(s, c, id) && x in s.tasks && TaskOk(s, x)
    ensures x in EnqueueStep(s, c, id).tasks && TaskOk(EnqueueStep(s, c, id), x)
  {
  }

  lemma EnqueueReady(s: Sys, c: nat)
    requires Inv(s) && c < |s.cpus| && s.cpus[c].phase.Enqueuing?
    ensures s.cpus[c].stack in s.tasks && s.tasks[s.cpus[c].stack].making.Some?
    ensures var id := s.tasks[s.cpus[c].stack].making.value; Queuing(s, c, id) && id !in s.queue
  {
    assert CpuOk(s, c);
    assert TaskOk(s, s.cpus[c].stack);
  }

  lemma EnqueueKeeps(s: Sys, c: nat)
    requires Inv(s) && c < |s.cpus| && s.cpus[c].phase.Enqueuing?
    ensures s.cpus[c].stack in s.tasks && s.tasks[s.cpus[c].stack].making.Some? && s.tasks[s.cpus[c].stack].making.value in s.tasks
    ensures Inv(EnqueueStep(s, c, s.tasks[s.cpus[c].stack].making.value))
  {
    hide CpuOk, TaskOk;
    EnqueueReady(s, c);
    var id := s.tasks[s.cpus[c].stack].making.value;
    var s' := EnqueueStep(s, c, id);
    forall d: nat | d < |s'.cpus| ensures CpuOk(s', d) { EnqueueCpu(s, c, id, d); }
    forall x | x in s'.tasks ensures TaskOk(s', x) { EnqueueTask(s, c, id, x); }
  }

  /** The state without a killed task of the queue. */
  function Without(s: Sys, i: nat): Sys
    requires i < |s.queue|
  {
    s.(tasks := s.tasks - {s.queue[i]}, queue := s.queue[..i] + s.queue[i + 1..])
  }

  ghost predicate Dead(s: Sys, c: nat, i: nat) {
    && c < |s.cpus| && s.cpus[c].phase == Reaping(i) && CpuOk(s, c)
    && i < |s.queue| && s.queue[i] in s.tasks && TaskOk(s, s.queue[i]) && s.tasks[s.queue[i]].state == Killed
  }

  lemma ReapCpu(s: Sys, c: nat, i: nat, d: nat)
    requires Dead(s, c, i) && d < |s.cpus| && CpuOk(s, d)
    ensures CpuOk(Without(s, i), d)
  {
  }

  lemma ReapTask(s: Sys, c: nat, i: nat, x: TaskId)
    requires Dead(s, c, i) && x in s.tasks && x != s.queue[i] && TaskOk(s, x)
    ensures x in Without(s, i).tasks && TaskOk(Without(s, i), x)
  {
    assert s.queue == s.queue[..i] + [s.queue[i]] + s.queue[i + 1..];
  }

  lemma RemoveKeeps(q: seq<TaskId>, i: nat)
    requires NoRepeats(q) && i < |q|
    ensures var r := q[..i] + q[i + 1..]; NoRepeats(r) && forall id :: id in r <==> id in q && id != q[i]
  {
    assert q == q[..i] + [q[i]] + q[i + 1..];
  }

  lemma DeleteKeeps(s: Sys, c: nat, i: nat)
    requires Inv(s) && Dead(s, c, i)
    ensures Inv(Without(s, i))
  {
    hide CpuOk, TaskOk, NoRepeats, Dead;
    assert c < |s.cpus| && i < |s.queue| by { DeadIsQueued(s, c, i); }
    var s' := Without(s, i);
    RemoveKeeps(s.queue, i);
    forall d: nat | d < |s'.cpus| ensures CpuOk(s', d) { ReapCpu(s, c, i, d); }
    forall x | x in s'.tasks ensures TaskOk(s', x) { ReapTask(s, c, i, x); }
  }

  lemma DeadIsQueued(s: Sys, c: nat, i: nat)
    requires Dead(s, c, i)
    ensures c < |s.cpus| && i < |s.queue|
  {
  }

  lemma ReapKeeps(s: Sys, c: nat, i: nat)
    requires Inv(s) && c < |s.cpus| && s.cpus[c].phase == Reaping(i)
    ensures ReapStep(s, c, i).To? && Inv(ReapStep(s, c, i).s)
  {
    hide TaskOk;
    assert CpuOk(s, c);
    if i >= |s.queue| {
      PhaseKeeps(s, c, Picking(s.tasks[s.cpus[c].current].state == ReadyToRun, |s.queue|), s.queue);
    } else if s.tasks[s.queue[i]].state == Killed {
      DeleteKeeps(s, c, i);
    } else {
      PhaseKeeps(s, c, Reaping(i + 1), s.queue);
    }
  }

  /** A phase change of the lock holder that moves no task. */
  lemma PhaseKeeps(s: Sys, c: nat, phase: Phase, queue: seq<TaskId>)
    requires Inv(s) && c < |s.cpus| && (s.cpus[c].phase.Picking? || s.cpus[c].phase.Reaping?)
    requires NoRepeats(queue) && |queue| == |s.queue| && forall id :: id in queue <==> id in s.queue
    requires || phase.Landed? || phase.Reaping? || (phase.Picking? && phase.left <= |queue|)
             || (phase.Dispatching? && phase.next == s.cpus[c].idle && s.cpus[c].current != s.cpus[c].idle)
    ensures Inv(WithCpu(s, c, s.cpus[c].(phase := phase)).(queue := queue))
  {
    var s' := WithCpu(s, c, s.cpus[c].(phase := phase)).(queue := queue);
    assert CpuOk(s, c);
    forall d: nat | d < |s'.cpus| ensures CpuOk(s', d) { assert CpuOk(s, d); hide Inv, TaskOk; }
    forall x | x in s'.tasks ensures TaskOk(s', x) { assert TaskOk(s, x); hide Inv; }
  }

  lemma RotateKeeps(q: seq<TaskId>)
    requires NoRepeats(q) && q != []
    ensures var r := q[1..] + [q[0]];
            NoRepeats(r) && |r| == |q| && forall id :: id in r <==> id in q
  {
    assert q == [q[0]] + q[1..];
  }

  /** The state with the first task of the queue popped. */
  function PoppedFirst(s: Sys, c: nat): Sys
    requires c < |s.cpus| && s.queue != [] && s.queue[0] in s.tasks
  {
    var id := s.queue[0];
    WithTask(WithCpu(s, c, s.cpus[c].(phase := Dispatching(id))), id, s.tasks[id].(place := Popped(c))).(queue := s.queue[1..])
  }

  ghost predicate Poppable(s: Sys, c: nat) {
    && c < |s.cpus| && s.cpus[c].phase.Picking? && CpuOk(s, c)
    && s.queue != [] && s.queue[0] in s.tasks && TaskOk(s, s.queue[0]) && s.tasks[s.queue[0]].state == ReadyToRun
    && s.queue[0] !in s.queue[1..]
  }

  lemma PopCpu(s: Sys, c: nat, d: nat)
    requires Poppable(s, c) && d < |s.cpus| && CpuOk(s, d)
    ensures CpuOk(PoppedFirst(s, c), d)
  {
  }

  lemma PopTask(s: Sys, c: nat, x: TaskId)
    requires Poppable(s, c) && x in s.tasks && TaskOk(s, x)
    ensures x in PoppedFirst(s, c).tasks && TaskOk(PoppedFirst(s, c), x)
  {
    assert s.queue == [s.queue[0]] + s.queue[1..];
  }

  lemma PopKeeps(s: Sys, c: nat)
    requires Inv(s) && c < |s.cpus| && s.cpus[c].phase.Picking? && s.queue != []
    requires s.queue[0] in s.tasks && s.tasks[s.queue[0]].state == ReadyToRun
    ensures Inv(PoppedFirst(s, c))
  {
    hide CpuOk, TaskOk;
    var s' := PoppedFirst(s, c);
    assert s.queue == [s.queue[0]] + s.queue[1..];
    forall d: nat | d < |s'.cpus| ensures CpuOk(s', d) { PopCpu(s, c, d); }
    forall x | x in s'.tasks ensures TaskOk(s', x) { PopTask(s, c, x); }
  }

  lemma PickKeeps(s: Sys, c: nat, prevReady: bool, left: nat)
    requires Inv(s) && c < |s.cpus| && s.cpus[c].phase == Picking(prevReady, left)
    ensures PickStep(s, c, prevReady, left).To? && Inv(PickStep(s, c, prevReady, left).s)
  {
    assert CpuOk(s, c);
    if left == 0 {
      PhaseKeeps(s, c, PickStep(s, c, prevReady, left).s.cpus[c].phase, s.queue);
    } else {
      var id := s.queue[0];
      assert TaskOk(s, id);
      if s.tasks[id].state == ReadyToRun {
        PopKeeps(s, c);
      } else {
        RotateKeeps(s.queue);
        PhaseKeeps(s, c, Picking(prevReady, left - 1), s.queue[1..] + [id]);
      }
    }
  }

  lemma DispatchCpu(s: Sys, c: nat, next: TaskId, d: nat)
    requires c < |s.cpus| && d < |s.cpus| && s.cpus[c].phase == Dispatching(next) && CpuOk(s, c) && CpuOk(s, d)
    requires TaskOk(s, s.cpus[c].current) && TaskOk(s, next)
    ensures DispatchStep(s, c, next).To? && CpuOk(DispatchStep(s, c, next).s, d)
  {
    if d != c {
      Apart(s, c, d);
    }
  }

  lemma DispatchTask(s: Sys, c: nat, next: TaskId, x: TaskId)
    requires c < |s.cpus| && s.cpus[c].phase == Dispatching(next) && CpuOk(s, c)
    requires TaskOk(s, s.cpus[c].current) && TaskOk(s, next) && x in s.tasks && TaskOk(s, x)
    ensures DispatchStep(s, c, next).To? && TaskOk(DispatchStep(s, c, next).s, x)
  {
  }

  lemma DispatchKeeps(s: Sys, c: nat, next: TaskId)
    requires Inv(s) && c < |s.cpus| && s.cpus[c].phase == Dispatching(next)
    ensures DispatchStep(s, c, next).To? && Inv(DispatchStep(s, c, next).s)
  {
    assert CpuOk(s, c);
    assert TaskOk(s, s.cpus[c].current) && TaskOk(s, next);
    DispatchCpu(s, c, next, c);
    var s' := DispatchStep(s, c, next).s;
    hide CpuOk;
    forall d: nat | d < |s'.cpus| ensures CpuOk(s', d) {
      DispatchCpu(s, c, next, d);
    }
    forall x | x in s'.tasks ensures TaskOk(s', x) {
      DispatchTask(s, c, next, x);
    }
  }

  lemma SwitchKeeps(s: Sys, c: nat)
    requires Inv(s) && c < |s.cpus| && s.cpus[c].phase.Swapped?
    ensures Step(s, c, Switch).To? && Inv(Step(s, c, Switch).s)
  {
    assert CpuOk(s, c);
    var cpu := s.cpus[c];
    assert TaskOk(s, cpu.current) && TaskOk(s, cpu.stack);
    var s' := Step(s, c, Switch).s;
    forall d: nat | d < |s'.cpus| ensures CpuOk(s', d) { assert CpuOk(s, d); hide Inv, TaskOk; }
    forall x | x in s'.tasks ensures TaskOk(s', x) { assert TaskOk(s, x); hide Inv; }
  }

  /** When code outside the scheduler makes a step panic: it awakens a task that is gone, creates one for which there is
      no room, or the last call of the scheduler by a killed task returns, at once because a guard is held or the task is
      ready again, or after the scheduler had taken it on. */
  ghost predicate PanicsWhen(s: Sys, c: nat, a: Action)
    requires c < |s.cpus|
  {
    var cpu := s.cpus[c];
    cpu.stack in s.tasks &&
    var me := s.tasks[cpu.stack];
    match a
    case Awaken(t) => Interruptible(cpu.phase) && t !in s.tasks
    case Create(room) => cpu.phase.Working? && me.making.None? && me.life.Alive? && !room
    case Exit(expired) => cpu.phase.Working? && me.life.Dying? && (me.guards > 0 || (me.state == ReadyToRun && !expired))
    case Settle => cpu.phase.Settling? && me.life.Exiting?
    case _ => false
  }

  lemma PanicIs(s: Sys, c: nat, a: Action)
    requires Inv(s) && c < |s.cpus|
    ensures Step(s, c, a).Panicked? <==> PanicsWhen(s, c, a)
  {
    hide Inv, NoRepeats;
    ItsTask(s, c);
  }

  /** No step of any processor breaks anything, and every step that does not panic keeps the invariant. */
  lemma StepKeeps(s: Sys, c: nat, a: Action)
    requires Inv(s) && c < |s.cpus|
    ensures !Step(s, c, a).Broken? && (Step(s, c, a).To? ==> Inv(Step(s, c, a).s))
  {
    assert CpuOk(s, c);
    hide Inv, TaskOk, Own, DispatchStep, PickStep, ReapStep, CreateStep, EnqueueStep;
    var p := s.cpus[c].phase;
    match a
    case TakeGuard => TaskSteps(s, c, a);
    case DropGuard => TaskSteps(s, c, a);
    case SetInterrupts(_) => TaskSteps(s, c, a);
    case Sleep => TaskSteps(s, c, a);
    case Kill => TaskSteps(s, c, a);
    case Exit(_) => TaskSteps(s, c, a);
    case Awaken(id) => AwakenStep(s, c, id);
    case Create(_) => if Step(s, c, a).To? { CreateKeeps(s, c); }
    case Raise(_) => LockSteps(s, c, a);
    case Disable => LockSteps(s, c, a);
    case Acquire => LockSteps(s, c, a);
    case Enqueue => if p.Enqueuing? { EnqueueKeeps(s, c); }
    case Reap => if p.Reaping? { ReapKeeps(s, c, p.i); }
    case Pick => if p.Picking? { PickKeeps(s, c, p.prevReady, p.left); }
    case Dispatch => if p.Dispatching? { DispatchKeeps(s, c, p.next); }
    case Switch => if p.Swapped? { SwitchKeeps(s, c); }
    case Unlock => UnlockKeeps(s, c);
    case Restore => RestoreKeeps(s, c);
    case Settle => SettleKeeps(s, c);
  }
}
