/** Runs of the scheduler from boot, and what holds in every state they reach. */
module SchedulerRuns {
  import opened Common
  import opened RunQueueModel
  import opened Scheduler

  /** Every processor is on its own idle task, nothing else exists, and the lock is free. */
  ghost predicate Boot(s: Sys) {
    && (forall c: nat :: c < |s.cpus| ==>
          var cpu := s.cpus[c];
          && cpu.current == cpu.idle && cpu.stack == cpu.idle && cpu.count == 0 && cpu.phase.Working?
          && cpu.idle in s.tasks && s.tasks[cpu.idle].place == IdleOf(c))
    && (forall id :: id in s.tasks ==>
          var t := s.tasks[id];
          && id < s.nextId && t.state == ReadyToRun && t.life.Alive? && !t.unstarted && t.guards == 0 && t.making.None?
          && t.place.IdleOf? && t.place.cpu < |s.cpus| && s.cpus[t.place.cpu].idle == id)
    && s.queue == [] && s.holder.None? && s.acquired == s.released
  }

  lemma BootIsSound(s: Sys)
    requires Boot(s)
    ensures Inv(s)
  {
  }

  /** The states of a run: in each, some processor takes a step. */
  ghost predicate IsRun(states: seq<Sys>, steps: seq<(nat, Action)>) {
    && |states| == |steps| + 1
    && Boot(states[0])
    && forall i :: 0 <= i < |steps| ==>
         steps[i].0 < |states[i].cpus| && Step(states[i], steps[i].0, steps[i].1) == To(states[i + 1])
  }

  /** Every state of every run satisfies the invariant, no processor can break anything from it, and a step panics exactly
      when it awakens a task that is gone, creates one without room for it, or is the return of a killed task's last call
      of the scheduler. */
  lemma {:induction false} RunsAreSound(states: seq<Sys>, steps: seq<(nat, Action)>, i: nat)
    requires IsRun(states, steps) && i <= |steps|
    ensures Inv(states[i])
    ensures forall c: nat, a :: c < |states[i].cpus| ==>
              !Step(states[i], c, a).Broken? && (Step(states[i], c, a).Panicked? <==> PanicsWhen(states[i], c, a))
    decreases i
  {
    hide Inv, Step, PanicsWhen;
    if i == 0 {
      BootIsSound(states[0]);
    } else {
      RunsAreSound(states, steps, i - 1);
      StepKeeps(states[i - 1], steps[i - 1].0, steps[i - 1].1);
    }
    forall c: nat, a | c < |states[i].cpus|
      ensures !Step(states[i], c, a).Broken? && (Step(states[i], c, a).Panicked? <==> PanicsWhen(states[i], c, a))
    {
      StepKeeps(states[i], c, a);
      PanicIs(states[i], c, a);
    }
  }

  // ---------- stacks ----------

  /** No two processors run on the same stack. */
  lemma StacksAreDistinct(states: seq<Sys>, steps: seq<(nat, Action)>, i: nat, c: nat, d: nat)
    requires IsRun(states, steps) && i <= |steps| && c < |states[i].cpus| && d < |states[i].cpus| && c != d
    ensures states[i].cpus[c].stack != states[i].cpus[d].stack
  {
    hide Boot, Step;
    RunsAreSound(states, steps, i);
    var s := states[i];
    assert CpuOk(s, c) && CpuOk(s, d);
    if !s.cpus[c].phase.Swapped? {
      Apart(s, c, d);
    } else if !s.cpus[d].phase.Swapped? {
      Apart(s, d, c);
    }
  }

  /** When a step deletes a task, no processor is on its stack or about to save registers into it, before or after. */
  lemma DeletedOffStack(states: seq<Sys>, steps: seq<(nat, Action)>, i: nat, id: TaskId, d: nat)
    requires IsRun(states, steps) && i < |steps| && d < |states[i].cpus|
    requires id in states[i].tasks && id !in states[i + 1].tasks
    ensures var cpu := states[i].cpus[d];
            cpu.stack != id && cpu.current != id && (cpu.phase.Swapped? ==> cpu.phase.prev != id)
    ensures states[i + 1].cpus == states[i].cpus
  {
    hide Inv, Boot, Step;
    RunsAreSound(states, steps, i);
    RunsAreSound(states, steps, i + 1);
    OnlyReapDeletes(states[i], steps[i].0, steps[i].1, id);
    OnStacks(states[i], d);
    OnStacks(states[i + 1], d);
  }

  lemma OnlyReapDeletes(s: Sys, c: nat, a: Action, id: TaskId)
    requires c < |s.cpus| && Step(s, c, a).To? && id in s.tasks && id !in Step(s, c, a).s.tasks
    ensures Step(s, c, a).s.cpus == s.cpus
  {
  }

  lemma OnStacks(s: Sys, d: nat)
    requires Inv(s) && d < |s.cpus|
    ensures s.cpus[d].stack in s.tasks && s.cpus[d].current in s.tasks
    ensures s.cpus[d].phase.Swapped? ==> s.cpus[d].phase.prev in s.tasks
  {
    assert CpuOk(s, d);
  }

  // ---------- the lock and the preemption count ----------

  /** At most one processor is between taking the run-queue lock and releasing it, with interrupts off; every acquisition
      but the current one has been released once. */
  lemma OneHolder(states: seq<Sys>, steps: seq<(nat, Action)>, i: nat, c: nat, d: nat)
    requires IsRun(states, steps) && i <= |steps| && c < |states[i].cpus| && d < |states[i].cpus|
    requires Holding(states[i].cpus[c].phase)
    ensures Holding(states[i].cpus[d].phase) ==> c == d
    ensures states[i].holder == Some(c) && !states[i].cpus[c].interrupts
    ensures states[i].acquired == states[i].released + 1
  {
    hide Boot, Step;
    RunsAreSound(states, steps, i);
    var s := states[i];
    assert CpuOk(s, c) && CpuOk(s, d);
  }

  /** The preemption count of a processor is the number of guards that its stack's task holds. */
  lemma CountIsGuards(states: seq<Sys>, steps: seq<(nat, Action)>, i: nat, c: nat)
    requires IsRun(states, steps) && i <= |steps| && c < |states[i].cpus|
    ensures var s := states[i];
            s.cpus[c].stack in s.tasks && s.cpus[c].count == s.tasks[s.cpus[c].stack].guards >= 0
  {
    hide Boot, Step;
    RunsAreSound(states, steps, i);
    assert CpuOk(states[i], c);
  }

  // ---------- placement ----------

  ghost predicate IsCurrent(s: Sys, id: TaskId) {
    exists c: nat :: c < |s.cpus| && s.cpus[c].current == id
  }

  ghost predicate IsIdle(s: Sys, id: TaskId) {
    exists c: nat :: c < |s.cpus| && s.cpus[c].idle == id
  }

  /** Taken off the queue by the processor that is about to make it current. */
  ghost predicate IsPopped(s: Sys, id: TaskId) {
    exists c: nat :: c < |s.cpus| && s.cpus[c].phase == Dispatching(id)
  }

  /** Created and not queued yet. */
  ghost predicate IsBeingMade(s: Sys, id: TaskId) {
    exists m :: m in s.tasks && s.tasks[m].making == Some(id)
  }

  /** Every live task but the idle ones is in exactly one place: once in the queue, or current on exactly one processor,
      or on its way between the two. */
  lemma PlacedOnce(states: seq<Sys>, steps: seq<(nat, Action)>, i: nat, id: TaskId)
    requires IsRun(states, steps) && i <= |steps| && id in states[i].tasks && !IsIdle(states[i], id)
    ensures InOnePlace(states[i], id)
  {
    hide Boot, Step;
    RunsAreSound(states, steps, i);
    PlacedBy(states[i], id);
  }

  /** In the queue once, or current on one processor, or just popped, or just made, and only one of these. */
  ghost predicate InOnePlace(s: Sys, id: TaskId) {
    && (id in s.queue <==> !IsCurrent(s, id) && !IsPopped(s, id) && !IsBeingMade(s, id))
    && (IsCurrent(s, id) ==> !IsPopped(s, id) && !IsBeingMade(s, id))
    && (IsPopped(s, id) ==> !IsBeingMade(s, id))
    && (forall c: nat, d: nat ::
          c < |s.cpus| && d < |s.cpus| && s.cpus[c].current == id && s.cpus[d].current == id ==> c == d)
    && (forall i, j :: 0 <= i < j < |s.queue| ==> !(s.queue[i] == id && s.queue[j] == id))
  }

  lemma PlacedBy(s: Sys, id: TaskId)
    requires Inv(s) && id in s.tasks && !IsIdle(s, id)
    ensures InOnePlace(s, id)
  {
    assert TaskOk(s, id);
    forall c: nat | c < |s.cpus| ensures s.cpus[c].current == id ==> s.tasks[id].place == Running(c)
                                 ensures s.cpus[c].phase == Dispatching(id) ==> s.tasks[id].place == Popped(c)
    {
      assert CpuOk(s, c);
    }
    forall m | m in s.tasks ensures s.tasks[m].making == Some(id) ==> s.tasks[id].place == Made(m) {
      assert TaskOk(s, m);
    }
  }

  /** A queued task is none of those a processor is changing. */
  lemma QueuedIsApart(s: Sys, c: nat, id: TaskId)
    requires Inv(s) && c < |s.cpus| && id in s.tasks && s.tasks[id].place.Queued?
    ensures s.cpus[c].stack in s.tasks && s.tasks[s.cpus[c].stack].making != Some(id)
    ensures s.cpus[c].current != id && (s.cpus[c].stack == id ==> s.cpus[c].phase.Swapped?)
    ensures s.cpus[c].phase != Dispatching(id)
  {
    assert CpuOk(s, c);
    assert TaskOk(s, s.cpus[c].stack);
  }

  // ---------- the steps are the run queue's loops ----------

  ghost function StatesOf(s: Sys): (st: States) {
    map id | id in s.tasks :: s.tasks[id].state
  }

  /** The reaping steps of a processor that nobody interrupts, up to the end of the queue. */
  ghost function ReapLoop(s: Sys, c: nat, i: nat): (o: Outcome)
    requires c < |s.cpus| && s.cpus[c].phase == Reaping(i)
    decreases |s.queue| - i
  {
    if i >= |s.queue| then To(s) else
    match ReapStep(s, c, i)
    case To(s') => ReapLoop(s', c, s'.cpus[c].phase.i)
    case o => o
  }

  lemma {:induction false} ReapedAgrees(q: seq<TaskId>, st: States, st': States)
    requires forall id :: id in q ==> (InState(st, id, Killed) <==> InState(st', id, Killed))
    ensures Reaped(q, st) == Reaped(q, st')
    decreases |q|
  {
    if q != [] {
      assert q[0] in q;
      ReapedAgrees(q[1..], st, st');
    }
  }

  lemma SurvivorsHead(st: States, id: TaskId, rest: seq<TaskId>)
    requires id in st
    ensures Survivors(st, [id] + rest) == if st[id] == Killed then Survivors(st - {id}, rest) else Survivors(st, rest)
  {
  }

  /** Left alone, those steps do what `remove_killed_pending_tasks` does. */
  lemma {:induction false} ReapLoopIs(s: Sys, c: nat, i: nat)
    requires c < |s.cpus| && s.cpus[c].phase == Reaping(i) && i <= |s.queue|
    requires NoRepeats(s.queue) && forall id :: id in s.queue ==> id in s.tasks
    ensures var o := ReapLoop(s, c, i);
            && o.To?
            && o.s.queue == s.queue[..i] + Reaped(s.queue[i..], StatesOf(s))
            && StatesOf(o.s) == Survivors(StatesOf(s), s.queue[i..])
    decreases |s.queue| - i
  {
    hide Survivors, NoRepeats, ReapStep;
    var q := s.queue;
    if i == |q| {
      assert q[i..] == [] && q[..i] == q;
      SurvivorsOfNone(StatesOf(s));
    } else {
      var id, rest := q[i], q[i + 1..];
      assert id in q;
      assert q[i..] == [id] + rest;
      SurvivorsHead(StatesOf(s), id, rest);
      if s.tasks[id].state == Killed {
        ReapKilled(s, c, i);
      } else {
        ReapSpared(s, c, i);
      }
    }
  }

  lemma {:induction false} ReapSpared(s: Sys, c: nat, i: nat)
    requires c < |s.cpus| && s.cpus[c].phase == Reaping(i) && i < |s.queue|
    requires NoRepeats(s.queue) && forall id :: id in s.queue ==> id in s.tasks
    requires s.queue[i] in s.tasks && s.tasks[s.queue[i]].state != Killed
    ensures var o := ReapLoop(s, c, i);
            && o.To?
            && o.s.queue == s.queue[..i] + ([s.queue[i]] + Reaped(s.queue[i + 1..], StatesOf(s)))
            && StatesOf(o.s) == Survivors(StatesOf(s), s.queue[i + 1..])
    decreases |s.queue| - i, 0
  {
    hide Survivors, NoRepeats, Reaped;
    var q, id, rest := s.queue, s.queue[i], s.queue[i + 1..];
    var s' := ReapStep(s, c, i).s;
    assert StatesOf(s') == StatesOf(s);
    ReapLoopIs(s', c, i + 1);
    assert q[..i + 1] + Reaped(rest, StatesOf(s)) == q[..i] + ([id] + Reaped(rest, StatesOf(s)));
  }

  lemma {:induction false} ReapKilled(s: Sys, c: nat, i: nat)
    requires c < |s.cpus| && s.cpus[c].phase == Reaping(i) && i < |s.queue|
    requires NoRepeats(s.queue) && forall id :: id in s.queue ==> id in s.tasks
    requires s.tasks[s.queue[i]].state == Killed
    ensures var o := ReapLoop(s, c, i);
            && o.To?
            && o.s.queue == s.queue[..i] + Reaped(s.queue[i + 1..], StatesOf(s))
            && StatesOf(o.s) == Survivors(StatesOf(s) - {s.queue[i]}, s.queue[i + 1..])
    decreases |s.queue| - i, 0
  {
    hide Survivors, Reaped, NoRepeats;
    var q, id, rest := s.queue, s.queue[i], s.queue[i + 1..];
    var s' := ReapStep(s, c, i).s;
    RemoveKeeps(q, i);
    assert forall x :: x in rest ==> x in q[..i] + rest;
    assert s'.queue[..i] == q[..i] && s'.queue[i..] == rest;
    assert StatesOf(s') == StatesOf(s) - {id};
    ReapedAgrees(rest, StatesOf(s), StatesOf(s'));
    ReapLoopIs(s', c, i);
  }

  /** The picking steps of a processor that nobody interrupts, until something is picked or the whole queue has been seen. */
  ghost function PickLoop(s: Sys, c: nat): (o: Outcome)
    requires c < |s.cpus| && s.cpus[c].phase.Picking?
    ensures o.To? ==> |o.s.cpus| == |s.cpus|
    decreases s.cpus[c].phase.left
  {
    if s.cpus[c].phase.left == 0 then To(s) else
    match PickStep(s, c, s.cpus[c].phase.prevReady, s.cpus[c].phase.left)
    case To(s') => if s'.cpus[c].phase.Picking? then PickLoop(s', c) else To(s')
    case o => o
  }

  /** Left alone, those steps do what `pop_next_ready_pending_task` does. */
  lemma {:induction false} PickLoopIs(s: Sys, c: nat, rest: seq<TaskId>, passed: seq<TaskId>)
    requires c < |s.cpus| && s.cpus[c].phase.Picking? && s.cpus[c].phase.left == |rest|
    requires s.queue == rest + passed && forall id :: id in s.queue ==> id in s.tasks
    ensures var o := PickLoop(s, c);
            var (next, q) := PopFrom(passed, rest, StatesOf(s));
            && o.To? && o.s.queue == q
            && o.s.cpus[c].phase == if next.Some? then Dispatching(next.value) else Picking(s.cpus[c].phase.prevReady, 0)
    decreases |rest|
  {
    if rest != [] {
      var id := rest[0];
      assert s.queue[0] == id && s.queue[1..] == rest[1..] + passed;
      assert id in s.queue;
      if s.tasks[id].state != ReadyToRun {
        var s' := PickStep(s, c, s.cpus[c].phase.prevReady, |rest|).s;
        assert s'.queue == rest[1..] + (passed + [id]);
        assert StatesOf(s') == StatesOf(s);
        PickLoopIs(s', c, rest[1..], passed + [id]);
      }
    }
  }
}
