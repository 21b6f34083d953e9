/** Sleeping and staying: who comes back from a call of the scheduler, and with what. */
module SchedulerSleep {
  import opened Common
  import opened RunQueueModel
  import opened Scheduler
  import opened SchedulerRuns
  import opened SchedulerProgress
  import opened SchedulerExits

  // ---------- a sleeping task is not returned to ----------

  /** Asleep and given up by its processor, or about to be: on a stack only in a call of the scheduler that has not found
      it ready.  An idle task never is. */
  ghost predicate Parked(s: Sys, id: TaskId) {
    && id in s.tasks && s.tasks[id].state == Sleeping && !s.tasks[id].place.IdleOf?
    && forall c: nat | c < |s.cpus| ::
         && (s.cpus[c].stack == id ==> Scheduling(s.cpus[c].phase) && !(s.cpus[c].phase.Picking? && s.cpus[c].phase.prevReady))
         && (s.cpus[c].current == id ==> s.cpus[c].stack == id)
  }

  /** What no processor is about to do with such a task. */
  lemma ParkedAlone(s: Sys, c: nat, id: TaskId)
    requires Inv(s) && c < |s.cpus| && Parked(s, id)
    ensures s.cpus[c].stack in s.tasks && s.tasks[s.cpus[c].stack].making != Some(id)
    ensures s.cpus[c].phase != Dispatching(id) && s.cpus[c].idle != id && id < s.nextId
    ensures s.cpus[c].stack == id && !s.cpus[c].phase.Swapped? ==> s.cpus[c].current == id
    ensures s.cpus[c].phase.Swapped? ==> s.cpus[c].current != s.cpus[c].stack
  {
    assert CpuOk(s, c);
    assert TaskOk(s, id) && TaskOk(s, s.cpus[c].stack) && TaskOk(s, s.cpus[c].idle);
  }

  lemma ParkedStep(s: Sys, c: nat, a: Action, id: TaskId)
    requires Inv(s) && c < |s.cpus| && Step(s, c, a).To? && a != Awaken(id) && Parked(s, id)
    ensures Parked(Step(s, c, a).s, id)
  {
    hide Inv, CpuOk, TaskOk;
    ParkedAlone(s, c, id);
    OthersKeepAll(s, c, a);
  }

  /** Over every run: a sleeping task that is in a call of the scheduler, or was switched away from, is not back at its own
      code, nor on the way back to it, before somebody awakens it. */
  lemma {:induction false} SleepsOn(states: seq<Sys>, steps: seq<(nat, Action)>, from: nat, i: nat, id: TaskId)
    requires IsRun(states, steps) && from <= i <= |steps| && Parked(states[from], id)
    requires forall k :: from <= k < i ==> steps[k].1 != Awaken(id)
    ensures Parked(states[i], id)
    decreases i
  {
    hide Inv, Boot, Step, Parked;
    if i > from {
      SleepsOn(states, steps, from, i - 1, id);
      RunsAreSound(states, steps, i - 1);
      assert Step(states[i - 1], steps[i - 1].0, steps[i - 1].1) == To(states[i]);
      ParkedStep(states[i - 1], steps[i - 1].0, steps[i - 1].1, id);
    }
  }

  // ---------- from going to sleep on ----------

  ghost predicate Asleep(s: Sys, id: TaskId) {
    id in s.tasks && s.tasks[id].state == Sleeping && !s.tasks[id].place.IdleOf?
  }

  /** The step is the task's own `kill_current_task`. */
  predicate KillsItself(s: Sys, step: (nat, Action), id: TaskId) {
    step.1.Kill? && step.0 < |s.cpus| && s.cpus[step.0].stack == id
  }

  lemma AsleepStep(s: Sys, c: nat, a: Action, id: TaskId)
    requires Inv(s) && c < |s.cpus| && Step(s, c, a).To? && Asleep(s, id)
    requires a != Awaken(id) && !KillsItself(s, (c, a), id)
    ensures Asleep(Step(s, c, a).s, id)
  {
    hide Inv, CpuOk, TaskOk;
    ItsTask(s, c);
    KnownBelowNext(s, id);
    NeverIdle(s, c, id);
  }

  lemma NeverIdle(s: Sys, c: nat, id: TaskId)
    requires Inv(s) && c < |s.cpus| && id in s.tasks && !s.tasks[id].place.IdleOf?
    ensures s.cpus[c].idle != id
  {
    assert CpuOk(s, c);
  }

  lemma {:induction false} StaysAsleep(states: seq<Sys>, steps: seq<(nat, Action)>, from: nat, i: nat, id: TaskId)
    requires IsRun(states, steps) && from <= i <= |steps| && Asleep(states[from], id)
    requires forall k :: from <= k < i ==> steps[k].1 != Awaken(id) && !KillsItself(states[k], steps[k], id)
    ensures Asleep(states[i], id)
    decreases i
  {
    hide Inv, Boot, Step, Asleep, KillsItself;
    if i > from {
      StaysAsleep(states, steps, from, i - 1, id);
      RunsAreSound(states, steps, i - 1);
      assert Step(states[i - 1], steps[i - 1].0, steps[i - 1].1) == To(states[i]);
      AsleepStep(states[i - 1], steps[i - 1].0, steps[i - 1].1, id);
    }
  }

  lemma SleepFallsAsleep(s: Sys, c: nat)
    requires Inv(s) && c < |s.cpus| && Step(s, c, Sleep).To? && s.cpus[c].stack != s.cpus[c].idle
    ensures Asleep(Step(s, c, Sleep).s, s.cpus[c].stack)
  {
    assert CpuOk(s, c);
  }

  lemma CallParks(s: Sys, c: nat, id: TaskId)
    requires Inv(s) && c < |s.cpus| && Step(s, c, Raise(false)).To? && s.cpus[c].stack == id && Asleep(s, id)
    ensures Parked(Step(s, c, Raise(false)).s, id)
  {
    assert CpuOk(s, c);
    forall d: nat | d < |s.cpus| && d != c ensures s.cpus[d].stack != id && s.cpus[d].current != id {
      assert CpuOk(s, d);
      Apart(s, c, d);
    }
    hide Inv, CpuOk, TaskOk;
  }

  /**
   Over every run: a task that marked itself asleep and then called the scheduler stays away from its own code, whatever
   else happens, until somebody awakens it.
   */
  lemma SleeperWaits(states: seq<Sys>, steps: seq<(nat, Action)>, k: nat, j: nat, i: nat, id: TaskId)
    requires IsRun(states, steps) && k < j < i <= |steps|
    requires steps[k].1 == Sleep && steps[k].0 < |states[k].cpus| && states[k].cpus[steps[k].0].stack == id
    requires states[k].cpus[steps[k].0].idle != id
    requires steps[j].1 == Raise(false) && steps[j].0 < |states[j].cpus| && states[j].cpus[steps[j].0].stack == id
    requires forall m :: k < m < i ==> steps[m].1 != Awaken(id)
    requires forall m :: k < m < j ==> !KillsItself(states[m], steps[m], id)
    ensures Parked(states[i], id)
    ensures forall c: nat | c < |states[i].cpus| && states[i].cpus[c].stack == id ::
              !states[i].cpus[c].phase.Working? && !Releasing(states[i].cpus[c].phase)
  {
    hide Inv, Boot, Step, Asleep, KillsItself;
    RunsAreSound(states, steps, k);
    assert Step(states[k], steps[k].0, steps[k].1) == To(states[k + 1]);
    SleepFallsAsleep(states[k], steps[k].0);
    StaysAsleep(states, steps, k + 1, j, id);
    RunsAreSound(states, steps, j);
    assert Step(states[j], steps[j].0, steps[j].1) == To(states[j + 1]);
    CallParks(states[j], steps[j].0, id);
    SleepsOn(states, steps, j + 1, i, id);
  }

  // ---------- a pass that finds nothing ----------

  /** The steps of one processor between two moments. */
  function StepsOf(steps: seq<(nat, Action)>, c: nat, from: nat, i: nat): (n: nat)
    requires from <= i <= |steps|
    decreases i
  {
    if i == from then 0 else StepsOf(steps, c, from, i - 1) + if steps[i - 1].0 == c then 1 else 0
  }

  /** The processor looks at a ready task. */
  predicate FindsReady(s: Sys, step: (nat, Action)) {
    s.queue != [] && Pops(s, step, s.queue[0])
  }

  lemma LookGoesOn(s: Sys, c: nat, a: Action)
    requires Inv(s) && c < |s.cpus| && s.cpus[c].phase.Picking? && Step(s, c, a).To? && !FindsReady(s, (c, a))
    ensures var cpu, cpu' := s.cpus[c], Step(s, c, a).s.cpus[c];
            cpu' == cpu.(phase :=
              if cpu.phase.left > 0 then Picking(cpu.phase.prevReady, cpu.phase.left - 1)
              else if cpu.current == cpu.idle || cpu.phase.prevReady then Landed
              else Dispatching(cpu.idle))
  {
    hide Inv;
    LooksAtSome(s, c);
  }

  lemma BeginLoads(s: Sys, c: nat, a: Action)
    requires Begins(s, (c, a)) && Step(s, c, a).To?
    ensures s.cpus[c].current in s.tasks
    ensures var cpu, cpu' := s.cpus[c], Step(s, c, a).s.cpus[c];
            && Step(s, c, a).s.queue == s.queue
            && cpu' == cpu.(phase := Picking(s.tasks[cpu.current].state == ReadyToRun, |s.queue|))
  {
  }

  lemma {:induction false} PassSoFar(states: seq<Sys>, steps: seq<(nat, Action)>, j: nat, i: nat, c: nat)
    requires IsRun(states, steps) && j < i <= |steps| && steps[j].0 == c && Begins(states[j], steps[j])
    requires forall k :: j < k < i && steps[k].0 == c ==> !FindsReady(states[k], steps[k])
    requires StepsOf(steps, c, j + 1, i) <= |states[j].queue| + 1
    ensures var cpu, n := states[j].cpus[c], StepsOf(steps, c, j + 1, i);
            && c < |states[i].cpus| && cpu.current in states[j].tasks
            && var ready := states[j].tasks[cpu.current].state == ReadyToRun;
            && states[i].cpus[c] == cpu.(phase :=
                 if n <= |states[j].queue| then Picking(ready, |states[j].queue| - n)
                 else if cpu.current == cpu.idle || ready then Landed
                 else Dispatching(cpu.idle))
    decreases i
  {
    hide Inv, Boot, Step, FindsReady;
    var s, d, a := states[i - 1], steps[i - 1].0, steps[i - 1].1;
    assert Step(s, d, a) == To(states[i]);
    if i == j + 1 {
      BeginLoads(s, d, a);
      OthersKeep(s, d, a, d);
    } else {
      PassSoFar(states, steps, j, i - 1, c);
      OthersKeep(s, d, a, c);
      RunsAreSound(states, steps, i - 1);
      if d == c { LookGoesOn(s, c, a); }
    }
  }

  /**
   Over every run: a pass that looks at the whole queue and finds nothing ready goes back to the task it was called by, on
   its own stack, if that task was ready when the pass began or is the processor's idle task, and otherwise goes on to the
   idle task.
   */
  lemma PassFindsNothing(states: seq<Sys>, steps: seq<(nat, Action)>, j: nat, i: nat, c: nat)
    requires IsRun(states, steps) && j < i <= |steps| && steps[j].0 == c && Begins(states[j], steps[j])
    requires forall k :: j < k < i && steps[k].0 == c ==> !FindsReady(states[k], steps[k])
    requires StepsOf(steps, c, j + 1, i) == |states[j].queue| + 1
    ensures var cpu := states[j].cpus[c];
            && c < |states[i].cpus| && cpu.current in states[j].tasks
            && states[i].cpus[c].current == cpu.current && states[i].cpus[c].stack == cpu.stack
            && (states[i].cpus[c].phase.Landed? <==>
                  cpu.current == cpu.idle || states[j].tasks[cpu.current].state == ReadyToRun)
            && (!states[i].cpus[c].phase.Landed? ==> states[i].cpus[c].phase == Dispatching(cpu.idle))
  {
    PassSoFar(states, steps, j, i, c);
  }

  // ---------- interrupts ----------

  /** The task disabled interrupts for the run-queue lock and has not restored them: on a stack only in between. */
  ghost predicate InLock(s: Sys, id: TaskId, on: bool) {
    && id in s.tasks && s.tasks[id].savedInterrupts == on && !s.tasks[id].unstarted
    && forall c: nat | c < |s.cpus| && s.cpus[c].stack == id :: LockPhase(s.cpus[c].phase)
  }

  lemma DisableEnters(s: Sys, c: nat)
    requires Inv(s) && c < |s.cpus| && Step(s, c, Disable).To?
    ensures InLock(Step(s, c, Disable).s, s.cpus[c].stack, s.cpus[c].interrupts)
  {
    assert CpuOk(s, c);
    forall d: nat | d < |s.cpus| && d != c ensures s.cpus[d].stack != s.cpus[c].stack {
      assert CpuOk(s, d);
      Apart(s, c, d);
    }
    hide Inv, CpuOk;
  }

  lemma InLockStep(s: Sys, c: nat, a: Action, id: TaskId, on: bool)
    requires Inv(s) && c < |s.cpus| && Step(s, c, a).To? && id < s.nextId && (id in s.tasks ==> InLock(s, id, on))
    requires !(a.Restore? && s.cpus[c].stack == id)
    ensures id < Step(s, c, a).s.nextId && (id in Step(s, c, a).s.tasks ==> InLock(Step(s, c, a).s, id, on))
  {
    hide Inv, Step;
    ItsTask(s, c);
    SavedStep(s, c, a, id);
    LockPhaseStep(s, c, a, id);
    OthersKeepAll(s, c, a);
  }

  predicate LockPhase(p: Phase) {
    !p.Working? && !p.Raised? && !p.Settling?
  }

  lemma SavedStep(s: Sys, c: nat, a: Action, id: TaskId)
    requires c < |s.cpus| && Step(s, c, a).To? && id < s.nextId
    ensures var s' := Step(s, c, a).s;
            && id < s'.nextId && (id in s'.tasks ==> id in s.tasks)
            && (id in s'.tasks && !(a.Disable? && s.cpus[c].stack == id && s.cpus[c].phase.Raised?) ==>
                  && s'.tasks[id].savedInterrupts == s.tasks[id].savedInterrupts
                  && (s'.tasks[id].unstarted ==> s.tasks[id].unstarted))
  {
  }

  lemma LockPhaseStep(s: Sys, c: nat, a: Action, id: TaskId)
    requires c < |s.cpus| && Step(s, c, a).To? && !(a.Restore? && s.cpus[c].stack == id)
    requires s.cpus[c].stack == id ==> LockPhase(s.cpus[c].phase)
    ensures var s' := Step(s, c, a).s;
            c < |s'.cpus| && (s'.cpus[c].stack == id ==> LockPhase(s'.cpus[c].phase))
  {
  }

  /**
   Over every run: a task that disabled interrupts for the run-queue lock gets them back as they were, on whichever
   processor it comes back.
   */
  lemma {:induction false} InterruptsComeBack(states: seq<Sys>, steps: seq<(nat, Action)>, j: nat, i: nat, id: TaskId)
    requires IsRun(states, steps) && j < i < |steps|
    requires steps[j].1 == Disable && steps[j].0 < |states[j].cpus| && states[j].cpus[steps[j].0].stack == id
    requires steps[i].1 == Restore && steps[i].0 < |states[i].cpus| && states[i].cpus[steps[i].0].stack == id
    requires forall m :: j < m < i && steps[m].0 < |states[m].cpus| && steps[m].1 == Restore ==>
               states[m].cpus[steps[m].0].stack != id
    ensures steps[i].0 < |states[i + 1].cpus|
    ensures states[i + 1].cpus[steps[i].0].interrupts == states[j].cpus[steps[j].0].interrupts
  {
    hide Inv, Boot, Step, InLock;
    RunsAreSound(states, steps, j);
    assert Step(states[j], steps[j].0, steps[j].1) == To(states[j + 1]);
    DisableEnters(states[j], steps[j].0);
    var on := states[j].cpus[steps[j].0].interrupts;
    RunsAreSound(states, steps, i);
    ItsTask(states[i], steps[i].0);
    RunsAreSound(states, steps, j + 1);
    KnownNow(states[j + 1], id, on);
    StaysInLock(states, steps, j + 1, i, id, on);
    assert Step(states[i], steps[i].0, steps[i].1) == To(states[i + 1]);
    RestoreGivesBack(states[i], steps[i].0, on);
  }

  lemma KnownNow(s: Sys, id: TaskId, on: bool)
    requires Inv(s) && InLock(s, id, on)
    ensures id < s.nextId
  {
    KnownBelowNext(s, id);
  }

  lemma RestoreGivesBack(s: Sys, c: nat, on: bool)
    requires c < |s.cpus| && Step(s, c, Restore).To? && InLock(s, s.cpus[c].stack, on)
    ensures var s' := Step(s, c, Restore).s; |s'.cpus| == |s.cpus| && s'.cpus[c].interrupts == on
  {
  }

  lemma {:induction false} StaysInLock(
      states: seq<Sys>, steps: seq<(nat, Action)>, from: nat, i: nat, id: TaskId, on: bool)
    requires IsRun(states, steps) && from <= i <= |steps| && InLock(states[from], id, on) && id < states[from].nextId
    requires forall m :: from <= m < i && steps[m].0 < |states[m].cpus| && steps[m].1 == Restore ==>
               states[m].cpus[steps[m].0].stack != id
    ensures id < states[i].nextId && (id in states[i].tasks ==> InLock(states[i], id, on))
    decreases i
  {
    hide Inv, Boot, Step, InLock;
    if i > from {
      RunsAreSound(states, steps, i - 1);
      assert Step(states[i - 1], steps[i - 1].0, steps[i - 1].1) == To(states[i]);
      StaysInLock(states, steps, from, i - 1, id, on);
      InLockStep(states[i - 1], steps[i - 1].0, steps[i - 1].1, id, on);
    }
  }
}
