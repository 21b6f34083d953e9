/** Killed tasks: when they are gone for good, what awakening does to them, and when their exit panics. */
module SchedulerExits {
  import opened Common
  import opened RunQueueModel
  import opened Scheduler
  import opened SchedulerRuns
  import opened SchedulerProgress

  // ---------- killed and switched away from ----------

  /** Killed and switched away from: waiting in the queue to be reaped, or already gone. */
  ghost predicate DeadAndQueued(s: Sys, id: TaskId) {
    id in s.tasks ==> s.tasks[id].state == Killed && s.tasks[id].place.Queued?
  }

  lemma DeadStaysDead(s: Sys, c: nat, a: Action, id: TaskId)
    requires Inv(s) && c < |s.cpus| && Step(s, c, a).To? && a != Awaken(id)
    requires id < s.nextId && DeadAndQueued(s, id)
    ensures DeadAndQueued(Step(s, c, a).s, id) && id < Step(s, c, a).s.nextId
  {
    hide Inv, NoRepeats, CpuOk, TaskOk;
    if id in s.tasks { QueuedIsApart(s, c, id); }
  }

  /** A killed task that has been switched away from, and that nobody awakens, is never current on any processor again. */
  lemma {:induction false} KilledNeverDispatched(states: seq<Sys>, steps: seq<(nat, Action)>, from: nat, i: nat, id: TaskId)
    requires IsRun(states, steps) && from <= i <= |steps|
    requires id in states[from].tasks && DeadAndQueued(states[from], id)
    requires forall k :: from <= k < i ==> steps[k].1 != Awaken(id)
    ensures DeadAndQueued(states[i], id) && id < states[i].nextId && !IsCurrent(states[i], id)
    decreases i
  {
    hide Inv, Step, Boot;
    RunsAreSound(states, steps, i);
    if i == from {
      KnownBelowNext(states[i], id);
    } else {
      KilledNeverDispatched(states, steps, from, i - 1, id);
      RunsAreSound(states, steps, i - 1);
      DeadStaysDead(states[i - 1], steps[i - 1].0, steps[i - 1].1, id);
    }
    NotCurrent(states[i], id);
  }

  lemma KnownBelowNext(s: Sys, id: TaskId)
    requires Inv(s) && id in s.tasks
    ensures id < s.nextId
  {
    assert TaskOk(s, id);
  }

  lemma NotCurrent(s: Sys, id: TaskId)
    requires Inv(s) && DeadAndQueued(s, id)
    ensures !IsCurrent(s, id)
  {
    forall c: nat | c < |s.cpus| ensures s.cpus[c].current != id {
      assert CpuOk(s, c);
    }
  }

  /** The converse over runs: if it is current again, somebody awakened it, and did so before it was deleted. */
  lemma DispatchedOnlyIfAwakened(states: seq<Sys>, steps: seq<(nat, Action)>, from: nat, i: nat, id: TaskId)
    requires IsRun(states, steps) && from <= i <= |steps|
    requires id in states[from].tasks && DeadAndQueued(states[from], id) && IsCurrent(states[i], id)
    ensures exists k :: from <= k < i && steps[k].1 == Awaken(id) && id in states[k].tasks
  {
    hide Boot, Step, IsCurrent, DeadAndQueued;
    if forall k | from <= k < i :: steps[k].1 != Awaken(id) {
      KilledNeverDispatched(states, steps, from, i, id);
    } else {
      var k :| from <= k < i && steps[k].1 == Awaken(id);
      assert Step(states[k], steps[k].0, steps[k].1) == To(states[k + 1]);
      AwakenFinds(states[k], steps[k].0, id);
    }
  }

  lemma AwakenFinds(s: Sys, c: nat, id: TaskId)
    requires c < |s.cpus| && Step(s, c, Awaken(id)).To?
    ensures id in s.tasks
  {
  }

  lemma AwakenedWaits(s: Sys, c: nat, id: TaskId, k: nat)
    requires Inv(s) && c < |s.cpus| && At(s.queue, id, k) && Step(s, c, Awaken(id)).To?
    ensures Waits(Step(s, c, Awaken(id)).s, id, k)
  {
  }

  /**
   If somebody does awaken it while it is queued, killed or not, it is popped again, to be made current, within one pass
   more than there are tasks before it in the queue.
   */
  lemma AwakenedIsDispatched(states: seq<Sys>, steps: seq<(nat, Action)>, a: nat, i: nat, id: TaskId, k: nat)
    requires IsRun(states, steps) && a < i <= |steps| && steps[a].1 == Awaken(id) && At(states[a].queue, id, k)
    requires Begun(states, steps, a + 1, i) > k + if FreshPass(states[i]) then 1 else 0
    ensures exists j :: a < j < i && Pops(states[j], steps[j], id)
  {
    hide Boot, Step, Inv, FreshPass, Pops, Begun, Waits;
    RunsAreSound(states, steps, a);
    assert Step(states[a], steps[a].0, steps[a].1) == To(states[a + 1]);
    AwakenedWaits(states[a], steps[a].0, id, k);
    ReadyIsPopped(states, steps, a + 1, i, id, k);
  }

  // ---------- leaving for good ----------

  /** The phases in which a killed task can be on a stack: it has not been taken back by the scheduler. */
  predicate LeavingPhase(p: Phase) {
    p.Working? || (Scheduling(p) && !(p.Picking? && p.prevReady))
  }

  /** Killed since it last became ready, and on its way out or gone. */
  ghost predicate Leaving(s: Sys, id: TaskId) {
    id in s.tasks ==>
      && s.tasks[id].state == Killed
      && forall c: nat | c < |s.cpus| ::
           && (s.cpus[c].stack == id ==> LeavingPhase(s.cpus[c].phase))
           && (s.cpus[c].current == id ==> s.cpus[c].stack == id)
  }

  lemma KillStartsLeaving(s: Sys, c: nat)
    requires Inv(s) && c < |s.cpus| && Step(s, c, Kill).To?
    ensures s.cpus[c].stack < s.nextId && Leaving(Step(s, c, Kill).s, s.cpus[c].stack)
  {
    ItsTask(s, c);
    forall d: nat | d < |s.cpus| && d != c ensures s.cpus[d].stack != s.cpus[c].stack && s.cpus[d].current != s.cpus[c].stack {
      assert CpuOk(s, d);
      Apart(s, c, d);
    }
    hide Inv, CpuOk;
  }

  /** A killed task that is being left is changed by no other processor, and is not about to be dispatched. */
  lemma LeavingAlone(s: Sys, c: nat, id: TaskId)
    requires Inv(s) && c < |s.cpus| && id in s.tasks && Leaving(s, id)
    ensures s.cpus[c].stack in s.tasks && s.tasks[s.cpus[c].stack].making != Some(id)
    ensures s.cpus[c].phase != Dispatching(id) && s.cpus[c].idle != id
    ensures !s.tasks[id].life.Alive? && s.tasks[id].making.None?
    ensures s.cpus[c].stack == id && !s.cpus[c].phase.Swapped? ==> s.cpus[c].current == id
    ensures s.cpus[c].phase.Swapped? ==> s.cpus[c].current != s.cpus[c].stack
  {
    assert CpuOk(s, c);
    assert TaskOk(s, id) && TaskOk(s, s.cpus[c].stack) && TaskOk(s, s.cpus[c].idle);
  }

  lemma LeavingStep(s: Sys, c: nat, a: Action, id: TaskId)
    requires Inv(s) && c < |s.cpus| && Step(s, c, a).To? && a != Awaken(id)
    requires id < s.nextId && Leaving(s, id)
    ensures Leaving(Step(s, c, a).s, id) && id < Step(s, c, a).s.nextId
  {
    hide Inv, NoRepeats, CpuOk, TaskOk;
    if id in s.tasks {
      LeavingAlone(s, c, id);
      OthersKeepAll(s, c, a);
    }
  }

  lemma OthersKeepAll(s: Sys, c: nat, a: Action)
    requires c < |s.cpus| && Step(s, c, a).To?
    ensures var s' := Step(s, c, a).s;
            |s'.cpus| == |s.cpus| && forall d: nat | d < |s.cpus| && d != c :: s'.cpus[d] == s.cpus[d]
  {
  }

  lemma {:induction false} LeavesQuietly(states: seq<Sys>, steps: seq<(nat, Action)>, from: nat, i: nat, id: TaskId)
    requires IsRun(states, steps) && from <= i <= |steps|
    requires id < states[from].nextId && Leaving(states[from], id)
    requires forall k :: from <= k < i ==> steps[k].1 != Awaken(id)
    ensures Leaving(states[i], id) && id < states[i].nextId
    decreases i
  {
    hide Inv, Boot, Step, Leaving;
    if i > from {
      LeavesQuietly(states, steps, from, i - 1, id);
      RunsAreSound(states, steps, i - 1);
      assert Step(states[i - 1], steps[i - 1].0, steps[i - 1].1) == To(states[i]);
      LeavingStep(states[i - 1], steps[i - 1].0, steps[i - 1].1, id);
    }
  }

  /**
   Over every run: after `kill_current_task` has marked a task killed, and as long as nobody awakens it, its last call of
   the scheduler does not return once it has been taken on, and it returns at once exactly when a guard is held.
   */
  lemma KillPanicsWhen(states: seq<Sys>, steps: seq<(nat, Action)>, k: nat, i: nat, d: nat, expired: bool)
    requires IsRun(states, steps) && k < i <= |steps| && steps[k].1 == Kill && d < |states[i].cpus|
    requires steps[k].0 < |states[k].cpus| && states[i].cpus[d].stack == states[k].cpus[steps[k].0].stack
    requires forall j :: k < j < i ==> steps[j].1 != Awaken(states[i].cpus[d].stack)
    ensures var s := states[i];
            && s.cpus[d].stack in s.tasks
            && !Step(s, d, Settle).Panicked?
            && (s.cpus[d].phase.Working? && s.tasks[s.cpus[d].stack].life.Dying? ==>
                  (Step(s, d, Exit(expired)).Panicked? <==> s.tasks[s.cpus[d].stack].guards > 0))
  {
    hide Inv, Boot, Step;
    RunsAreSound(states, steps, k);
    assert Step(states[k], steps[k].0, steps[k].1) == To(states[k + 1]);
    KillStartsLeaving(states[k], steps[k].0);
    StepOnlyAdds(states[k], steps[k].0);
    var id := states[i].cpus[d].stack;
    LeavesQuietly(states, steps, k + 1, i, id);
    RunsAreSound(states, steps, i);
    ItsTask(states[i], d);
  }

  lemma StepOnlyAdds(s: Sys, c: nat)
    requires c < |s.cpus| && Step(s, c, Kill).To?
    ensures Step(s, c, Kill).s.nextId == s.nextId
  {
  }

  // ---------- made ready again ----------

  /** Past its death and ready. */
  ghost predicate Restless(s: Sys, id: TaskId) {
    id in s.tasks && !s.tasks[id].life.Alive? && s.tasks[id].state == ReadyToRun
  }

  lemma RestlessStep(s: Sys, c: nat, a: Action, id: TaskId)
    requires Inv(s) && c < |s.cpus| && Step(s, c, a).To? && Restless(s, id)
    ensures Restless(Step(s, c, a).s, id)
  {
    hide Inv, CpuOk, TaskOk, NoRepeats;
    ItsTask(s, c);
    KnownBelowNext(s, id);
  }

  /** A dead task that is awakened is never deleted: it stays ready for ever, or until its exit panics. */
  lemma {:induction false} AwakenedNeverDeleted(states: seq<Sys>, steps: seq<(nat, Action)>, from: nat, i: nat, id: TaskId)
    requires IsRun(states, steps) && from <= i <= |steps| && Restless(states[from], id)
    ensures Restless(states[i], id)
    decreases i
  {
    hide Inv, Boot, Step, Restless;
    if i > from {
      AwakenedNeverDeleted(states, steps, from, i - 1, id);
      RunsAreSound(states, steps, i - 1);
      assert Step(states[i - 1], steps[i - 1].0, steps[i - 1].1) == To(states[i]);
      RestlessStep(states[i - 1], steps[i - 1].0, steps[i - 1].1, id);
    }
  }

  /** The steps of one processor that nobody interrupts. */
  ghost function Exec(s: Sys, c: nat, acts: seq<Action>): (o: Outcome)
    decreases |acts|
  {
    if acts == [] then To(s)
    else if c >= |s.cpus| then Broken
    else
      match Step(s, c, acts[0])
      case To(s') => Exec(s', c, acts[1..])
      case o => o
  }

  lemma SwitchedTo(s: Sys, c: nat, x: TaskId)
    requires Inv(s) && c < |s.cpus| && s.cpus[c].phase == Dispatching(x)
    ensures Step(s, c, Dispatch).To?
    ensures var s1 := Step(s, c, Dispatch).s;
            && c < |s1.cpus| && Step(s1, c, Switch).To?
            && var s2 := Step(s1, c, Switch).s;
            && Inv(s2) && c < |s2.cpus| && s2.cpus[c].stack == x && s2.cpus[c].phase.Landed?
            && x in s.tasks && x in s2.tasks && s2.tasks[x].life == s.tasks[x].life
  {
    hide Inv, TaskOk;
    CanDispatch(s, c, x);
    DispatchKeeps(s, c, x);
    ItsTask(s, c);
    var s1 := Step(s, c, Dispatch).s;
    SwitchKeeps(s1, c);
    ItsTask(s1, c);
  }

  lemma ReturnsTo(s: Sys, c: nat)
    requires Inv(s) && c < |s.cpus| && s.cpus[c].phase.Landed? && s.cpus[c].stack in s.tasks
    requires s.tasks[s.cpus[c].stack].life.Exiting?
    ensures Step(s, c, Unlock).To?
    ensures var s1 := Step(s, c, Unlock).s;
            && c < |s1.cpus| && Step(s1, c, Restore).To?
            && var s2 := Step(s1, c, Restore).s;
            c < |s2.cpus| && Step(s2, c, Settle).Panicked?
  {
    hide Inv;
    UnlockKeeps(s, c);
    ItsTask(s, c);
  }

  /** Once an exiting task has been popped again, its processor goes on to the panic at the end of `kill_current_task`. */
  lemma PoppedExitPanics(s: Sys, c: nat, x: TaskId)
    requires Inv(s) && c < |s.cpus| && s.cpus[c].phase == Dispatching(x) && x in s.tasks && s.tasks[x].life.Exiting?
    ensures Exec(s, c, [Dispatch, Switch, Unlock, Restore, Settle]) == Panicked
  {
    hide Inv, Step;
    SwitchedTo(s, c, x);
    var s1 := Step(s, c, Dispatch).s;
    var s2 := Step(s1, c, Switch).s;
    ReturnsTo(s2, c);
    var acts := [Dispatch, Switch, Unlock, Restore, Settle];
    assert acts[1..] == [Switch, Unlock, Restore, Settle] && acts[1..][1..] == [Unlock, Restore, Settle];
    assert [Unlock, Restore, Settle][1..] == [Restore, Settle] && [Restore, Settle][1..] == [Settle];
    assert Exec(s2, c, [Unlock, Restore, Settle]) == Panicked;
  }
}
