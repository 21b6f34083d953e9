/** How soon, over every run of the scheduler, a ready task in the queue is dispatched. */
module SchedulerProgress {
  import opened Common
  import opened RunQueueModel
  import opened Scheduler
  import opened SchedulerRuns

  /** Ready and at position `k` of the queue. */
  ghost predicate Waits(s: Sys, x: TaskId, k: nat) {
    At(s.queue, x, k) && x in s.tasks && s.tasks[x].state == ReadyToRun
  }

  /** The processor is about to look at the first entry of the queue. */
  predicate IsLook(s: Sys, step: (nat, Action)) {
    step.1.Pick? && step.0 < |s.cpus| && s.cpus[step.0].phase.Picking? && s.cpus[step.0].phase.left > 0
  }

  /** It looks at `x`, which is ready, and takes it off the queue. */
  predicate Pops(s: Sys, step: (nat, Action), x: TaskId) {
    IsLook(s, step) && s.queue != [] && s.queue[0] == x && x in s.tasks && s.tasks[x].state == ReadyToRun
  }

  /** The processor begins a pass over the queue. */
  predicate Begins(s: Sys, step: (nat, Action)) {
    step.1.Reap? && step.0 < |s.cpus| && s.cpus[step.0].phase.Reaping? && s.cpus[step.0].phase.i >= |s.queue|
  }

  function Looks(states: seq<Sys>, steps: seq<(nat, Action)>, from: nat, i: nat): (n: nat)
    requires from <= i <= |steps| <= |states|
    decreases i
  {
    if i == from then 0
    else Looks(states, steps, from, i - 1) + if IsLook(states[i - 1], steps[i - 1]) then 1 else 0
  }

  /** The number of passes that begin between two moments. */
  function Begun(states: seq<Sys>, steps: seq<(nat, Action)>, from: nat, i: nat): (n: nat)
    requires from <= i <= |steps| <= |states|
    decreases i
  {
    if i == from then 0
    else Begun(states, steps, from, i - 1) + if Begins(states[i - 1], steps[i - 1]) then 1 else 0
  }

  /** Some processor has begun a pass and not looked at anything yet. */
  ghost predicate FreshPass(s: Sys) {
    exists c: nat :: c < |s.cpus| && s.cpus[c].phase.Picking? && 0 < s.cpus[c].phase.left == |s.queue|
  }

  // ---------- one step ----------

  /** How the queue can change around `x`: not at all, by one more at the back, by one other fewer, or, in a look, by the
      first entry, which is another, leaving or going to the back. */
  ghost predicate Moves(q: seq<TaskId>, q': seq<TaskId>, x: TaskId, look: bool) {
    if look then q != [] && q[0] != x && (q' == q[1..] || q' == q[1..] + [q[0]])
    else
      || q' == q
      || (exists y :: q' == q + [y])
      || exists i: nat :: i < |q| && q[i] != x && q' == q[..i] + q[i + 1..]
  }

  /** A ready task in the queue stays ready, whatever step is made, and unless it is popped it stays in the queue. */
  lemma QueueAfter(s: Sys, c: nat, a: Action, x: TaskId)
    requires Inv(s) && c < |s.cpus| && Step(s, c, a).To? && x in s.tasks && x in s.queue
    requires s.tasks[x].state == ReadyToRun && !Pops(s, (c, a), x)
    ensures var s' := Step(s, c, a).s;
            x in s'.tasks && s'.tasks[x].state == ReadyToRun && Moves(s.queue, s'.queue, x, IsLook(s, (c, a)))
  {
    hide Inv, CpuOk, TaskOk, NoRepeats;
    QueuedPlace(s, x);
    QueuedIsApart(s, c, x);
    LooksAtSome(s, c);
  }

  lemma LooksAtSome(s: Sys, c: nat)
    requires Inv(s) && c < |s.cpus|
    ensures s.cpus[c].phase.Picking? ==> s.cpus[c].phase.left <= |s.queue|
  {
    assert CpuOk(s, c);
  }

  lemma MovedTo(q: seq<TaskId>, q': seq<TaskId>, x: TaskId, look: bool, k: nat) returns (k': nat)
    requires Moves(q, q', x, look) && At(q, x, k)
    ensures At(q', x, k') && k' + (if look then 1 else 0) <= k
  {
    if look {
      k' := k - 1;
    } else if q' == q || exists y :: q' == q + [y] {
      k' := k;
    } else {
      var i: nat :| i < |q| && q[i] != x && q' == q[..i] + q[i + 1..];
      k' := if i < k then k - 1 else k;
    }
  }

  lemma QueuedPlace(s: Sys, x: TaskId)
    requires Inv(s) && x in s.tasks
    ensures x in s.queue <==> s.tasks[x].place.Queued?
  {
    assert TaskOk(s, x);
  }

  /** A pass begins only when no other is under way; until the first look, nobody changes the queue. */
  lemma FreshAfter(s: Sys, c: nat, a: Action)
    requires Inv(s) && c < |s.cpus| && Step(s, c, a).To? && s.queue != []
    ensures Begins(s, (c, a)) ==> !FreshPass(s) && FreshPass(Step(s, c, a).s)
    ensures !IsLook(s, (c, a)) && FreshPass(s) ==> FreshPass(Step(s, c, a).s)
  {
    var s' := Step(s, c, a).s;
    if Begins(s, (c, a)) {
      forall d: nat | d < |s.cpus| ensures !s.cpus[d].phase.Picking? { OneLocked(s, c, d); }
      assert s'.cpus[c].phase.Picking? && s'.cpus[c].phase.left == |s'.queue|;
    } else if !IsLook(s, (c, a)) && FreshPass(s) {
      var d: nat :| d < |s.cpus| && s.cpus[d].phase.Picking? && 0 < s.cpus[d].phase.left == |s.queue|;
      OneLocked(s, d, c);
      LockedQueue(s, c, a, d);
    }
  }

  lemma OneLocked(s: Sys, c: nat, d: nat)
    requires Inv(s) && c < |s.cpus| && d < |s.cpus| && Holding(s.cpus[c].phase)
    ensures Holding(s.cpus[d].phase) ==> c == d
  {
    assert CpuOk(s, c) && CpuOk(s, d);
  }

  /** A processor that does not hold the lock changes neither the queue nor another processor. */
  lemma LockedQueue(s: Sys, c: nat, a: Action, d: nat)
    requires c < |s.cpus| && d < |s.cpus| && Step(s, c, a).To? && s.cpus[d].phase.Picking?
    requires c == d ==> !IsLook(s, (c, a)) && s.cpus[d].phase.left > 0
    requires c != d ==> !Holding(s.cpus[c].phase)
    ensures var s' := Step(s, c, a).s; s'.queue == s.queue && d < |s'.cpus| && s'.cpus[d] == s.cpus[d]
  {
  }

  // ---------- nobody is stuck ----------

  /** What a processor does next in a phase that is not its own code. */
  function NextOf(p: Phase): (a: Action)
    requires !p.Working?
  {
    match p
    case Raised(_) => Disable
    case Wanting(_) => Acquire
    case Enqueuing => Enqueue
    case Reaping(_) => Action.Reap
    case Picking(_, _) => Pick
    case Dispatching(_) => Dispatch
    case Swapped(_) => Switch
    case Landed => Unlock
    case Unlocked => Restore
    case Settling => Settle
  }

  /** A processor outside its own code can go on, unless it wants the lock and another holds it; from its own code it can
      enter the scheduler exactly when no guard is held. */
  lemma GoesOn(s: Sys, c: nat)
    requires Inv(s) && c < |s.cpus|
    ensures var p := s.cpus[c].phase;
            if p.Working? then s.cpus[c].stack in s.tasks && (Step(s, c, Raise(false)).To? <==> s.tasks[s.cpus[c].stack].guards == 0)
            else if Step(s, c, NextOf(p)).NotNow? then p.Wanting? && s.holder.Some? && s.holder != Some(c)
            else true
  {
    assert CpuOk(s, c);
    hide Inv, TaskOk;
  }

  /** Over every run: a processor in the scheduler can make its next step, or else waits for the lock, and then the one that
      holds it can make its next step. */
  lemma NeverStuck(states: seq<Sys>, steps: seq<(nat, Action)>, i: nat, c: nat)
    requires IsRun(states, steps) && i <= |steps| && c < |states[i].cpus| && !states[i].cpus[c].phase.Working?
    ensures var s := states[i];
            || !Step(s, c, NextOf(s.cpus[c].phase)).NotNow?
            || exists d: nat :: d < |s.cpus| && d != c && Holding(s.cpus[d].phase) && !Step(s, d, NextOf(s.cpus[d].phase)).NotNow?
  {
    hide Boot, Step, CpuOk, TaskOk;
    RunsAreSound(states, steps, i);
    var s := states[i];
    GoesOn(s, c);
    if Step(s, c, NextOf(s.cpus[c].phase)).NotNow? {
      var d := s.holder.value;
      HolderHolds(s, d);
      GoesOn(s, d);
    }
  }

  lemma HolderHolds(s: Sys, d: nat)
    requires Inv(s) && s.holder == Some(d)
    ensures d < |s.cpus| && Holding(s.cpus[d].phase)
  {
    assert CpuOk(s, d);
  }

  // ---------- runs ----------

  /** As long as it is not popped, a ready task is one place nearer the front for every look, and of the passes begun
      at most the last has not looked yet. */
  lemma {:induction false} NearerByLooks(
    states: seq<Sys>, steps: seq<(nat, Action)>, from: nat, i: nat, x: TaskId, k: nat) returns (k': nat)
    requires IsRun(states, steps) && from <= i <= |steps| && Waits(states[from], x, k)
    requires forall j | from <= j < i :: !Pops(states[j], steps[j], x)
    ensures Waits(states[i], x, k') && k' + Looks(states, steps, from, i) <= k
    ensures Begun(states, steps, from, i)
            <= Looks(states, steps, from, i) + (if FreshPass(states[i]) then 1 else 0)
    decreases i
  {
    hide Inv, Boot, Step, FreshPass, Moves;
    if i == from {
      k' := k;
    } else {
      var s, c, a := states[i - 1], steps[i - 1].0, steps[i - 1].1;
      k' := NearerByLooks(states, steps, from, i - 1, x, k);
      RunsAreSound(states, steps, i - 1);
      assert Step(s, c, a) == To(states[i]);
      QueueAfter(s, c, a, x);
      FreshAfter(s, c, a);
      k' := MovedTo(s.queue, states[i].queue, x, IsLook(s, (c, a)), k');
    }
  }

  /** A ready task at position `k` is popped, by some processor, within the next `k + 1` passes that any processors make:
      by the time that many have begun and the last of them has looked at an entry. */
  lemma ReadyIsPopped(states: seq<Sys>, steps: seq<(nat, Action)>, from: nat, i: nat, x: TaskId, k: nat)
    requires IsRun(states, steps) && from <= i <= |steps| && Waits(states[from], x, k)
    requires Begun(states, steps, from, i) > k + if FreshPass(states[i]) then 1 else 0
    ensures exists j :: from <= j < i && Pops(states[j], steps[j], x)
  {
    hide Boot, Step, FreshPass, Pops;
    if forall j | from <= j < i :: !Pops(states[j], steps[j], x) {
      var k' := NearerByLooks(states, steps, from, i, x, k);
    }
  }

  /** Popped is as good as current: the processor that popped it can dispatch it, and does nothing else until it has. */
  lemma {:induction false} PoppedIsDispatched(
    states: seq<Sys>, steps: seq<(nat, Action)>, j: nat, i: nat, x: TaskId)
    requires IsRun(states, steps) && j < i <= |steps| && Pops(states[j], steps[j], x)
    requires forall m | j < m < i :: steps[m] != (steps[j].0, Dispatch)
    ensures var c := steps[j].0;
            && c < |states[i].cpus| && states[i].cpus[c].phase == Dispatching(x)
            && Step(states[i], c, Dispatch).To? && c < |Step(states[i], c, Dispatch).s.cpus|
            && Step(states[i], c, Dispatch).s.cpus[c].current == x
    decreases i
  {
    hide Inv, Boot, Step;
    var c := steps[j].0;
    var s, d, a := states[i - 1], steps[i - 1].0, steps[i - 1].1;
    assert Step(s, d, a) == To(states[i]);
    if i == j + 1 {
      PopStep(s, c, x);
    } else {
      PoppedIsDispatched(states, steps, j, i - 1, x);
      OthersKeep(s, d, a, c);
    }
    RunsAreSound(states, steps, i);
    CanDispatch(states[i], c, x);
  }

  lemma PopStep(s: Sys, c: nat, x: TaskId)
    requires Pops(s, (c, Pick), x) && Step(s, c, Pick).To?
    ensures var s' := Step(s, c, Pick).s; |s'.cpus| == |s.cpus| && s'.cpus[c].phase == Dispatching(x)
  {
  }

  lemma CanDispatch(s: Sys, c: nat, x: TaskId)
    requires Inv(s) && c < |s.cpus| && s.cpus[c].phase == Dispatching(x)
    ensures Step(s, c, Dispatch).To? && |Step(s, c, Dispatch).s.cpus| == |s.cpus|
    ensures Step(s, c, Dispatch).s.cpus[c].current == x
  {
    hide Inv;
    DispatchKeeps(s, c, x);
    ItsTask(s, c);
  }

  lemma OthersKeep(s: Sys, c: nat, a: Action, d: nat)
    requires c < |s.cpus| && d < |s.cpus| && Step(s, c, a).To?
    ensures var s' := Step(s, c, a).s;
            && |s'.cpus| == |s.cpus|
            && (c != d ==> s'.cpus[d] == s.cpus[d])
            && (c == d && s.cpus[d].phase.Dispatching? && !a.Dispatch? ==> s'.cpus[d] == s.cpus[d])
            && (c == d && s.cpus[d].phase.Dispatching? && a.Dispatch? ==> s'.cpus[d].current == s.cpus[d].phase.next)
  {
  }
}
