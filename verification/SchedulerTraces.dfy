/** Two runs, on one processor, that end in the panics the scheduler itself does not prevent. */
module SchedulerTraces {
  import opened Common
  import opened RunQueueModel
  import opened Scheduler
  import opened SchedulerRuns
  import opened SchedulerExits

  // ---------- running one processor ----------

  lemma {:induction false} ExecJoins(s: Sys, a: seq<Action>, b: seq<Action>)
    requires Exec(s, 0, a).To?
    ensures Exec(s, 0, a + b) == Exec(Exec(s, 0, a).s, 0, b)
    decreases |a|
  {
    hide Step;
    if a == [] {
      assert a + b == b;
    } else {
      assert (a + b)[0] == a[0] && (a + b)[1..] == a[1..] + b;
      ExecJoins(Step(s, 0, a[0]).s, a[1..], b);
    }
  }

  /** What one processor can do alone from a state of a run is a longer run. */
  lemma {:induction false} ExecExtends(
    states: seq<Sys>, steps: seq<(nat, Action)>, acts: seq<Action>) returns (states': seq<Sys>, steps': seq<(nat, Action)>)
    requires IsRun(states, steps) && Exec(states[|steps|], 0, acts).To?
    ensures IsRun(states', steps') && |steps'| == |steps| + |acts| && states <= states' && steps <= steps'
    ensures states'[|steps'|] == Exec(states[|steps|], 0, acts).s
    ensures forall j | 0 <= j < |acts| :: steps'[|steps| + j] == (0, acts[j])
    decreases |acts|
  {
    hide Step, Boot;
    if acts == [] {
      states', steps' := states, steps;
    } else {
      var s := Step(states[|steps|], 0, acts[0]).s;
      states', steps' := ExecExtends(states + [s], steps + [(0, acts[0])], acts[1..]);
    }
  }

  // ---------- a system of the idle task and one other ----------

  function Two(cpu: Cpu, idle: Task, t: Task, queue: seq<TaskId>, holder: Option<nat>, acquired: nat, released: nat): Sys {
    Sys([cpu], map[0 := idle, 1 := t], queue, 2, holder, acquired, released)
  }

  function IdleTask(guards: nat): Task {
    Task(ReadyToRun, Alive, false, guards, true, None, IdleOf(0))
  }

  lemma OwnTwo(cpu: Cpu, idle: Task, t: Task, q: seq<TaskId>, h: Option<nat>, a: nat, r: nat, cpu': Cpu, me: Task)
    ensures cpu.stack == 0 ==> Own(Two(cpu, idle, t, q, h, a, r), 0, cpu', me) == Two(cpu', me, t, q, h, a, r)
    ensures cpu.stack == 1 ==> Own(Two(cpu, idle, t, q, h, a, r), 0, cpu', me) == Two(cpu', idle, me, q, h, a, r)
  {
    assert map[0 := idle, 1 := t][0 := me] == map[0 := me, 1 := t];
    assert map[0 := idle, 1 := t][1 := me] == map[0 := idle, 1 := me];
  }

  lemma WithTwo(cpu: Cpu, idle: Task, t: Task, q: seq<TaskId>, h: Option<nat>, a: nat, r: nat, t': Task)
    ensures WithTask(Two(cpu, idle, t, q, h, a, r), 1, t') == Two(cpu, idle, t', q, h, a, r)
  {
    assert map[0 := idle, 1 := t][1 := t'] == map[0 := idle, 1 := t'];
  }

  lemma Exec2(s0: Sys, s1: Sys, a: Action, b: Action)
    requires |s0.cpus| == |s1.cpus| == 1 && Step(s0, 0, a) == To(s1)
    ensures Exec(s0, 0, [a, b]) == Step(s1, 0, b)
  {
    hide Step;
    assert [a, b][1..] == [b] && [b][1..] == [];
    var o := Step(s1, 0, b);
    if o.To? { assert Exec(o.s, 0, []) == o; }
    assert Exec(s1, 0, [b]) == o;
  }

  lemma Exec3(s0: Sys, s1: Sys, s2: Sys, a: Action, b: Action, c: Action)
    requires |s0.cpus| == |s1.cpus| == |s2.cpus| == 1 && Step(s0, 0, a) == To(s1) && Step(s1, 0, b) == To(s2)
    ensures Exec(s0, 0, [a, b, c]) == Step(s2, 0, c)
  {
    hide Step;
    assert [a, b, c][1..] == [b, c];
    Exec2(s1, s2, b, c);
  }

  lemma Exec4(s0: Sys, s1: Sys, s2: Sys, s3: Sys, a: Action, b: Action, c: Action, d: Action)
    requires |s0.cpus| == |s1.cpus| == |s2.cpus| == |s3.cpus| == 1
    requires Step(s0, 0, a) == To(s1) && Step(s1, 0, b) == To(s2) && Step(s2, 0, c) == To(s3)
    ensures Exec(s0, 0, [a, b, c, d]) == Step(s3, 0, d)
  {
    hide Step;
    assert [a, b, c, d][1..] == [b, c, d];
    Exec3(s1, s2, s3, b, c, d);
  }

  /** The idle task enters the scheduler and takes the lock. */
  lemma IdleLocks(t: Task, q: seq<TaskId>, n: nat)
    ensures Exec(Two(Cpu(0, 0, 0, 0, true, Working), IdleTask(0), t, q, None, n, n), 0, [Raise(false), Disable, Acquire])
            == To(Two(Cpu(0, 0, 0, 1, false, Reaping(0)), IdleTask(1), t, q, Some(0), n + 1, n))
  {
    hide Own;
    var c0, c1 := Cpu(0, 0, 0, 0, true, Working), Cpu(0, 0, 0, 1, true, Raised(false));
    var c2, c3 := Cpu(0, 0, 0, 1, false, Wanting(false)), Cpu(0, 0, 0, 1, false, Reaping(0));
    OwnTwo(c0, IdleTask(0), t, q, None, n, n, c1, IdleTask(1));
    OwnTwo(c1, IdleTask(1), t, q, None, n, n, c2, IdleTask(1));
    OwnTwo(c2, IdleTask(1), t, q, None, n, n, c3, IdleTask(1));
    var acts := [Raise(false), Disable, Acquire];
    assert acts[1..] == [Disable, Acquire] && acts[1..][1..] == [Acquire] && acts[1..][1..][1..] == [];
  }

  function IdleCpu(count: int, interrupts: bool, phase: Phase): Cpu { Cpu(0, 0, 0, count, interrupts, phase) }

  function OneCpu(count: int, interrupts: bool, phase: Phase): Cpu { Cpu(0, 1, 1, count, interrupts, phase) }

  lemma UnlockTwo(cpu: Cpu, idle: Task, t: Task, q: seq<TaskId>, a: nat, r: nat)
    requires cpu.phase.Landed? && (cpu.stack == 0 || cpu.stack == 1)
    ensures Step(Two(cpu, idle, t, q, Some(0), a, r), 0, Unlock)
            == To(Two(cpu.(phase := Unlocked), idle, t, q, None, a, r + 1))
  {
    hide Own;
    OwnTwo(cpu, idle, t, q, Some(0), a, r, cpu.(phase := Unlocked), if cpu.stack == 0 then idle else t);
  }

  lemma RestoreTwo(cpu: Cpu, idle: Task, t: Task, q: seq<TaskId>, a: nat, r: nat)
    requires cpu.phase.Unlocked? && (cpu.stack == 0 || cpu.stack == 1)
    ensures var me := if cpu.stack == 0 then idle else t;
            Step(Two(cpu, idle, t, q, None, a, r), 0, Restore)
            == To(Two(cpu.(interrupts := me.unstarted || me.savedInterrupts, phase := Settling), idle, t, q, None, a, r))
  {
    hide Own;
    var me := if cpu.stack == 0 then idle else t;
    OwnTwo(cpu, idle, t, q, None, a, r, cpu.(interrupts := me.unstarted || me.savedInterrupts, phase := Settling), me);
  }

  /** The idle task leaves the scheduler. */
  lemma IdleLeaves(t: Task, q: seq<TaskId>, a: nat, r: nat)
    ensures Exec(Two(IdleCpu(1, false, Landed), IdleTask(1), t, q, Some(0), a, r), 0, [Unlock, Restore, Settle])
            == To(Two(IdleCpu(0, true, Working), IdleTask(0), t, q, None, a, r + 1))
  {
    UnlockTwo(IdleCpu(1, false, Landed), IdleTask(1), t, q, a, r);
    RestoreTwo(IdleCpu(1, false, Unlocked), IdleTask(1), t, q, a, r + 1);
    var s2 := Two(IdleCpu(1, true, Settling), IdleTask(1), t, q, None, a, r + 1);
    assert Step(s2, 0, Settle) == To(Two(IdleCpu(0, true, Working), IdleTask(0), t, q, None, a, r + 1)) by {
      OwnTwo(IdleCpu(1, true, Settling), IdleTask(1), t, q, None, a, r + 1, IdleCpu(0, true, Working), IdleTask(0));
    }
    hide Step;
    Exec3(Two(IdleCpu(1, false, Landed), IdleTask(1), t, q, Some(0), a, r),
          Two(IdleCpu(1, false, Unlocked), IdleTask(1), t, q, None, a, r + 1), s2, Unlock, Restore, Settle);
  }

  /** It finds task 1 in the queue, not killed, and begins a pass. */
  lemma IdleBeginsPass(t: Task, a: nat, r: nat)
    requires t.state != Killed
    ensures Exec(Two(IdleCpu(1, false, Reaping(0)), IdleTask(1), t, [1], Some(0), a, r), 0, [Action.Reap, Action.Reap])
            == To(Two(IdleCpu(1, false, Picking(true, 1)), IdleTask(1), t, [1], Some(0), a, r))
  {
    assert [Action.Reap, Action.Reap][1..] == [Action.Reap] && [Action.Reap][1..] == [];
    var s1 := Two(IdleCpu(1, false, Reaping(1)), IdleTask(1), t, [1], Some(0), a, r);
    assert Step(Two(IdleCpu(1, false, Reaping(0)), IdleTask(1), t, [1], Some(0), a, r), 0, Action.Reap) == To(s1);
  }

  /** The pass takes task 1, and the processor switches to it. */
  lemma IdleSwitches(t: Task, a: nat, r: nat)
    requires t.state == ReadyToRun
    ensures Exec(Two(IdleCpu(1, false, Picking(true, 1)), IdleTask(1), t, [1], Some(0), a, r), 0, [Pick, Dispatch, Switch])
            == To(Two(OneCpu(1, false, Landed), IdleTask(1), t.(place := Running(0)), [], Some(0), a, r))
  {
    var c1 := IdleCpu(1, false, Dispatching(1));
    var s0 := Two(IdleCpu(1, false, Picking(true, 1)), IdleTask(1), t, [1], Some(0), a, r);
    var s1 := Two(c1, IdleTask(1), t.(place := Popped(0)), [], Some(0), a, r);
    var s2 := Two(Cpu(0, 1, 0, 1, false, Swapped(0)), IdleTask(1), t.(place := Running(0)), [], Some(0), a, r);
    PickOne(t, a, r);
    DispatchOne(t, a, r);
    Exec3(s0, s1, s2, Pick, Dispatch, Switch);
  }

  lemma PickOne(t: Task, a: nat, r: nat)
    requires t.state == ReadyToRun
    ensures Step(Two(IdleCpu(1, false, Picking(true, 1)), IdleTask(1), t, [1], Some(0), a, r), 0, Pick)
            == To(Two(IdleCpu(1, false, Dispatching(1)), IdleTask(1), t.(place := Popped(0)), [], Some(0), a, r))
  {
    hide WithTask;
    var c1 := IdleCpu(1, false, Dispatching(1));
    WithTwo(c1, IdleTask(1), t, [1], Some(0), a, r, t.(place := Popped(0)));
    assert [1][1..] == [];
    assert WithCpu(Two(IdleCpu(1, false, Picking(true, 1)), IdleTask(1), t, [1], Some(0), a, r), 0, c1)
           == Two(c1, IdleTask(1), t, [1], Some(0), a, r);
  }

  lemma DispatchOne(t: Task, a: nat, r: nat)
    ensures Step(Two(IdleCpu(1, false, Dispatching(1)), IdleTask(1), t.(place := Popped(0)), [], Some(0), a, r), 0, Dispatch)
            == To(Two(Cpu(0, 1, 0, 1, false, Swapped(0)), IdleTask(1), t.(place := Running(0)), [], Some(0), a, r))
  {
    hide WithTask;
    WithTwo(IdleCpu(1, false, Dispatching(1)), IdleTask(1), t.(place := Popped(0)), [], Some(0), a, r, t.(place := Running(0)));
  }

  /** Task 1 releases the lock and restores interrupts. */
  lemma OneReturns(t: Task, a: nat, r: nat)
    requires t.unstarted || t.savedInterrupts
    ensures Exec(Two(OneCpu(1, false, Landed), IdleTask(1), t, [], Some(0), a, r), 0, [Unlock, Restore])
            == To(Two(OneCpu(1, true, Settling), IdleTask(1), t, [], None, a, r + 1))
  {
    UnlockTwo(OneCpu(1, false, Landed), IdleTask(1), t, [], a, r);
    RestoreTwo(OneCpu(1, false, Unlocked), IdleTask(1), t, [], a, r + 1);
    hide Step;
    Exec2(Two(OneCpu(1, false, Landed), IdleTask(1), t, [], Some(0), a, r),
          Two(OneCpu(1, false, Unlocked), IdleTask(1), t, [], None, a, r + 1), Unlock, Restore);
  }

  /** Started for the first time, task 1 begins to work. */
  lemma OneStarts(t: Task, a: nat)
    requires t.unstarted
    ensures Exec(Two(OneCpu(1, true, Settling), IdleTask(1), t, [], None, a, a), 0, [Settle])
            == To(Two(OneCpu(0, true, Working), IdleTask(1), t.(unstarted := false, guards := 0), [], None, a, a))
  {
    hide Own;
    OwnTwo(OneCpu(1, true, Settling), IdleTask(1), t, [], None, a, a, OneCpu(0, true, Working), t.(unstarted := false, guards := 0));
    assert [Settle][1..] == [];
  }

  function Body(state: Desired, life: Life, guards: nat, place: Place): Task {
    Task(state, life, false, guards, true, None, place)
  }

  /** Task 1 ends, and its last call of the scheduler takes the lock. */
  lemma OneExits(a: nat)
    ensures Exec(Two(OneCpu(0, true, Working), IdleTask(1), Body(ReadyToRun, Alive, 0, Running(0)), [], None, a, a), 0,
                 [Kill, Exit(false), Disable, Acquire])
            == To(Two(OneCpu(1, false, Reaping(0)), IdleTask(1), Body(Killed, Exiting, 1, Running(0)), [], Some(0), a + 1, a))
  {
    hide Own;
    var c0, c2, c3 := OneCpu(0, true, Working), OneCpu(1, true, Raised(false)), OneCpu(1, false, Wanting(false));
    var t0, t1 := Body(ReadyToRun, Alive, 0, Running(0)), Body(Killed, Dying, 0, Running(0));
    var t2 := Body(Killed, Exiting, 1, Running(0));
    OwnTwo(c0, IdleTask(1), t0, [], None, a, a, c0, t1);
    OwnTwo(c0, IdleTask(1), t1, [], None, a, a, c2, t2);
    OwnTwo(c2, IdleTask(1), t2, [], None, a, a, c3, t2);
    OwnTwo(c3, IdleTask(1), t2, [], None, a, a, OneCpu(1, false, Reaping(0)), t2);
    var acts := [Kill, Exit(false), Disable, Acquire];
    assert acts[1..] == [Exit(false), Disable, Acquire] && acts[1..][1..] == [Disable, Acquire];
    assert [Disable, Acquire][1..] == [Acquire] && [Acquire][1..] == [];
  }

  /** There is nothing else to run, so the processor goes back to the idle task and task 1 into the queue. */
  lemma OneSwitchesAway(a: nat, r: nat)
    ensures Exec(Two(OneCpu(1, false, Reaping(0)), IdleTask(1), Body(Killed, Exiting, 1, Running(0)), [], Some(0), a, r), 0,
                 [Action.Reap, Pick, Dispatch, Switch])
            == To(Two(IdleCpu(1, false, Landed), IdleTask(1), Body(Killed, Exiting, 1, Queued), [1], Some(0), a, r))
  {
    var t, t' := Body(Killed, Exiting, 1, Running(0)), Body(Killed, Exiting, 1, Queued);
    var s0 := Two(OneCpu(1, false, Reaping(0)), IdleTask(1), t, [], Some(0), a, r);
    var s1 := Two(OneCpu(1, false, Picking(false, 0)), IdleTask(1), t, [], Some(0), a, r);
    var s2 := Two(OneCpu(1, false, Dispatching(0)), IdleTask(1), t, [], Some(0), a, r);
    var s3 := Two(Cpu(0, 0, 1, 1, false, Swapped(1)), IdleTask(1), t', [1], Some(0), a, r);
    FindsNone(a, r);
    DispatchIdle(a, r);
    assert Step(s3, 0, Switch) == To(Two(IdleCpu(1, false, Landed), IdleTask(1), t', [1], Some(0), a, r));
    hide Step, Two;
    Exec4(s0, s1, s2, s3, Action.Reap, Pick, Dispatch, Switch);
  }

  lemma FindsNone(a: nat, r: nat)
    ensures var t := Body(Killed, Exiting, 1, Running(0));
            var s1 := Two(OneCpu(1, false, Picking(false, 0)), IdleTask(1), t, [], Some(0), a, r);
            && Step(Two(OneCpu(1, false, Reaping(0)), IdleTask(1), t, [], Some(0), a, r), 0, Action.Reap) == To(s1)
            && Step(s1, 0, Pick) == To(Two(OneCpu(1, false, Dispatching(0)), IdleTask(1), t, [], Some(0), a, r))
  {
  }

  lemma DispatchIdle(a: nat, r: nat)
    ensures Step(Two(OneCpu(1, false, Dispatching(0)), IdleTask(1), Body(Killed, Exiting, 1, Running(0)), [], Some(0), a, r),
                 0, Dispatch)
            == To(Two(Cpu(0, 0, 1, 1, false, Swapped(1)), IdleTask(1), Body(Killed, Exiting, 1, Queued), [1], Some(0), a, r))
  {
    hide WithTask;
    assert [] + [1] == [1];
    WithTwo(OneCpu(1, false, Dispatching(0)), IdleTask(1), Body(Killed, Exiting, 1, Running(0)), [], Some(0), a, r,
            Body(Killed, Exiting, 1, Queued));
  }

  // ---------- making task 1 ----------

  function Start(): Sys {
    Sys([IdleCpu(0, true, Working)], map[0 := IdleTask(0)], [], 1, None, 0, 0)
  }

  function Maker(guards: nat): Task {
    Task(ReadyToRun, Alive, false, guards, true, Some(1), IdleOf(0))
  }

  function New(place: Place): Task {
    Task(ReadyToRun, Alive, true, 1, true, None, place)
  }

  lemma IdleCreates()
    ensures Exec(Start(), 0, [Create(true)]) == To(Two(IdleCpu(0, true, Working), Maker(0), New(Made(0)), [], None, 0, 0))
  {
    assert [Create(true)][1..] == [];
    assert map[0 := IdleTask(0)][0 := Maker(0)][1 := New(Made(0))] == map[0 := Maker(0), 1 := New(Made(0))];
  }

  lemma IdleWantsToQueue()
    ensures Exec(Two(IdleCpu(0, true, Working), Maker(0), New(Made(0)), [], None, 0, 0), 0, [Raise(true), Disable, Acquire])
            == To(Two(IdleCpu(1, false, Enqueuing), Maker(1), New(Made(0)), [], Some(0), 1, 0))
  {
    hide Own;
    var t := New(Made(0));
    var c0, c1, c2 := IdleCpu(0, true, Working), IdleCpu(1, true, Raised(true)), IdleCpu(1, false, Wanting(true));
    OwnTwo(c0, Maker(0), t, [], None, 0, 0, c1, Maker(1));
    OwnTwo(c1, Maker(1), t, [], None, 0, 0, c2, Maker(1));
    OwnTwo(c2, Maker(1), t, [], None, 0, 0, IdleCpu(1, false, Enqueuing), Maker(1));
    var acts := [Raise(true), Disable, Acquire];
    assert acts[1..] == [Disable, Acquire] && acts[1..][1..] == [Acquire] && acts[1..][1..][1..] == [];
  }

  lemma IdleQueues()
    ensures Exec(Two(IdleCpu(1, false, Enqueuing), Maker(1), New(Made(0)), [], Some(0), 1, 0), 0, [Enqueue])
            == To(Two(IdleCpu(1, false, Landed), IdleTask(1), New(Queued), [1], Some(0), 1, 0))
  {
    hide Own, WithTask;
    var c := IdleCpu(1, false, Enqueuing);
    WithTwo(c, Maker(1), New(Made(0)), [], Some(0), 1, 0, New(Queued));
    OwnTwo(c, Maker(1), New(Queued), [], Some(0), 1, 0, IdleCpu(1, false, Landed), IdleTask(1));
    assert [] + [1] == [1] && [Enqueue][1..] == [];
  }

  // ---------- the runs ----------

  function ToQueue(): seq<Action> {
    [Create(true)] + [Raise(true), Disable, Acquire] + [Enqueue] + [Unlock, Restore, Settle]
  }

  function ToOne(): seq<Action> {
    [Raise(false), Disable, Acquire] + [Action.Reap, Action.Reap] + [Pick, Dispatch, Switch] + [Unlock, Restore]
  }

  function ToDeath(): seq<Action> {
    [Settle] + [Kill, Exit(false), Disable, Acquire] + [Action.Reap, Pick, Dispatch, Switch] + [Unlock, Restore, Settle]
  }

  lemma QueuesOne()
    ensures Exec(Start(), 0, ToQueue()) == To(Two(IdleCpu(0, true, Working), IdleTask(0), New(Queued), [1], None, 1, 1))
  {
    hide Exec, Two;
    IdleCreates();
    IdleWantsToQueue();
    IdleQueues();
    IdleLeaves(New(Queued), [1], 1, 0);
    ExecJoins(Start(), [Create(true)], [Raise(true), Disable, Acquire]);
    ExecJoins(Start(), [Create(true)] + [Raise(true), Disable, Acquire], [Enqueue]);
    ExecJoins(Start(), [Create(true)] + [Raise(true), Disable, Acquire] + [Enqueue], [Unlock, Restore, Settle]);
  }

  lemma RunsOne(t: Task, n: nat)
    requires t.state == ReadyToRun && (t.unstarted || t.savedInterrupts)
    ensures Exec(Two(IdleCpu(0, true, Working), IdleTask(0), t, [1], None, n, n), 0, ToOne())
            == To(Two(OneCpu(1, true, Settling), IdleTask(1), t.(place := Running(0)), [], None, n + 1, n + 1))
  {
    hide Exec, Two;
    var s := Two(IdleCpu(0, true, Working), IdleTask(0), t, [1], None, n, n);
    IdleLocks(t, [1], n);
    IdleBeginsPass(t, n + 1, n);
    IdleSwitches(t, n + 1, n);
    OneReturns(t.(place := Running(0)), n + 1, n);
    ExecJoins(s, [Raise(false), Disable, Acquire], [Action.Reap, Action.Reap]);
    ExecJoins(s, [Raise(false), Disable, Acquire] + [Action.Reap, Action.Reap], [Pick, Dispatch, Switch]);
    ExecJoins(s, [Raise(false), Disable, Acquire] + [Action.Reap, Action.Reap] + [Pick, Dispatch, Switch], [Unlock, Restore]);
  }

  lemma KillsOne()
    ensures Exec(Two(OneCpu(1, true, Settling), IdleTask(1), New(Running(0)), [], None, 2, 2), 0, ToDeath())
            == To(Two(IdleCpu(0, true, Working), IdleTask(0), Body(Killed, Exiting, 1, Queued), [1], None, 3, 3))
  {
    hide Exec, Two;
    var s := Two(OneCpu(1, true, Settling), IdleTask(1), New(Running(0)), [], None, 2, 2);
    OneStarts(New(Running(0)), 2);
    OneExits(2);
    OneSwitchesAway(3, 2);
    IdleLeaves(Body(Killed, Exiting, 1, Queued), [1], 3, 2);
    ExecJoins(s, [Settle], [Kill, Exit(false), Disable, Acquire]);
    ExecJoins(s, [Settle] + [Kill, Exit(false), Disable, Acquire], [Action.Reap, Pick, Dispatch, Switch]);
    ExecJoins(s, [Settle] + [Kill, Exit(false), Disable, Acquire] + [Action.Reap, Pick, Dispatch, Switch], [Unlock, Restore, Settle]);
  }

  /** Task 1 has ended and waits in the queue to be deleted. */
  function Ended(): Sys {
    Two(IdleCpu(0, true, Working), IdleTask(0), Body(Killed, Exiting, 1, Queued), [1], None, 3, 3)
  }

  lemma EndsOne()
    ensures Exec(Start(), 0, ToQueue() + ToOne() + ToDeath()) == To(Ended())
  {
    hide Exec, Two, ToQueue, ToOne, ToDeath;
    QueuesOne();
    RunsOne(New(Queued), 1);
    KillsOne();
    ExecJoins(Start(), ToQueue(), ToOne());
    ExecJoins(Start(), ToQueue() + ToOne(), ToDeath());
  }

  lemma AwakensDead()
    ensures Exec(Ended(), 0, [Awaken(1)])
            == To(Two(IdleCpu(0, true, Working), IdleTask(0), Body(ReadyToRun, Exiting, 1, Queued), [1], None, 3, 3))
  {
    WithTwo(IdleCpu(0, true, Working), IdleTask(0), Body(Killed, Exiting, 1, Queued), [1], None, 3, 3,
            Body(ReadyToRun, Exiting, 1, Queued));
    assert [Awaken(1)][1..] == [];
  }

  lemma ReturnPanics(t: Task, n: nat)
    requires t.life.Exiting? && !t.unstarted && t.guards > 0
    ensures Step(Two(OneCpu(1, true, Settling), IdleTask(1), t, [], None, n, n), 0, Settle) == Panicked
  {
  }

  /** A run in which a killed task, switched away from and waiting to be deleted, is awakened, becomes current again and
      panics at the end of `kill_current_task`. */
  lemma KilledComesBack()
    ensures exists states: seq<Sys>, steps: seq<(nat, Action)>, from: nat ::
              && IsRun(states, steps) && from <= |steps|
              && 1 in states[from].tasks && DeadAndQueued(states[from], 1)
              && IsCurrent(states[|steps|], 1)
              && |states[|steps|].cpus| == 1 && Step(states[|steps|], 0, Settle).Panicked?
  {
    var dead, last := Ended(), Two(OneCpu(1, true, Settling), IdleTask(1), Body(ReadyToRun, Exiting, 1, Running(0)), [], None, 4, 4);
    assert 1 in dead.tasks && DeadAndQueued(dead, 1);
    assert |last.cpus| == 1 && last.cpus[0].current == 1;
    ReturnPanics(Body(ReadyToRun, Exiting, 1, Running(0)), 4);
    BootedStart();
    hide Exec, Two, Step, Boot;
    EndsOne();
    AwakensDead();
    RunsOne(Body(ReadyToRun, Exiting, 1, Queued), 3);
    ExecJoins(dead, [Awaken(1)], ToOne());
    var s1, t1 := ExecExtends([Start()], [], ToQueue() + ToOne() + ToDeath());
    var s2, t2 := ExecExtends(s1, t1, [Awaken(1)] + ToOne());
    assert s2[|t1|] == dead;
  }

  lemma BootedStart()
    ensures IsRun([Start()], [])
  {
  }

  // ---------- awakening what is gone ----------

  function Alone(count: nat, interrupts: bool, phase: Phase, holder: Option<nat>, acquired: nat, released: nat): Sys {
    Sys([IdleCpu(count, interrupts, phase)], map[0 := IdleTask(count)], [], 2, holder, acquired, released)
  }

  lemma OwnAlone(s: Sys, cpu: Cpu, me: Task)
    requires |s.cpus| == 1 && s.cpus[0].stack == 0 && s.tasks.Keys == {0}
    ensures Own(s, 0, cpu, me) == s.(cpus := [cpu], tasks := map[0 := me])
  {
  }

  lemma DeletesOne()
    ensures Exec(Two(IdleCpu(1, false, Reaping(0)), IdleTask(1), Body(Killed, Exiting, 1, Queued), [1], Some(0), 4, 3), 0,
                 [Action.Reap, Action.Reap, Pick])
            == To(Alone(1, false, Landed, Some(0), 4, 3))
  {
    hide Step;
    DeleteStep();
    AloneFindsNone();
    Exec3(Two(IdleCpu(1, false, Reaping(0)), IdleTask(1), Body(Killed, Exiting, 1, Queued), [1], Some(0), 4, 3),
          Alone(1, false, Reaping(0), Some(0), 4, 3), Alone(1, false, Picking(true, 0), Some(0), 4, 3),
          Action.Reap, Action.Reap, Pick);
  }

  lemma DeleteStep()
    ensures Step(Two(IdleCpu(1, false, Reaping(0)), IdleTask(1), Body(Killed, Exiting, 1, Queued), [1], Some(0), 4, 3), 0,
                 Action.Reap)
            == To(Alone(1, false, Reaping(0), Some(0), 4, 3))
  {
    var s := Two(IdleCpu(1, false, Reaping(0)), IdleTask(1), Body(Killed, Exiting, 1, Queued), [1], Some(0), 4, 3);
    assert [1][..0] + [1][1..] == [] && s.tasks - {1} == map[0 := IdleTask(1)];
  }

  lemma AloneFindsNone()
    ensures var s := Alone(1, false, Picking(true, 0), Some(0), 4, 3);
            && Step(Alone(1, false, Reaping(0), Some(0), 4, 3), 0, Action.Reap) == To(s)
            && Step(s, 0, Pick) == To(Alone(1, false, Landed, Some(0), 4, 3))
  {
  }

  lemma AloneLeaves()
    ensures Exec(Alone(1, false, Landed, Some(0), 4, 3), 0, [Unlock, Restore, Settle]) == To(Alone(0, true, Working, None, 4, 4))
  {
    hide Step;
    AloneUnlocks();
    AloneRestores();
    AloneSettles();
    Exec3(Alone(1, false, Landed, Some(0), 4, 3), Alone(1, false, Unlocked, None, 4, 4), Alone(1, true, Settling, None, 4, 4),
          Unlock, Restore, Settle);
  }

  lemma AloneUnlocks()
    ensures Step(Alone(1, false, Landed, Some(0), 4, 3), 0, Unlock) == To(Alone(1, false, Unlocked, None, 4, 4))
  {
    hide Own;
    OwnAlone(Alone(1, false, Landed, Some(0), 4, 3), IdleCpu(1, false, Unlocked), IdleTask(1));
  }

  lemma AloneRestores()
    ensures Step(Alone(1, false, Unlocked, None, 4, 4), 0, Restore) == To(Alone(1, true, Settling, None, 4, 4))
  {
    hide Own;
    OwnAlone(Alone(1, false, Unlocked, None, 4, 4), IdleCpu(1, true, Settling), IdleTask(1));
  }

  lemma AloneSettles()
    ensures Step(Alone(1, true, Settling, None, 4, 4), 0, Settle) == To(Alone(0, true, Working, None, 4, 4))
  {
    hide Own;
    OwnAlone(Alone(1, true, Settling, None, 4, 4), IdleCpu(0, true, Working), IdleTask(0));
  }

  /** A run after which awakening a task that has ended panics. */
  lemma AwakeningCanPanic()
    ensures exists states: seq<Sys>, steps: seq<(nat, Action)> ::
              && IsRun(states, steps) && |states[|steps|].cpus| == 1
              && 1 < states[|steps|].nextId && Step(states[|steps|], 0, Awaken(1)).Panicked?
  {
    var last := Alone(0, true, Working, None, 4, 4);
    assert Step(last, 0, Awaken(1)).Panicked? && last.nextId == 2;
    BootedStart();
    hide Exec, Two, Step, Boot;
    EndsOne();
    IdleLocks(Body(Killed, Exiting, 1, Queued), [1], 3);
    DeletesOne();
    AloneLeaves();
    var first, second := [Raise(false), Disable, Acquire], [Action.Reap, Action.Reap, Pick];
    ExecJoins(Ended(), first, second);
    ExecJoins(Ended(), first + second, [Unlock, Restore, Settle]);
    var s1, t1 := ExecExtends([Start()], [], ToQueue() + ToOne() + ToDeath());
    var s2, t2 := ExecExtends(s1, t1, first + second + [Unlock, Restore, Settle]);
  }
}
