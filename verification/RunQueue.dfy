/**
 The run queue: reaping killed tasks and popping the next ready one, in place and as functions of the queue,
 and how long a ready task can be passed over.
 */
module RunQueueModel {
  import opened Common

  type TaskId = nat

  datatype Desired = ReadyToRun | Sleeping | Killed

  type States = map<TaskId, Desired>

  predicate InState(st: States, id: TaskId, d: Desired) {
    id in st && st[id] == d
  }

  // ---------- as functions ----------

  /** The queue without its killed tasks, in the same order. */
  function Reaped(q: seq<TaskId>, st: States): (r: seq<TaskId>)
    ensures forall id :: id in r <==> id in q && !InState(st, id, Killed)
  {
    if q == [] then []
    else if InState(st, q[0], Killed) then Reaped(q[1..], st)
    else [q[0]] + Reaped(q[1..], st)
  }

  /** Position of the first ready task, or the length of the queue. */
  function FirstReady(q: seq<TaskId>, st: States): (k: nat)
    ensures k <= |q|
    ensures k < |q| ==> InState(st, q[k], ReadyToRun)
    ensures forall j :: 0 <= j < k ==> !InState(st, q[j], ReadyToRun)
  {
    if q == [] || InState(st, q[0], ReadyToRun) then 0 else 1 + FirstReady(q[1..], st)
  }

  /** The first ready task, if any, and the queue without it; the tasks that were passed over go to the back. */
  function PopReady(q: seq<TaskId>, st: States): (r: (Option<TaskId>, seq<TaskId>)) {
    var k := FirstReady(q, st);
    if k == |q| then (None, q) else (Some(q[k]), q[k + 1..] + q[..k])
  }

  lemma {:induction false} ReapedNoRepeats(q: seq<TaskId>, st: States)
    requires NoRepeats(q)
    ensures NoRepeats(Reaped(q, st))
    decreases |q|
  {
    if q != [] {
      ReapedNoRepeats(q[1..], st);
      assert q[0] !in q[1..];
    }
  }

  lemma PopReadyNoRepeats(q: seq<TaskId>, st: States)
    requires NoRepeats(q)
    ensures var (next, rest) := PopReady(q, st);
            && NoRepeats(rest)
            && forall id :: id in rest <==> id in q && next != Some(id)
  {
    var k := FirstReady(q, st);
    if k < |q| {
      assert q == q[..k] + [q[k]] + q[k + 1..];
    }
  }

  /** The tasks left when the killed ones of `q` are deleted. */
  function Survivors(st: States, q: seq<TaskId>): (r: States) {
    map id | id in st && !(id in q && st[id] == Killed) :: st[id]
  }

  lemma SurvivorsStep(st: States, q: seq<TaskId>, i: nat)
    requires i < |q| && q[i] in st
    ensures Survivors(st, q[..i + 1]) == if st[q[i]] == Killed then Survivors(st, q[..i]) - {q[i]} else Survivors(st, q[..i])
    ensures q[i] !in q[..i] ==> q[i] in Survivors(st, q[..i]) && Survivors(st, q[..i])[q[i]] == st[q[i]]
  {
    assert q[..i + 1] == q[..i] + [q[i]];
  }

  lemma ReapedStep(done: seq<TaskId>, q: seq<TaskId>, st: States, i: nat)
    requires i < |q|
    ensures done + Reaped(q[i..], st)
            == (if InState(st, q[i], Killed) then done else done + [q[i]]) + Reaped(q[i + 1..], st)
  {
    assert q[i..][1..] == q[i + 1..];
    assert done + ([q[i]] + Reaped(q[i + 1..], st)) == done + [q[i]] + Reaped(q[i + 1..], st);
  }

  lemma ReapedOfNone(done: seq<TaskId>, st: States)
    ensures done + Reaped([], st) == done
  {
  }

  lemma SurvivorsOfNone(st: States)
    ensures Survivors(st, []) == st
  {
  }

  lemma NotBefore(q: seq<TaskId>, i: nat)
    requires NoRepeats(q) && i < |q|
    ensures q[i] !in q[..i]
  {
  }

  /** What stays pending survives. */
  lemma ReapedSurvive(q: seq<TaskId>, st: States)
    requires forall id :: id in q ==> id in st
    ensures forall id :: id in Reaped(q, st) ==> id in Survivors(st, q)
  {
  }

  /** The popping loop, from a point where `passed` has been looked at and `rest` has not. */
  function PopFrom(passed: seq<TaskId>, rest: seq<TaskId>, st: States): (r: (Option<TaskId>, seq<TaskId>))
    decreases |rest|
  {
    if rest == [] then (None, passed)
    else if InState(st, rest[0], ReadyToRun) then (Some(rest[0]), rest[1..] + passed)
    else PopFrom(passed + [rest[0]], rest[1..], st)
  }

  lemma {:induction false} PopFromIs(passed: seq<TaskId>, rest: seq<TaskId>, st: States)
    ensures var k := FirstReady(rest, st);
            PopFrom(passed, rest, st) ==
              if k == |rest| then (None, passed + rest) else (Some(rest[k]), rest[k + 1..] + (passed + rest[..k]))
    decreases |rest|
  {
    var k := FirstReady(rest, st);
    if rest == [] {
      assert passed + rest == passed;
    } else if k == 0 {
      assert passed + rest[..0] == passed;
    } else {
      PopFromIs(passed + [rest[0]], rest[1..], st);
      assert passed + [rest[0]] + rest[1..] == passed + rest;
      assert k < |rest| ==> passed + [rest[0]] + rest[1..][..k - 1] == passed + rest[..k];
    }
  }

  lemma PopFromStart(q: seq<TaskId>, st: States)
    ensures PopFrom([], q, st) == PopReady(q, st)
  {
    PopFromIs([], q, st);
    assert [] + q == q;
    var k := FirstReady(q, st);
    assert [] + q[..k] == q[..k];
  }

  // ---------- in place ----------

  class Tasks {
    var nextTaskId: TaskId
    var states: States

    constructor ()
      ensures nextTaskId == 1 && states == map[]
    {
      nextTaskId, states := 1, map[];
    }

    ghost predicate Valid()
      reads this
    {
      forall id :: id in states ==> id < nextTaskId
    }

    method NewTask() returns (id: TaskId)
      requires Valid()
      modifies this
      ensures Valid() && id == old(nextTaskId) && id !in old(states)
      ensures states == old(states)[id := ReadyToRun] && nextTaskId == id + 1
    {
      id := nextTaskId;
      nextTaskId := nextTaskId + 1;
      states := states[id := ReadyToRun];
    }

    method DeleteTask(id: TaskId)
      requires Valid() && id in states
      modifies this`states
      ensures Valid() && states == old(states) - {id}
    {
      states := states - {id};
    }
  }

  class RunQueue {
    var pendingTasks: seq<TaskId>

    constructor ()
      ensures pendingTasks == []
    {
      pendingTasks := [];
    }

    /** Every lookup of a pending task must find it, and no task is pending twice. */
    ghost predicate Valid(tasks: Tasks)
      reads this, tasks
    {
      && tasks.Valid()
      && (forall id :: id in pendingTasks ==> id in tasks.states)
      && NoRepeats(pendingTasks)
    }

    method RemoveKilledPendingTasks(tasks: Tasks)
      requires Valid(tasks)
      modifies this, tasks
      ensures Valid(tasks) && tasks.nextTaskId == old(tasks.nextTaskId)
      ensures pendingTasks == Reaped(old(pendingTasks), old(tasks.states))
      ensures tasks.states == Survivors(old(tasks.states), old(pendingTasks))
    {
      hide Survivors, NoRepeats, Reaped;
      var remaining: seq<TaskId> := [];
      ghost var q, st := pendingTasks, tasks.states;
      var i := 0;
      SurvivorsOfNone(st);
      assert q[..0] == [] && q[0..] == q && remaining + Reaped(q, st) == Reaped(q, st);
      while i < |pendingTasks|
        invariant i <= |q| && pendingTasks == q && tasks.Valid() && tasks.nextTaskId == old(tasks.nextTaskId)
        invariant remaining + Reaped(q[i..], st) == Reaped(q, st)
        invariant tasks.states == Survivors(st, q[..i])
      {
        var id := pendingTasks[i];
        NotBefore(q, i);
        SurvivorsStep(st, q, i);
        ReapedStep(remaining, q, st, i);
        if tasks.states[id] == Killed {
          tasks.DeleteTask(id);
        } else {
          remaining := remaining + [id];
        }
        i := i + 1;
      }
      assert q[..i] == q && q[i..] == [];
      ReapedOfNone(remaining, st);
      pendingTasks := remaining;
      ReapedNoRepeats(q, st);
      ReapedSurvive(q, st);
    }

    method PopNextReadyPendingTask(tasks: Tasks) returns (next: Option<TaskId>)
      requires Valid(tasks)
      modifies this
      ensures (next, pendingTasks) == PopReady(old(pendingTasks), tasks.states)
      ensures Valid(tasks)
    {
      ghost var q := pendingTasks;
      PopFromStart(q, tasks.states);
      PopReadyNoRepeats(q, tasks.states);
      hide FirstReady, PopReady, NoRepeats;
      var nonReady: seq<TaskId> := [];
      next := None;
      while pendingTasks != []
        invariant next.None?
        invariant PopFrom(nonReady, pendingTasks, tasks.states) == PopReady(q, tasks.states)
        invariant forall id :: id in pendingTasks ==> id in tasks.states
        decreases |pendingTasks|
      {
        var id := pendingTasks[0];
        pendingTasks := pendingTasks[1..];
        if tasks.states[id] == ReadyToRun {
          next := Some(id);
          break;
        }
        nonReady := nonReady + [id];
      }
      pendingTasks := pendingTasks + nonReady;
      assert next.None? ==> pendingTasks == nonReady;
    }
  }

  // ---------- bounded bypass ----------

  /** What can happen to the queue between two moments: a pass that pops a ready task, a reaping of killed ones,
      each seeing the states of its own time, and a task being put at the back. */
  datatype Event = Pass(seen: States) | Reap(seen: States) | Push(id: TaskId)

  function After(q: seq<TaskId>, e: Event): seq<TaskId> {
    match e
    case Pass(seen) => PopReady(q, seen).1
    case Reap(seen) => Reaped(q, seen)
    case Push(id) => q + [id]
  }

  /** Task `x` stays ready, and is not queued a second time. */
  predicate StaysReady(x: TaskId, e: Event) {
    match e
    case Pass(seen) => InState(seen, x, ReadyToRun)
    case Reap(seen) => InState(seen, x, ReadyToRun)
    case Push(id) => id != x
  }

  /** The number of passes up to and including the one that returns `x`, if one does. */
  function PassesUntil(q: seq<TaskId>, x: TaskId, events: seq<Event>): (n: Option<nat>)
    decreases |events|
  {
    if events == [] then None
    else if events[0].Pass? && PopReady(q, events[0].seen).0 == Some(x) then Some(1)
    else
      match PassesUntil(After(q, events[0]), x, events[1..])
      case None => None
      case Some(n) => Some(if events[0].Pass? then n + 1 else n)
  }

  function Passes(events: seq<Event>): nat {
    if events == [] then 0 else (if events[0].Pass? then 1 else 0) + Passes(events[1..])
  }

  /** Position of `x` in the queue. */
  predicate At(q: seq<TaskId>, x: TaskId, k: nat) {
    k < |q| && q[k] == x
  }

  /** Reaping never moves a surviving task back. */
  lemma {:induction false} ReapedAt(q: seq<TaskId>, st: States, x: TaskId, k: nat) returns (k': nat)
    requires At(q, x, k) && !InState(st, x, Killed)
    ensures k' <= k && At(Reaped(q, st), x, k')
    decreases |q|
  {
    if k == 0 {
      k' := 0;
    } else {
      k' := ReapedAt(q[1..], st, x, k - 1);
      if !InState(st, q[0], Killed) {
        k' := k' + 1;
      }
    }
  }

  /** A pass that does not return a ready task brings it at least one place nearer the front. */
  lemma PassedOver(q: seq<TaskId>, st: States, x: TaskId, k: nat) returns (k': nat)
    requires At(q, x, k) && InState(st, x, ReadyToRun) && PopReady(q, st).0 != Some(x)
    ensures k' < k && At(PopReady(q, st).1, x, k')
  {
    var f := FirstReady(q, st);
    k' := k - f - 1;
  }

  /** A ready task at position `k` is returned within the next `k + 1` passes, whatever else happens in between. */
  lemma {:induction false} BoundedBypass(q: seq<TaskId>, x: TaskId, k: nat, events: seq<Event>)
    requires At(q, x, k) && Passes(events) > k
    requires forall i :: 0 <= i < |events| ==> StaysReady(x, events[i])
    ensures PassesUntil(q, x, events).Some? && PassesUntil(q, x, events).value <= k + 1
    decreases |events|
  {
    var e := events[0];
    assert StaysReady(x, e);
    match e
    case Pass(seen) =>
      if PopReady(q, seen).0 != Some(x) {
        var k' := PassedOver(q, seen, x, k);
        BoundedBypass(After(q, e), x, k', events[1..]);
      }
    case Reap(seen) =>
      var k' := ReapedAt(q, seen, x, k);
      BoundedBypass(After(q, e), x, k', events[1..]);
    case Push(_) =>
      BoundedBypass(After(q, e), x, k, events[1..]);
  }
}
