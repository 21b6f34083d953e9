/**
 `WaitCell`: any number of waiting tasks and one sender, interleaved step by step.

 A waiter marks itself asleep, adds itself to the list, checks the cell and, if it finds nothing, runs the scheduler,
 which returns only once somebody has made it ready again (`SchedulerSleep.SleeperWaits`).  The scheduler may also
 switch it away between any two of those steps; a task switched away while marked asleep comes back only when it is
 awakened.  A waiter that has returned may end and be deleted, and the sender panics when it wakes one that is gone.
 */
module WaitCells {
  import opened Common
  import opened OnceCells

  datatype Pc<T> = Start | Prepared | Listed | Reading | Got(value: T) | Parking | Returned(value: T) | Gone(value: T)

  /** `asleep`: its desired state is Sleeping.  `off`: switched away by the scheduler outside its own call to it. */
  datatype Waiter<T> = Waiter(pc: Pc<T>, asleep: bool, off: bool)

  datatype Sender = Idle | Wrote | Published | Draining(rest: seq<nat>) | Done

  /** `value` is what the sender sends; waiters are numbered by their position. */
  datatype Cell<T> = Cell(value: T, message: Option<T>, ready: bool, waiting: seq<nat>, waiters: seq<Waiter<T>>, sender: Sender)

  datatype Act =
    | Prepare | List | Check | Read | AwakenSelf | Resume | Exit
    | Preempt | Reschedule | WakeByOther

  datatype SenderAct = Write | Publish | Drain | WakeNext | Finish

  datatype Step = ByWaiter(w: nat, act: Act) | BySender(send: SenderAct)

  datatype Outcome<T> = To(s: Cell<T>) | NotNow | Panicked

  function With<T>(s: Cell<T>, w: nat, x: Waiter<T>): Cell<T>
    requires w < |s.waiters|
  {
    s.(waiters := s.waiters[w := x])
  }

  function SenderNext<T>(s: Cell<T>, send: SenderAct): (r: Outcome<T>) {
    match (send, s.sender)
    case (Write, Idle) => To(s.(message := Some(s.value), sender := Wrote))
    case (Publish, Wrote) => if s.ready then Panicked else To(s.(ready := true, sender := Published))
    case (Drain, Published) => To(s.(waiting := [], sender := Draining(s.waiting)))
    case (WakeNext, Draining(rest)) =>
      if rest == [] || rest[0] >= |s.waiters| then NotNow
      else if s.waiters[rest[0]].pc.Gone? then Panicked
      else To(With(s, rest[0], s.waiters[rest[0]].(asleep := false)).(sender := Draining(rest[1..])))
    case (Finish, Draining(rest)) => if rest == [] then To(s.(sender := Done)) else NotNow
    case _ => NotNow
  }

  /** The waiter's own code and what the scheduler and other tasks do to it. */
  function WaiterNext<T>(s: Cell<T>, w: nat, act: Act): (r: Outcome<T>)
    requires w < |s.waiters|
  {
    var x := s.waiters[w];
    if x.pc.Gone? then NotNow
    else if act.WakeByOther? then To(With(s, w, x.(asleep := false)))
    else if act.Preempt? then (if x.off then NotNow else To(With(s, w, x.(off := true))))
    else if act.Reschedule? then (if x.off && !x.asleep then To(With(s, w, x.(off := false))) else NotNow)
    else if x.off then NotNow
    else
      match (act, x.pc)
      case (Prepare, Start) => To(With(s, w, x.(pc := Prepared, asleep := true)))
      case (List, Prepared) =>
        if s.sender.Draining? then NotNow else To(With(s, w, x.(pc := Listed)).(waiting := s.waiting + [w]))
      case (Check, Listed) => To(With(s, w, x.(pc := if s.ready then Reading else Parking)))
      case (Read, Reading) => To(With(s, w, x.(pc := if s.message.Some? then Got(s.message.value) else Parking)))
      case (AwakenSelf, Got(v)) => To(With(s, w, x.(pc := Returned(v), asleep := false)))
      case (Exit, Returned(v)) => To(With(s, w, x.(pc := Gone(v))))
      case (Resume, Parking) => if x.asleep then NotNow else To(With(s, w, x.(pc := Start)))
      case _ => NotNow
  }

  /** What a step comes to: the state after it, not possible now, or a panic. */
  function Next<T>(s: Cell<T>, step: Step): (r: Outcome<T>) {
    match step
    case BySender(send) => SenderNext(s, send)
    case ByWaiter(w, act) => if w < |s.waiters| then WaiterNext(s, w, act) else NotNow
  }

  // ---------- what is lost and what is covered ----------

  /** The sender has yet to wake this waiter. */
  ghost predicate Covered<T>(s: Cell<T>, w: nat) {
    match s.sender
    case Draining(rest) => w in rest
    case Done => false
    case _ => w in s.waiting
  }

  /** Not running, and not to be run until somebody wakes it. */
  predicate Down<T>(x: Waiter<T>) {
    x.asleep && (x.off || x.pc.Parking?)
  }

  ghost predicate Lost<T>(s: Cell<T>, w: nat)
    requires w < |s.waiters|
  {
    Down(s.waiters[w]) && !Covered(s, w)
  }

  ghost predicate WaiterOk<T>(s: Cell<T>, w: nat)
    requires w < |s.waiters|
  {
    var x := s.waiters[w];
    && (x.pc.Reading? ==> s.ready)
    && (x.pc.Got? || x.pc.Returned? || x.pc.Gone? ==> x.pc.value == s.value && s.ready)
    && (x.pc.Listed? && !s.ready ==> Covered(s, w))
    && (x.pc.Parking? && x.asleep ==> Covered(s, w))
    && (x.asleep ==> !x.pc.Start? && !x.pc.Returned? && !x.pc.Gone?)
  }

  ghost predicate Inv<T>(s: Cell<T>) {
    && (forall w: nat :: w < |s.waiters| ==> WaiterOk(s, w))
    && (match s.sender
        case Idle => s.message.None? && !s.ready
        case Wrote => s.message == Some(s.value) && !s.ready
        case _ => s.message == Some(s.value) && s.ready)
    && (forall w :: w in s.waiting ==> w < |s.waiters|)
    && (s.sender.Draining? ==> forall w :: w in s.sender.rest ==> w < |s.waiters|)
  }

  ghost predicate Initial<T>(s: Cell<T>) {
    && s.message.None? && !s.ready && s.waiting == [] && s.sender.Idle?
    && forall w: nat :: w < |s.waiters| ==> s.waiters[w] == Waiter(Start, false, false)
  }

  lemma SenderKeeps<T>(s: Cell<T>, send: SenderAct)
    requires Inv(s) && SenderNext(s, send).To?
    ensures Inv(SenderNext(s, send).s)
  {
    var s' := SenderNext(s, send).s;
    if send.WakeNext? {
      var rest := s.sender.rest;
      assert rest == [rest[0]] + rest[1..];
      assert forall w :: w in s'.sender.rest ==> w in rest;
    }
    forall w: nat | w < |s'.waiters| ensures WaiterOk(s', w) {
      assert WaiterOk(s, w);
    }
  }

  lemma WaiterKeeps<T>(s: Cell<T>, w: nat, act: Act)
    requires Inv(s) && w < |s.waiters| && WaiterNext(s, w, act).To?
    ensures Inv(WaiterNext(s, w, act).s)
  {
    var s' := WaiterNext(s, w, act).s;
    forall x: nat | x < |s'.waiters| ensures WaiterOk(s', x) {
      assert WaiterOk(s, x);
    }
    forall x | x in s'.waiting ensures x < |s'.waiters| {
      assert x in s.waiting || x == w;
    }
  }

  lemma NextKeeps<T>(s: Cell<T>, step: Step)
    requires Inv(s) && Next(s, step).To?
    ensures Inv(Next(s, step).s) && |Next(s, step).s.waiters| == |s.waiters|
    ensures Next(s, step).s.value == s.value
  {
    match step
    case BySender(send) => SenderKeeps(s, send);
    case ByWaiter(w, act) => WaiterKeeps(s, w, act);
  }

  /** A waiter is lost by one thing only: being switched away while asleep and not about to be woken. */
  lemma LostByPreemptionOnly<T>(s: Cell<T>, step: Step, w: nat)
    requires Inv(s) && Next(s, step).To? && w < |s.waiters|
    ensures |Next(s, step).s.waiters| == |s.waiters|
    ensures Lost(Next(s, step).s, w) && !Lost(s, w) <==>
            step == ByWaiter(w, Preempt) && s.waiters[w].asleep && !s.waiters[w].pc.Parking? && !Covered(s, w)
  {
    NextKeeps(s, step);
    assert WaiterOk(s, w) && WaiterOk(Next(s, step).s, w);
  }

  /** Once lost, it stays so until somebody other than the sender wakes it. */
  lemma LostForGood<T>(s: Cell<T>, step: Step, w: nat)
    requires Inv(s) && Next(s, step).To? && w < |s.waiters| && Lost(s, w) && step != ByWaiter(w, WakeByOther)
    ensures |Next(s, step).s.waiters| == |s.waiters| && Lost(Next(s, step).s, w)
  {
    assert WaiterOk(s, w);
  }

  // ---------- runs ----------

  ghost predicate IsRun<T>(states: seq<Cell<T>>, steps: seq<Step>) {
    && |states| == |steps| + 1
    && Initial(states[0])
    && forall i :: 0 <= i < |steps| ==> Next(states[i], steps[i]) == To(states[i + 1])
  }

  /** The scheduler takes the waiter off its processor while it is marked asleep and the sender is not going to wake it:
      before it is on the list, or after the sender has emptied the list. */
  ghost predicate CutOff<T>(s: Cell<T>, step: Step) {
    match step
    case ByWaiter(w, Preempt) => w < |s.waiters| && s.waiters[w].asleep && !s.waiters[w].pc.Parking? && !Covered(s, w)
    case _ => false
  }

  lemma {:induction false} RunKeeps<T>(states: seq<Cell<T>>, steps: seq<Step>, i: nat)
    requires IsRun(states, steps) && i <= |steps|
    ensures Inv(states[i]) && |states[i].waiters| == |states[0].waiters| && states[i].value == states[0].value
    decreases i
  {
    if i > 0 {
      RunKeeps(states, steps, i - 1);
      NextKeeps(states[i - 1], steps[i - 1]);
    }
  }

  /** Every waiter that returns, in whatever run, returns the value sent. */
  lemma ReturnsWhatWasSent<T>(states: seq<Cell<T>>, steps: seq<Step>, i: nat, w: nat)
    requires IsRun(states, steps) && i <= |steps| && w < |states[i].waiters|
    requires states[i].waiters[w].pc.Returned? || states[i].waiters[w].pc.Gone?
    ensures states[i].waiters[w].pc.value == states[0].value && !states[i].waiters[w].asleep
  {
    RunKeeps(states, steps, i);
    assert WaiterOk(states[i], w);
  }

  /** No lost wakeup: in a run in which no waiter is cut off, none is ever lost, and once the sender is done none is
      asleep without running. */
  lemma {:induction false} NoLostWakeup<T>(states: seq<Cell<T>>, steps: seq<Step>, i: nat, w: nat)
    requires IsRun(states, steps) && i <= |steps| && w < |states[0].waiters|
    requires forall k :: 0 <= k < i ==> !CutOff(states[k], steps[k])
    ensures w < |states[i].waiters| && !Lost(states[i], w)
    ensures states[i].sender.Done? ==> !Down(states[i].waiters[w])
    decreases i
  {
    RunKeeps(states, steps, i);
    if i > 0 {
      NoLostWakeup(states, steps, i - 1, w);
      RunKeeps(states, steps, i - 1);
      LostByPreemptionOnly(states[i - 1], steps[i - 1], w);
    }
  }

  /** Conversely a waiter that is cut off is never heard of again, unless somebody else wakes it: it stays asleep through
      the rest of the run, the sender's finish included. */
  lemma {:induction false} CutOffIsFatal<T>(states: seq<Cell<T>>, steps: seq<Step>, k: nat, i: nat, w: nat)
    requires IsRun(states, steps) && k < i <= |steps|
    requires steps[k] == ByWaiter(w, Preempt) && CutOff(states[k], steps[k])
    requires forall j :: k < j < i ==> steps[j] != ByWaiter(w, WakeByOther)
    ensures w < |states[i].waiters| && Lost(states[i], w) && !states[i].waiters[w].pc.Returned?
    decreases i
  {
    RunKeeps(states, steps, i);
    RunKeeps(states, steps, i - 1);
    if i == k + 1 {
      LostByPreemptionOnly(states[k], steps[k], w);
    } else {
      CutOffIsFatal(states, steps, k, i - 1, w);
      LostForGood(states[i - 1], steps[i - 1], w);
    }
    assert WaiterOk(states[i], w);
  }

  /** A waiter is preempted right after it prepared to sleep, and the sender then runs to the end. */
  lemma LostTrace() returns (states: seq<Cell<int>>, steps: seq<Step>)
    ensures |states| == 7 && |steps| == 6 && Initial(states[0])
    ensures forall i | 0 <= i < 6 :: Next(states[i], steps[i]) == To(states[i + 1])
    ensures states[6].sender.Done? && |states[6].waiters| == 1 && Down(states[6].waiters[0])
  {
    var s0 := Cell(7, None, false, [], [Waiter(Start, false, false)], Idle);
    steps := [ByWaiter(0, Prepare), ByWaiter(0, Preempt), BySender(Write), BySender(Publish), BySender(Drain), BySender(Finish)];
    var s1 := Next(s0, steps[0]).s;
    var s2 := Next(s1, steps[1]).s;
    var s3 := Next(s2, steps[2]).s;
    var s4 := Next(s3, steps[3]).s;
    var s5 := Next(s4, steps[4]).s;
    var s6 := Next(s5, steps[5]).s;
    states := [s0, s1, s2, s3, s4, s5, s6];
  }

  lemma WakeupCanBeLost()
    ensures exists states: seq<Cell<int>>, steps ::
              && IsRun(states, steps) && states[|steps|].sender.Done?
              && |states[|steps|].waiters| == 1 && Down(states[|steps|].waiters[0])
  {
    hide Next;
    var states, steps := LostTrace();
    assert IsRun(states, steps);
  }

  // ---------- waking a waiter that is gone ----------

  /** Some waiter is gone that the sender is still going to wake. */
  ghost predicate Doomed<T>(s: Cell<T>) {
    exists w: nat :: w < |s.waiters| && s.waiters[w].pc.Gone? && Covered(s, w)
  }

  /** A waiter ends while its number is still on the sender's list. */
  ghost predicate ExitsListed<T>(s: Cell<T>, step: Step) {
    step.ByWaiter? && step.act.Exit? && Covered(s, step.w)
  }

  /** The sender becomes doomed when a waiter ends on its list and by nothing else; it stays so, and never finishes. */
  lemma DoomedWhen<T>(s: Cell<T>, step: Step)
    requires Inv(s) && Next(s, step).To?
    ensures Doomed(Next(s, step).s) <==> Doomed(s) || ExitsListed(s, step)
    ensures Doomed(s) ==> !s.sender.Done?
  {
    var s' := Next(s, step).s;
    if Doomed(s) {
      var w: nat :| w < |s.waiters| && s.waiters[w].pc.Gone? && Covered(s, w);
      StaysListed(s, step, w);
    } else if ExitsListed(s, step) {
      assert s'.waiters[step.w].pc.Gone? && Covered(s', step.w);
    }
    if Doomed(s') {
      var w: nat :| w < |s'.waiters| && s'.waiters[w].pc.Gone? && Covered(s', w);
      WasListed(s, step, w);
    }
  }

  lemma StaysListed<T>(s: Cell<T>, step: Step, w: nat)
    requires Inv(s) && Next(s, step).To? && w < |s.waiters| && s.waiters[w].pc.Gone? && Covered(s, w)
    ensures w < |Next(s, step).s.waiters| && Next(s, step).s.waiters[w].pc.Gone? && Covered(Next(s, step).s, w)
  {
    assert WaiterOk(s, w);
    if s.sender.Draining? && s.sender.rest != [] {
      assert s.sender.rest == [s.sender.rest[0]] + s.sender.rest[1..];
    }
  }

  lemma WasListed<T>(s: Cell<T>, step: Step, w: nat)
    requires Inv(s) && Next(s, step).To?
    requires w < |Next(s, step).s.waiters| && Next(s, step).s.waiters[w].pc.Gone? && Covered(Next(s, step).s, w)
    ensures w < |s.waiters| && Covered(s, w) && (s.waiters[w].pc.Gone? || step == ByWaiter(w, Exit))
  {
    NextKeeps(s, step);
    assert WaiterOk(s, w);
    if s.sender.Draining? && s.sender.rest != [] {
      assert s.sender.rest == [s.sender.rest[0]] + s.sender.rest[1..];
    }
  }

  /** The sender's wakes from here on, when nothing comes in between. */
  function DrainAll<T>(s: Cell<T>): (r: Outcome<T>)
    decreases if s.sender.Draining? then |s.sender.rest| else 0
  {
    if !s.sender.Draining? || s.sender.rest == [] then To(s)
    else
      match SenderNext(s, WakeNext)
      case To(s') => DrainAll(s')
      case o => o
  }

  /** The drain panics if and only if a waiter on the list is gone. */
  lemma {:induction false} DrainPanicsWhen<T>(s: Cell<T>)
    requires Inv(s) && s.sender.Draining?
    ensures DrainAll(s).Panicked? <==> exists w: nat :: w in s.sender.rest && w < |s.waiters| && s.waiters[w].pc.Gone?
    decreases |s.sender.rest|
  {
    var rest := s.sender.rest;
    if rest != [] {
      assert rest == [rest[0]] + rest[1..] && rest[0] in rest;
      if !s.waiters[rest[0]].pc.Gone? {
        SenderKeeps(s, WakeNext);
        DrainPanicsWhen(SenderNext(s, WakeNext).s);
        var s' := SenderNext(s, WakeNext).s;
        assert forall w: nat | w < |s.waiters| :: s'.waiters[w].pc == s.waiters[w].pc;
      }
    }
  }

  /** Over every run: no waiter has ended on the list as long as the sender can finish, and if none has, no wake panics. */
  lemma {:induction false} SendPanicsOnlyWhen<T>(states: seq<Cell<T>>, steps: seq<Step>, i: nat)
    requires IsRun(states, steps) && i <= |steps|
    ensures Doomed(states[i]) <==> exists k :: 0 <= k < i && ExitsListed(states[k], steps[k])
    ensures Doomed(states[i]) ==> !states[i].sender.Done?
    ensures forall act :: SenderNext(states[i], act).Panicked? ==> act.WakeNext? && Doomed(states[i])
    decreases i
  {
    hide Next, SenderNext, WaiterNext, Inv;
    RunKeeps(states, steps, i);
    WakePanicIsDoom(states[i]);
    if i > 0 {
      SendPanicsOnlyWhen(states, steps, i - 1);
      RunKeeps(states, steps, i - 1);
      DoomedWhen(states[i - 1], steps[i - 1]);
    } else {
      NoneGone(states[0]);
    }
  }

  lemma WakePanicIsDoom<T>(s: Cell<T>)
    requires Inv(s)
    ensures forall act :: SenderNext(s, act).Panicked? ==> act.WakeNext? && Doomed(s)
    ensures Doomed(s) ==> !s.sender.Done?
  {
  }

  lemma NoneGone<T>(s: Cell<T>)
    requires Initial(s)
    ensures !Doomed(s)
  {
  }

  /** A waiter lists itself, finds the value, returns and ends before the sender drains the list. */
  lemma GoneTrace() returns (states: seq<Cell<int>>, steps: seq<Step>)
    ensures |states| == 10 && |steps| == 9 && Initial(states[0])
    ensures forall i | 0 <= i < 9 :: Next(states[i], steps[i]) == To(states[i + 1])
    ensures SenderNext(states[9], WakeNext).Panicked?
  {
    var first, second := GoneTraceStart();
    var acts := [ByWaiter(0, Read), ByWaiter(0, AwakenSelf), ByWaiter(0, Exit), BySender(Drain)];
    var s6 := Next(first[5], acts[0]).s;
    var s7 := Next(s6, acts[1]).s;
    var s8 := Next(s7, acts[2]).s;
    var s9 := Next(s8, acts[3]).s;
    states, steps := first + [s6, s7, s8, s9], second + acts;
  }

  lemma GoneTraceStart() returns (states: seq<Cell<int>>, steps: seq<Step>)
    ensures |states| == 6 && |steps| == 5 && Initial(states[0])
    ensures forall i | 0 <= i < 5 :: Next(states[i], steps[i]) == To(states[i + 1])
    ensures states[5] == Cell(7, Some(7), true, [0], [Waiter(Reading, true, false)], Published)
  {
    var s0 := Cell(7, None, false, [], [Waiter(Start, false, false)], Idle);
    steps := [ByWaiter(0, Prepare), ByWaiter(0, List), BySender(Write), BySender(Publish), ByWaiter(0, Check)];
    var s1 := Next(s0, steps[0]).s;
    var s2 := Next(s1, steps[1]).s;
    var s3 := Next(s2, steps[2]).s;
    var s4 := Next(s3, steps[3]).s;
    var s5 := Next(s4, steps[4]).s;
    states := [s0, s1, s2, s3, s4, s5];
  }

  lemma SendCanPanic()
    ensures exists states: seq<Cell<int>>, steps ::
              IsRun(states, steps) && SenderNext(states[|steps|], WakeNext).Panicked?
  {
    hide Next, SenderNext;
    var states, steps := GoneTrace();
    assert IsRun(states, steps);
  }

  // ---------- progress ----------

  /** How many steps of its own a waiter has to go once the value is there. */
  function ToGo<T>(pc: Pc<T>): nat {
    match pc
    case Parking => 6
    case Start => 5
    case Prepared => 4
    case Listed => 3
    case Reading => 2
    case Got(_) => 1
    case _ => 0
  }

  /** A step of the waiter's own code. */
  predicate IsOwn(step: Step, w: nat) {
    step.ByWaiter? && step.w == w && !step.act.Preempt? && !step.act.Reschedule? && !step.act.WakeByOther? && !step.act.Exit?
  }

  function OwnSteps(steps: seq<Step>, w: nat, from: nat, i: nat): (n: nat)
    requires from <= i <= |steps|
    decreases i
  {
    if i == from then 0 else OwnSteps(steps, w, from, i - 1) + if IsOwn(steps[i - 1], w) then 1 else 0
  }

  lemma OneStepNearer<T>(s: Cell<T>, step: Step, w: nat)
    requires Inv(s) && s.sender.Done? && Next(s, step).To? && w < |s.waiters|
    ensures var s' := Next(s, step).s;
            && s'.sender.Done? && w < |s'.waiters|
            && ToGo(s'.waiters[w].pc) + (if IsOwn(step, w) then 1 else 0) == ToGo(s.waiters[w].pc)
  {
    assert WaiterOk(s, w);
  }

  /** The step of its own, or of the scheduler bringing it back, that a waiter can always make. */
  function ItsStep<T>(x: Waiter<T>): Act {
    if x.off then Reschedule
    else
      match x.pc
      case Start => Prepare
      case Prepared => List
      case Listed => Check
      case Reading => Read
      case Got(_) => AwakenSelf
      case Parking => Resume
      case _ => Exit
  }

  /**
   Progress: once the sender is done, every waiter of a run in which none is cut off has returned after at most six
   steps of its own, and until then it can always make one, or be brought back to a processor to make one.
   */
  lemma {:induction false} ReturnsSoon<T>(states: seq<Cell<T>>, steps: seq<Step>, from: nat, i: nat, w: nat)
    requires IsRun(states, steps) && from <= i <= |steps| && states[from].sender.Done? && w < |states[0].waiters|
    requires forall k :: 0 <= k < i ==> !CutOff(states[k], steps[k])
    ensures w < |states[from].waiters| && w < |states[i].waiters| && states[i].sender.Done?
    ensures ToGo(states[i].waiters[w].pc) + OwnSteps(steps, w, from, i) == ToGo(states[from].waiters[w].pc) <= 6
    ensures ToGo(states[i].waiters[w].pc) == 0 <==> states[i].waiters[w].pc.Returned? || states[i].waiters[w].pc.Gone?
    ensures ToGo(states[i].waiters[w].pc) > 0 ==> Next(states[i], ByWaiter(w, ItsStep(states[i].waiters[w]))).To?
    decreases i
  {
    hide Inv, Next, Initial, Lost, Down;
    RunKeeps(states, steps, from);
    RunKeeps(states, steps, i);
    NoLostWakeup(states, steps, i, w);
    if i > from {
      ReturnsSoon(states, steps, from, i - 1, w);
      RunKeeps(states, steps, i - 1);
      OneStepNearer(states[i - 1], steps[i - 1], w);
    }
    if ToGo(states[i].waiters[w].pc) > 0 { CanStep(states[i], w); }
  }

  lemma CanStep<T>(s: Cell<T>, w: nat)
    requires s.sender.Done? && w < |s.waiters| && !Down(s.waiters[w]) && ToGo(s.waiters[w].pc) > 0
    ensures Next(s, ByWaiter(w, ItsStep(s.waiters[w]))).To?
  {
  }

  // ---------- the cell ----------

  function CellOf<T>(s: Cell<T>): State<T> {
    State(s.message, s.ready)
  }

  /** The sender's two writes are the cell's `set`, and the waiter's check and read are its `get_clone`. */
  lemma CellIsUsed<T>(s: Cell<T>, w: nat)
    requires Inv(s) && w < |s.waiters|
    ensures s.sender.Idle? ==>
              && SenderNext(s, Write).To? && SenderNext(SenderNext(s, Write).s, Publish).To?
              && CellOf(SenderNext(SenderNext(s, Write).s, Publish).s) == Stored(s.value)
    ensures s.waiters[w].pc.Listed? && !s.waiters[w].off ==>
              && WaiterNext(s, w, Check).To? && CellOf(WaiterNext(s, w, Check).s) == CellOf(s)
              && var s1 := WaiterNext(s, w, Check).s;
              if Copied(CellOf(s)).None? then s1.waiters[w].pc.Parking?
              else
                && WaiterNext(s1, w, Read).To? && CellOf(WaiterNext(s1, w, Read).s) == CellOf(s)
                && WaiterNext(s1, w, Read).s.waiters[w].pc == Got(Copied(CellOf(s)).value)
  {
    assert WaiterOk(s, w);
  }
}
