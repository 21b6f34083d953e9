/**
 `OnceChannel`: one sender and one receiver, interleaved step by step.  A receiver that has returned may end and be
 deleted, and the sender panics when it wakes one that is gone.
 */
module OnceChannels {
  import opened Common
  import opened OnceCells

  // ---------- the channel ----------

  datatype Pc<T> = Start | Prepared | Taking | Got(value: T) | Parking | Returned(value: T) | Gone(value: T)

  datatype Sender = Idle | Wrote | Published | Done

  /** `asleep` and `off` are those of the receiver: marked Sleeping, and switched away by the scheduler. */
  datatype Channel<T> = Channel(value: T, message: Option<T>, ready: bool, pc: Pc<T>, asleep: bool, off: bool, sender: Sender)

  datatype Step =
    | Write | Publish | Awaken
    | Prepare | Swap | Take | AwakenSelf | Resume | Exit
    | Preempt | Reschedule | WakeByOther

  datatype Outcome<T> = To(s: Channel<T>) | NotNow | Panicked

  /** What a step comes to: the state after it, not possible now, or a panic. */
  function Next<T>(s: Channel<T>, step: Step): (r: Outcome<T>) {
    match step
    case Write => if s.sender.Idle? then To(s.(message := Some(s.value), sender := Wrote)) else NotNow
    case Publish =>
      if !s.sender.Wrote? then NotNow
      else if s.ready then Panicked
      else To(s.(ready := true, sender := Published))
    case Awaken =>
      if !s.sender.Published? then NotNow
      else if s.pc.Gone? then Panicked
      else To(s.(asleep := false, sender := Done))
    case WakeByOther => if s.pc.Gone? then NotNow else To(s.(asleep := false))
    case Preempt => if s.off || s.pc.Gone? then NotNow else To(s.(off := true))
    case Reschedule => if s.off && !s.asleep then To(s.(off := false)) else NotNow
    case _ => if s.off then NotNow else ReceiverNext(s, step)
  }

  /** One step of the receive loop. */
  function ReceiverNext<T>(s: Channel<T>, step: Step): (r: Outcome<T>) {
    match (step, s.pc)
    case (Prepare, Start) => To(s.(pc := Prepared, asleep := true))
    case (Swap, Prepared) => To(s.(pc := if s.ready then Taking else Parking, ready := false))
    case (Take, Taking) => To(s.(pc := if s.message.Some? then Got(s.message.value) else Parking, message := None))
    case (AwakenSelf, Got(v)) => To(s.(pc := Returned(v), asleep := false))
    case (Exit, Returned(v)) => To(s.(pc := Gone(v)))
    case (Resume, Parking) => if s.asleep then NotNow else To(s.(pc := Start))
    case _ => NotNow
  }

  predicate Received<T>(pc: Pc<T>) {
    pc.Got? || pc.Returned? || pc.Gone?
  }

  /** The message is in one place: not sent yet, in the cell, or with the receiver. */
  ghost predicate Inv<T>(s: Channel<T>) {
    && (match s.sender
        case Idle => s.message.None? && !s.ready && !s.pc.Taking? && !Received(s.pc)
        case Wrote => s.message == Some(s.value) && !s.ready && !s.pc.Taking? && !Received(s.pc)
        case _ =>
          && (s.ready ==> s.message == Some(s.value) && !s.pc.Taking? && !Received(s.pc))
          && (s.pc.Taking? ==> s.message == Some(s.value))
          && (Received(s.pc) ==> s.message.None? && s.pc.value == s.value)
          && (s.ready || s.pc.Taking? || Received(s.pc)))
    && (s.pc.Parking? && s.asleep ==> !s.sender.Done?)
    && (s.asleep ==> !s.pc.Start? && !s.pc.Returned? && !s.pc.Gone?)
  }

  ghost predicate Initial<T>(s: Channel<T>) {
    s.message.None? && !s.ready && s.pc.Start? && !s.asleep && !s.off && s.sender.Idle?
  }

  /** Not running, and not to be run until somebody wakes it. */
  predicate Down<T>(s: Channel<T>) {
    s.asleep && (s.off || s.pc.Parking?)
  }

  /** Down with nobody left to wake it. */
  predicate Lost<T>(s: Channel<T>) {
    Down(s) && s.sender.Done?
  }

  ghost predicate IsRun<T>(states: seq<Channel<T>>, steps: seq<Step>) {
    && |states| == |steps| + 1
    && Initial(states[0])
    && forall i :: 0 <= i < |steps| ==> Next(states[i], steps[i]) == To(states[i + 1])
  }

  lemma {:induction false} RunKeeps<T>(states: seq<Channel<T>>, steps: seq<Step>, i: nat)
    requires IsRun(states, steps) && i <= |steps|
    ensures Inv(states[i]) && states[i].value == states[0].value
    decreases i
  {
    if i > 0 {
      RunKeeps(states, steps, i - 1);
      assert Next(states[i - 1], steps[i - 1]) == To(states[i]);
    }
  }

  /** Exactly once: the receiver only ever returns the message sent, not before the sender has published it, and from
      then on for good; the sender's own assertion that the cell was not set before always holds. */
  lemma DeliversWhatWasSent<T>(states: seq<Channel<T>>, steps: seq<Step>, i: nat, j: nat)
    requires IsRun(states, steps) && i <= j <= |steps|
    ensures !Next(states[i], Publish).Panicked?
    ensures states[i].pc.Returned? || states[i].pc.Gone? ==>
              && states[i].pc.value == states[0].value && (states[i].sender.Published? || states[i].sender.Done?)
              && (states[j].pc == states[i].pc || states[j].pc == Gone(states[i].pc.value))
              && states[j].message.None? && !states[j].ready
    decreases j
  {
    RunKeeps(states, steps, i);
    RunKeeps(states, steps, j);
    if i < j {
      DeliversWhatWasSent(states, steps, i, j - 1);
      RunKeeps(states, steps, j - 1);
      assert Next(states[j - 1], steps[j - 1]) == To(states[j]);
    }
  }

  /** The scheduler takes the receiver off its processor, marked asleep, after the sender has finished. */
  predicate CutOff<T>(s: Channel<T>, step: Step) {
    step.Preempt? && s.asleep && s.sender.Done?
  }

  /** The receiver is lost by being cut off and by nothing else. */
  lemma LostByPreemptionOnly<T>(s: Channel<T>, step: Step)
    requires Inv(s) && Next(s, step).To?
    ensures Lost(Next(s, step).s) && !Lost(s) <==> CutOff(s, step) && !Lost(s)
    ensures Lost(s) && !step.WakeByOther? ==> Lost(Next(s, step).s)
  {
  }

  /** In a run in which the receiver is not cut off it is never left asleep after the send has finished. */
  lemma {:induction false} NotLeftAsleep<T>(states: seq<Channel<T>>, steps: seq<Step>, i: nat)
    requires IsRun(states, steps) && i <= |steps|
    requires forall k :: 0 <= k < i ==> !CutOff(states[k], steps[k])
    ensures !Lost(states[i])
    decreases i
  {
    if i > 0 {
      NotLeftAsleep(states, steps, i - 1);
      RunKeeps(states, steps, i - 1);
      assert Next(states[i - 1], steps[i - 1]) == To(states[i]);
      LostByPreemptionOnly(states[i - 1], steps[i - 1]);
    }
  }

  /** If it is cut off it stays asleep, and never returns, unless somebody else wakes it. */
  lemma {:induction false} CutOffIsFatal<T>(states: seq<Channel<T>>, steps: seq<Step>, k: nat, i: nat)
    requires IsRun(states, steps) && k < i <= |steps| && CutOff(states[k], steps[k])
    requires forall j :: k < j < i ==> !steps[j].WakeByOther?
    ensures Lost(states[i]) && !states[i].pc.Returned?
    decreases i
  {
    RunKeeps(states, steps, i);
    RunKeeps(states, steps, i - 1);
    if i > k + 1 {
      CutOffIsFatal(states, steps, k, i - 1);
    }
    LostByPreemptionOnly(states[i - 1], steps[i - 1]);
  }

  // ---------- waking a receiver that is gone ----------

  /** Over every run: the send panics, and can then never finish, if and only if the receiver has ended before the wake. */
  lemma {:induction false} SendPanicsWhen<T>(states: seq<Channel<T>>, steps: seq<Step>, i: nat)
    requires IsRun(states, steps) && i <= |steps|
    ensures Next(states[i], Awaken).Panicked? <==>
            exists k :: 0 <= k < i && steps[k].Exit? && !states[k].sender.Done?
    ensures Next(states[i], Awaken).Panicked? ==> !states[i].sender.Done?
    decreases i
  {
    RunKeeps(states, steps, i);
    if i > 0 {
      SendPanicsWhen(states, steps, i - 1);
      RunKeeps(states, steps, i - 1);
      assert Next(states[i - 1], steps[i - 1]) == To(states[i]);
      DoomStep(states[i - 1], steps[i - 1]);
    }
  }

  lemma DoomStep<T>(s: Channel<T>, step: Step)
    requires Inv(s) && Next(s, step).To?
    ensures Next(Next(s, step).s, Awaken).Panicked? <==> Next(s, Awaken).Panicked? || (step.Exit? && !s.sender.Done?)
  {
  }

  /** The receiver takes the message, returns and ends between the sender's publishing it and its wake. */
  lemma GoneTrace() returns (states: seq<Channel<int>>, steps: seq<Step>)
    ensures IsRun(states, steps) && Next(states[|steps|], Awaken).Panicked?
  {
    var s0 := Channel(7, None, false, Start, false, false, Idle);
    steps := [Write, Publish, Prepare, Swap, Take, AwakenSelf, Exit];
    var s1 := Next(s0, Write).s;
    var s2 := Next(s1, Publish).s;
    var s3 := Next(s2, Prepare).s;
    var s4 := Next(s3, Swap).s;
    var s5 := Next(s4, Take).s;
    var s6 := Next(s5, AwakenSelf).s;
    var s7 := Next(s6, Exit).s;
    states := [s0, s1, s2, s3, s4, s5, s6, s7];
  }

  lemma SendCanPanic()
    ensures exists states: seq<Channel<int>>, steps ::
              IsRun(states, steps) && Next(states[|steps|], Awaken).Panicked?
  {
    hide Next;
    var states, steps := GoneTrace();
  }

  // ---------- progress ----------

  /** How many steps of its own the receiver has to go once the message is there. */
  function ToGo<T>(pc: Pc<T>): nat {
    match pc
    case Parking => 5
    case Start => 4
    case Prepared => 3
    case Taking => 2
    case Got(_) => 1
    case _ => 0
  }

  predicate IsOwn(step: Step) {
    step.Prepare? || step.Swap? || step.Take? || step.AwakenSelf? || step.Resume?
  }

  function OwnSteps(steps: seq<Step>, from: nat, i: nat): (n: nat)
    requires from <= i <= |steps|
    decreases i
  {
    if i == from then 0 else OwnSteps(steps, from, i - 1) + if IsOwn(steps[i - 1]) then 1 else 0
  }

  function ItsStep<T>(s: Channel<T>): Step {
    if s.off then Reschedule
    else
      match s.pc
      case Start => Prepare
      case Prepared => Swap
      case Taking => Take
      case Got(_) => AwakenSelf
      case Parking => Resume
      case _ => Exit
  }

  /** Once the send is done, a receiver that is not cut off has returned after at most five steps of its own, and until
      then it can always make one, or be brought back to a processor to make one. */
  lemma {:induction false} ReturnsSoon<T>(states: seq<Channel<T>>, steps: seq<Step>, from: nat, i: nat)
    requires IsRun(states, steps) && from <= i <= |steps| && states[from].sender.Done?
    requires forall k :: 0 <= k < i ==> !CutOff(states[k], steps[k])
    ensures states[i].sender.Done? && ToGo(states[i].pc) + OwnSteps(steps, from, i) == ToGo(states[from].pc) <= 5
    ensures ToGo(states[i].pc) == 0 <==> states[i].pc.Returned? || states[i].pc.Gone?
    ensures ToGo(states[i].pc) > 0 ==> Next(states[i], ItsStep(states[i])).To?
    decreases i
  {
    hide Inv;
    NotLeftAsleep(states, steps, i);
    if i > from {
      ReturnsSoon(states, steps, from, i - 1);
      RunKeeps(states, steps, i - 1);
      assert Next(states[i - 1], steps[i - 1]) == To(states[i]);
      OneStepNearer(states[i - 1], steps[i - 1]);
    }
  }

  lemma OneStepNearer<T>(s: Channel<T>, step: Step)
    requires Inv(s) && s.sender.Done? && Next(s, step).To?
    ensures var s' := Next(s, step).s;
            s'.sender.Done? && ToGo(s'.pc) + (if IsOwn(step) then 1 else 0) == ToGo(s.pc)
  {
  }

  // ---------- the cell ----------

  function CellOf<T>(s: Channel<T>): State<T> {
    State(s.message, s.ready)
  }

  /** The sender's two writes are the cell's `set`, and the receiver's swap and take are its `get_once`. */
  lemma CellIsUsed<T>(s: Channel<T>)
    requires Inv(s)
    ensures s.sender.Idle? ==>
              && Next(s, Write).To? && Next(Next(s, Write).s, Publish).To?
              && CellOf(Next(Next(s, Write).s, Publish).s) == Stored(s.value)
    ensures s.pc.Prepared? && !s.off ==>
              && Next(s, Swap).To?
              && var s1 := Next(s, Swap).s;
              var (got, rest) := Taken(CellOf(s));
              if got.None? then s1.pc.Parking? && CellOf(s1) == rest
              else Next(s1, Take).To? && Next(s1, Take).s.pc == Got(got.value) && CellOf(Next(s1, Take).s) == rest
  {
  }
}
