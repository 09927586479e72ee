/**
 The command queue between the MQTT callback, the worker thread and stop(), over all
 interleavings. A step is one region protected by the queue mutex, one access to the stop flag,
 or one notification of the condition variable.
 */
module CommandQueue {
  datatype Worker =
    | Checking // reads the stop flag of the outer loop
    | Entering // takes the mutex
    | Testing // holds the mutex, evaluates the wait predicate
    | Parking // holds the mutex, found nothing to do
    | Parked // waits on the condition variable, mutex released
    | Waking // takes the mutex again
    | Draining // holds the mutex, in the inner loop
    | Running(command: string) // mutex released
    | Relocking
    | Ended

  /** `due` counts pushes whose notify_one is still to come, `stopsDue` stops whose notify_all is. */
  datatype System = System(
    queue: seq<string>,
    due: nat,
    stop: bool,
    stopsDue: nat,
    worker: Worker,
    // history: what arrived, and what was executed
    arrived: seq<string>,
    executed: seq<string>)

  datatype Step = Push(command: string) | Notify | RequestStop | NotifyAll | Spurious | Work

  ghost predicate Initial(s: System) {
    s == System([], 0, false, 0, Checking, [], [])
  }

  predicate HoldsMutex(w: Worker) {
    w.Testing? || w.Parking? || w.Draining?
  }

  predicate Enabled(s: System, step: Step) {
    match step
    case Push(_) => !HoldsMutex(s.worker)
    case Notify => s.due > 0
    case RequestStop => true
    case NotifyAll => s.stopsDue > 0
    case Spurious => s.worker.Parked?
    case Work => !s.worker.Parked? && !s.worker.Ended?
  }

  function Wake(w: Worker): Worker {
    if w.Parked? then Waking else w
  }

  function Apply(s: System, step: Step): System
    requires Enabled(s, step)
  {
    match step
    case Push(c) => s.(queue := s.queue + [c], due := s.due + 1, arrived := s.arrived + [c])
    case Notify => s.(due := s.due - 1, worker := Wake(s.worker))
    case RequestStop => s.(stop := true, stopsDue := s.stopsDue + 1)
    case NotifyAll => s.(stopsDue := s.stopsDue - 1, worker := Wake(s.worker))
    case Spurious => s.(worker := Waking)
    case Work => Move(s)
  }

  /** One step of the worker. */
  function Move(s: System): System
    requires Enabled(s, Work)
  {
    match s.worker
    case Checking => s.(worker := if s.stop then Ended else Entering)
    case Entering => s.(worker := Testing)
    case Testing => s.(worker := if s.stop || s.queue != [] then Draining else Parking)
    case Parking => s.(worker := Parked)
    case Waking => s.(worker := Testing)
    case Draining =>
      if s.queue == [] then s.(worker := Checking) else s.(worker := Running(s.queue[0]), queue := s.queue[1..])
    case Running(c) => s.(worker := Relocking, executed := s.executed + [c])
    case Relocking => s.(worker := Draining)
  }

  ghost predicate Run(states: seq<System>, steps: seq<Step>) {
    && |states| == |steps| + 1
    && Initial(states[0])
    && forall i :: 0 <= i < |steps| ==> Enabled(states[i], steps[i]) && states[i + 1] == Apply(states[i], steps[i])
  }

  // ---------------------------------------------------------------- invariants

  function InProgress(w: Worker): seq<string> {
    if w.Running? then [w.command] else []
  }

  ghost predicate Conserved(s: System) {
    s.arrived == s.executed + InProgress(s.worker) + s.queue
  }

  /** The worker sleeps on an empty queue, or a notification is on its way. */
  ghost predicate SleepsIdle(s: System) {
    && (s.worker.Parking? ==> s.queue == [])
    && (s.worker.Parked? ==> s.queue == [] || s.due > 0)
  }

  ghost predicate StopFlag(s: System) {
    (s.worker.Ended? || s.stopsDue > 0) ==> s.stop
  }

  ghost predicate Inv(s: System) {
    Conserved(s) && SleepsIdle(s) && StopFlag(s)
  }

  lemma StepConserves(s: System, step: Step)
    requires Enabled(s, step) && Conserved(s)
    ensures Conserved(Apply(s, step))
  {
    if step.Push? {
      var before := s.executed + InProgress(s.worker);
      assert before + s.queue + [step.command] == before + (s.queue + [step.command]);
    } else if step.Work? && s.worker.Draining? && s.queue != [] {
      assert s.queue == [s.queue[0]] + s.queue[1..];
    }
  }

  lemma StepKeepsInv(s: System, step: Step)
    requires Enabled(s, step) && Inv(s)
    ensures Inv(Apply(s, step))
  {
    StepConserves(s, step);
  }

  lemma {:induction false} RunKeepsInv(states: seq<System>, steps: seq<Step>, n: nat)
    requires Run(states, steps) && n < |states|
    ensures Inv(states[n])
  {
    if n == 0 {
    } else {
      RunKeepsInv(states, steps, n - 1);
      StepKeepsInv(states[n - 1], steps[n - 1]);
    }
  }

  // ---------------------------------------------------------------- every run

  /** Nothing is lost, repeated or reordered: arrivals are the executed, then the current, then the queued commands. */
  lemma ArrivalsConserved(states: seq<System>, steps: seq<Step>, n: nat)
    requires Run(states, steps) && n < |states|
    ensures var s := states[n]; s.arrived == s.executed + InProgress(s.worker) + s.queue
  {
    RunKeepsInv(states, steps, n);
  }

  lemma ParkedOnlyIdle(states: seq<System>, steps: seq<Step>, n: nat)
    requires Run(states, steps) && n < |states| && states[n].worker.Parked?
    ensures states[n].queue == [] || states[n].due > 0
  {
    RunKeepsInv(states, steps, n);
  }

  predicate OutOfWork(w: Worker) {
    w.Checking? || w.Ended?
  }

  /** At `i` the worker had executed all that had arrived; up to `n` it has taken no command since. */
  ghost predicate DrainedAt(states: seq<System>, i: nat, n: nat)
    requires n < |states|
  {
    && i <= n && states[i].worker.Checking? && states[i].executed == states[i].arrived
    && forall j :: i <= j <= n ==> OutOfWork(states[j].worker) && states[j].executed == states[i].executed
  }

  /** The worker comes to the stop flag only from an empty queue, and leaves it without a command. */
  lemma OutOfWorkStep(s: System, step: Step)
    requires Enabled(s, step) && Conserved(s) && OutOfWork(Apply(s, step).worker)
    ensures var after := Apply(s, step);
      if OutOfWork(s.worker) then after.executed == s.executed
      else after.worker.Checking? && after.executed == after.arrived
  {
  }

  lemma {:induction false} DrainedBefore(states: seq<System>, steps: seq<Step>, n: nat) returns (i: nat)
    requires Run(states, steps) && n < |states| && OutOfWork(states[n].worker)
    ensures DrainedAt(states, i, n)
  {
    if n == 0 {
      i := 0;
    } else {
      RunKeepsInv(states, steps, n - 1);
      OutOfWorkStep(states[n - 1], steps[n - 1]);
      if OutOfWork(states[n - 1].worker) {
        i := DrainedBefore(states, steps, n - 1);
      } else {
        i := n;
      }
    }
  }

  /** All that had arrived at `i` was executed then, and all that has arrived since is in the queue at `n`. */
  ghost predicate LateOnly(states: seq<System>, i: nat, n: nat)
    requires n < |states|
  {
    DrainedAt(states, i, n) && states[n].arrived == states[i].arrived + states[n].queue
  }

  /**
   A stop drops only what came too late: a worker that has ended had executed, at a point where it went
   to read the stop flag, every command that had arrived by then, and the queue holds what came after.
   */
  lemma StopDropsOnlyLate(states: seq<System>, steps: seq<Step>, n: nat) returns (i: nat)
    requires Run(states, steps) && n < |states| && states[n].worker.Ended?
    ensures states[n].stop && LateOnly(states, i, n)
  {
    RunKeepsInv(states, steps, n);
    i := DrainedBefore(states, steps, n);
  }

  // ---------------------------------------------------------------- progress

  /** Steps that the agent takes by itself. */
  predicate Own(step: Step) {
    step.Notify? || step.NotifyAll? || step.Work?
  }

  /** How far the worker is from rest; a full queue or a stop sends it through the inner loop once more. */
  function Distance(s: System): nat {
    var busy := s.stop || s.queue != [];
    match s.worker
    case Parked => 0
    case Ended => 0
    case Parking => 1
    case Testing => if busy then 6 else 2
    case Entering => if busy then 7 else 3
    case Waking => if busy then 7 else 3
    case Checking => if s.stop then 1 else if busy then 8 else 4
    case Draining => 5
    case Relocking => 6
    case Running(_) => 7
  }

  function Remaining(s: System): nat {
    10 * |s.queue| + 10 * s.due + 10 * s.stopsDue + Distance(s)
  }

  /** Left alone, the agent comes to rest. */
  lemma OwnStepsEnd(s: System, step: Step)
    requires Enabled(s, step) && Own(step)
    ensures Remaining(Apply(s, step)) < Remaining(s)
  {
  }

  ghost predicate AtRest(s: System) {
    forall step :: Own(step) ==> !Enabled(s, step)
  }

  /** At rest, every command that arrived was executed, but for those that came after the last drain before a stop. */
  lemma RestMeansDone(states: seq<System>, steps: seq<Step>, n: nat)
    requires Run(states, steps) && n < |states| && AtRest(states[n])
    ensures var s := states[n];
      || (s.worker.Ended? && s.stop && exists i :: LateOnly(states, i, n))
      || (s.worker.Parked? && s.queue == [] && s.executed == s.arrived)
  {
    RunKeepsInv(states, steps, n);
    assert Own(Work) && Own(Notify);
    if states[n].worker.Ended? {
      var _ := StopDropsOnlyLate(states, steps, n);
    }
  }

  // ---------------------------------------------------------------- stopping

  predicate Sleeping(w: Worker) {
    w.Parking? || w.Parked?
  }

  /** Step `i` notified a worker between its test and its sleep, and it has slept since. */
  ghost predicate CaughtSince(states: seq<System>, steps: seq<Step>, i: nat, n: nat)
    requires |states| == |steps| + 1 && n < |states|
  {
    && i < n && steps[i].NotifyAll? && states[i].worker.Parking?
    && forall j :: i <= j <= n ==> Sleeping(states[j].worker)
  }

  /** Asleep with the flag set and every stop's notification gone. */
  predicate SleepsThrough(s: System) {
    Sleeping(s.worker) && s.stop && s.stopsDue == 0
  }

  lemma FallsAsleep(s: System, step: Step)
    requires Enabled(s, step) && StopFlag(s) && SleepsThrough(Apply(s, step))
    ensures SleepsThrough(s) || (step.NotifyAll? && s.worker.Parking?)
  {
  }

  lemma {:induction false} SleepersWereCaught(states: seq<System>, steps: seq<Step>, n: nat)
    requires Run(states, steps) && n < |states| && SleepsThrough(states[n])
    ensures exists i :: CaughtSince(states, steps, i, n)
  {
    RunKeepsInv(states, steps, n - 1);
    FallsAsleep(states[n - 1], steps[n - 1]);
    if SleepsThrough(states[n - 1]) {
      SleepersWereCaught(states, steps, n - 1);
      var i :| CaughtSince(states, steps, i, n - 1);
      assert CaughtSince(states, steps, i, n);
    } else {
      assert CaughtSince(states, steps, n - 1, n);
    }
  }

  /** At rest after a stop, the worker has not ended exactly when a stop notified it too early and it slept on. */
  lemma StopMissedExactly(states: seq<System>, steps: seq<Step>, n: nat)
    requires Run(states, steps) && n < |states| && states[n].stop && AtRest(states[n])
    ensures !states[n].worker.Ended? <==> exists i :: CaughtSince(states, steps, i, n)
  {
    if !states[n].worker.Ended? {
      RestMeansDone(states, steps, n);
      assert Own(NotifyAll);
      SleepersWereCaught(states, steps, n);
    }
  }

  /** What comes from elsewhere: a command, another stop, a spurious wake-up. */
  predicate Outside(step: Step) {
    step.Push? || step.RequestStop? || step.Spurious?
  }

  /** Parked after a stop, with no notification on its way: stop() waits in its join. */
  predicate Abandoned(s: System) {
    s.worker.Parked? && s.stop && s.stopsDue == 0 && s.due == 0
  }

  lemma AbandonedStep(s: System, step: Step)
    requires Enabled(s, step) && Abandoned(s)
    ensures Outside(step)
  {
  }

  /** In every continuation such a worker sleeps on, until something comes from elsewhere. */
  lemma {:induction false} AsleepForGood(states: seq<System>, steps: seq<Step>, n: nat, m: nat)
    requires Run(states, steps) && n <= m < |states| && Abandoned(states[n])
    ensures Abandoned(states[m]) || exists j :: n <= j < m && Outside(steps[j])
  {
    if n == m {
    } else {
      AsleepForGood(states, steps, n, m - 1);
      if Abandoned(states[m - 1]) {
        AbandonedStep(states[m - 1], steps[m - 1]);
      }
    }
  }

  /** The wake-up can be lost: the flag is set without the mutex. */
  lemma WakeUpCanBeLost() returns (states: seq<System>, steps: seq<Step>)
    ensures Run(states, steps)
    ensures Abandoned(states[|steps|])
  {
    var s0 := System([], 0, false, 0, Checking, [], []);
    var s3 := s0.(worker := Parking);
    steps := [Work, Work, Work, RequestStop, NotifyAll, Work];
    states := [s0, s0.(worker := Entering), s0.(worker := Testing), s3, s3.(stop := true, stopsDue := 1),
      s3.(stop := true), s3.(stop := true, worker := Parked)];
  }
}
