// bounded_executor.py: a worker pool whose outstanding work is bounded by a semaphore.
// A permit is taken under the lock when work is submitted and given back in two steps
// by the future's done-callback: the in-flight counter under the lock, then the
// semaphore after the lock is dropped.
module BoundedExecutor {

  // ------------------------------------------------------------------------------
  // The locked sections
  // ------------------------------------------------------------------------------

  datatype Counters = Counters(capacity: nat, permits: int, inFlight: int, rejected: nat, closed: bool)

  datatype Outcome = Accepted | LoadShed | LifecycleError

  // `poolAccepts` is false when the thread pool was shut down from outside and raises.
  function Submitted(c: Counters, poolAccepts: bool): (Counters, Outcome) {
    if c.closed then (c, LifecycleError)
    else if c.permits <= 0 then (c.(rejected := c.rejected + 1), LoadShed)
    else if !poolAccepts then (c.(closed := true), LifecycleError)
    else (c.(permits := c.permits - 1, inFlight := c.inFlight + 1), Accepted)
  }

  class BoundedSemaphore {
    const initial: nat
    var value: int

    constructor (initial: nat)
      ensures value == this.initial == initial
    {
      this.initial, value := initial, initial;
    }

    method Acquire() returns (acquired: bool)
      modifies this
      ensures acquired == (old(value) > 0)
      ensures value == old(value) - (if acquired then 1 else 0)
    {
      acquired := value > 0;
      if acquired {
        value := value - 1;
      }
    }

    // Raises ValueError rather than exceed the initial value.
    method Release() returns (raised: bool)
      modifies this
      ensures raised == (old(value) >= initial)
      ensures value == old(value) + (if raised then 0 else 1)
    {
      raised := value >= initial;
      if !raised {
        value := value + 1;
      }
    }
  }

  class BoundedValidationExecutor {
    const capacity: nat
    const sem: BoundedSemaphore
    var inFlight: int
    var rejectedTotal: nat
    var closed: bool

    ghost function View(): Counters
      reads this, sem
    {
      Counters(capacity, sem.value, inFlight, rejectedTotal, closed)
    }

    ghost predicate Valid()
      reads this, sem
    {
      sem.initial == capacity
    }

    constructor (maxWorkers: nat, maxPending: nat)
      requires maxWorkers > 0
      ensures Valid() && fresh(sem)
      ensures View() == Counters(maxWorkers + maxPending, maxWorkers + maxPending, 0, 0, false)
    {
      capacity := maxWorkers + maxPending;
      sem := new BoundedSemaphore(maxWorkers + maxPending);
      inFlight, rejectedTotal, closed := 0, 0, false;
    }

    method AcquireAndSubmit(poolAccepts: bool) returns (outcome: Outcome)
      requires Valid() && sem.value <= capacity
      modifies this, sem
      ensures Valid() && (View(), outcome) == Submitted(old(View()), poolAccepts)
    {
      if closed {
        return LifecycleError;
      }
      var acquired := sem.Acquire();
      if !acquired {
        rejectedTotal := rejectedTotal + 1;
        return LoadShed;
      }
      inFlight := inFlight + 1;
      if !poolAccepts {
        inFlight := inFlight - 1;
        var raised := sem.Release();
        closed := true;
        return LifecycleError;
      }
      outcome := Accepted;
    }

    // The first half of _release, under the lock.
    method DecrementInFlight()
      requires Valid()
      modifies this
      ensures Valid() && View() == old(View()).(inFlight := old(inFlight) - 1)
    {
      inFlight := inFlight - 1;
    }

    // The second half of _release, after the lock is dropped.
    method ReleasePermit() returns (raised: bool)
      requires Valid()
      modifies sem
      ensures Valid() && raised == (old(sem.value) >= capacity)
      ensures View() == old(View()).(permits := old(sem.value) + (if raised then 0 else 1))
    {
      raised := sem.Release();
    }

    method Shutdown()
      requires Valid()
      modifies this
      ensures Valid() && View() == old(View()).(closed := true)
    {
      if !closed {
        closed := true;
      }
    }
  }

  // ------------------------------------------------------------------------------
  // The protocol: every interleaving of callers, workers and callbacks
  // ------------------------------------------------------------------------------

  type TaskId = nat

  datatype Phase = Queued | Running | Finished

  // Where the done-callback stands: not registered yet, registered, between its two
  // steps, or through.
  datatype Hook = Unregistered | Registered | Midway | Released

  datatype Task = Task(phase: Phase, hook: Hook)

  // Tasks are numbered in the order they are accepted.
  datatype State = State(c: Counters, tasks: seq<Task>, maxWorkers: nat, refused: nat, overReleased: bool)

  datatype Label =
    | Submit(poolAccepts: bool)   // _acquire_and_submit, up to the end of its locked section
    | Register(id: TaskId)        // add_done_callback
    | Start(id: TaskId)           // a worker picks it up
    | Finish(id: TaskId)          // the callable returns or raises
    | Cancel(id: TaskId)          // an async timeout cancels a future that is still queued
    | Decrement(id: TaskId)       // _release, first step
    | Release(id: TaskId)         // _release, second step
    | Shutdown

  function Initial(maxWorkers: nat, maxPending: nat): State {
    State(Counters(maxWorkers + maxPending, maxWorkers + maxPending, 0, 0, false), [], maxWorkers, 0, false)
  }

  // How much of something the tasks add up to.
  function Total(tasks: seq<Task>, weight: Task -> nat): nat {
    if tasks == [] then 0 else Total(tasks[..|tasks| - 1], weight) + weight(tasks[|tasks| - 1])
  }

  function RunningTask(t: Task): nat {
    if t.phase == Running then 1 else 0
  }

  // Accepted work that has not ended.
  function OutstandingTask(t: Task): nat {
    if t.phase != Finished then 1 else 0
  }

  // A task that still has its place in the in-flight count.
  function HoldingTask(t: Task): nat {
    if t.hook == Unregistered || t.hook == Registered then 1 else 0
  }

  function MidwayTask(t: Task): nat {
    if t.hook == Midway then 1 else 0
  }

  predicate Enabled(s: State, l: Label) {
    match l
    case Submit(_) => true
    case Shutdown => true
    case Register(id) => id < |s.tasks| && s.tasks[id].hook == Unregistered
    case Start(id) => id < |s.tasks| && s.tasks[id].phase == Queued && Total(s.tasks, RunningTask) < s.maxWorkers
    case Finish(id) => id < |s.tasks| && s.tasks[id].phase == Running
    case Cancel(id) => id < |s.tasks| && s.tasks[id] == Task(Queued, Registered)
    case Decrement(id) => id < |s.tasks| && s.tasks[id] == Task(Finished, Registered)
    case Release(id) => id < |s.tasks| && s.tasks[id].hook == Midway
  }

  // The accepted work a label moves, after the move.
  function MovedTask(t: Task, l: Label): Task {
    match l
    case Register(_) => t.(hook := Registered)
    case Start(_) => t.(phase := Running)
    case Finish(_) => t.(phase := Finished)
    case Cancel(_) => t.(phase := Finished)
    case Decrement(_) => t.(hook := Midway)
    case Release(_) => t.(hook := Released)
    case _ => t
  }

  function Move(s: State, l: Label): State
    requires Enabled(s, l) && !l.Submit? && !l.Shutdown?
  {
    var moved := s.(tasks := s.tasks[l.id := MovedTask(s.tasks[l.id], l)]);
    if l.Decrement? then moved.(c := s.c.(inFlight := s.c.inFlight - 1))
    else if !l.Release? then moved
    else if s.c.permits >= s.c.capacity then moved.(overReleased := true)
    else moved.(c := s.c.(permits := s.c.permits + 1))
  }

  // A label that is not enabled leaves the state alone.
  function Step(s: State, l: Label): State {
    if !Enabled(s, l) then s
    else
      match l
      case Shutdown => s.(c := s.c.(closed := true))
      case Submit(poolAccepts) =>
        var (c, outcome) := Submitted(s.c, poolAccepts);
        (match outcome
         case Accepted => s.(c := c, tasks := s.tasks + [Task(Queued, Unregistered)])
         case LoadShed => s.(c := c)
         case LifecycleError => s.(c := c, refused := s.refused + 1))
      case _ => Move(s, l)
  }

  function Run(maxWorkers: nat, maxPending: nat, labels: seq<Label>): State {
    if labels == [] then Initial(maxWorkers, maxPending)
    else Step(Run(maxWorkers, maxPending, labels[..|labels| - 1]), labels[|labels| - 1])
  }

  // ------------------------------------------------------------------------------
  // Permits are conserved
  // ------------------------------------------------------------------------------

  ghost predicate Conserved(s: State) {
    && s.c.inFlight == Total(s.tasks, HoldingTask)
    && s.c.permits + s.c.inFlight + Total(s.tasks, MidwayTask) == s.c.capacity
    && 0 <= s.c.permits
    && !s.overReleased
    && Total(s.tasks, RunningTask) <= s.maxWorkers
  }

  ghost predicate HooksFollowPhases(s: State) {
    forall id :: 0 <= id < |s.tasks| && (s.tasks[id].hook == Midway || s.tasks[id].hook == Released) ==>
      s.tasks[id].phase == Finished
  }

  lemma {:induction false} TotalAfterMove(tasks: seq<Task>, id: nat, t: Task, weight: Task -> nat)
    requires id < |tasks|
    ensures Total(tasks[id := t], weight) == Total(tasks, weight) - weight(tasks[id]) + weight(t)
  {
    var n := |tasks| - 1;
    if id < n {
      TotalAfterMove(tasks[..n], id, t, weight);
      assert tasks[id := t][..n] == tasks[..n][id := t];
    } else {
      assert tasks[id := t][..n] == tasks[..n];
    }
  }

  lemma TotalAfterAccept(tasks: seq<Task>, t: Task, weight: Task -> nat)
    ensures Total(tasks + [t], weight) == Total(tasks, weight) + weight(t)
  {
    assert (tasks + [t])[..|tasks|] == tasks;
  }

  lemma {:induction false} TotalAtLeast(tasks: seq<Task>, id: nat, weight: Task -> nat)
    requires id < |tasks|
    ensures Total(tasks, weight) >= weight(tasks[id])
  {
    if id < |tasks| - 1 {
      TotalAtLeast(tasks[..|tasks| - 1], id, weight);
    }
  }

  lemma {:induction false} TotalCompare(tasks: seq<Task>, a: Task -> nat, b: Task -> nat)
    requires forall i :: 0 <= i < |tasks| ==> a(tasks[i]) <= b(tasks[i])
    ensures Total(tasks, a) <= Total(tasks, b)
  {
    if tasks != [] {
      TotalCompare(tasks[..|tasks| - 1], a, b);
    }
  }

  lemma StepConserves(s: State, l: Label)
    requires Conserved(s)
    ensures Conserved(Step(s, l))
    ensures Step(s, l).c.capacity == s.c.capacity && Step(s, l).maxWorkers == s.maxWorkers
  {
    hide Total;
    if Enabled(s, l) && l.Submit? {
      var t := Task(Queued, Unregistered);
      TotalAfterAccept(s.tasks, t, HoldingTask);
      TotalAfterAccept(s.tasks, t, MidwayTask);
      TotalAfterAccept(s.tasks, t, RunningTask);
    } else if Enabled(s, l) && !l.Shutdown? {
      var t := MovedTask(s.tasks[l.id], l);
      TotalAtLeast(s.tasks, l.id, MidwayTask);
      TotalAfterMove(s.tasks, l.id, t, HoldingTask);
      TotalAfterMove(s.tasks, l.id, t, MidwayTask);
      TotalAfterMove(s.tasks, l.id, t, RunningTask);
    }
  }

  lemma InitialConserves(maxWorkers: nat, maxPending: nat)
    ensures Conserved(Initial(maxWorkers, maxPending)) && HooksFollowPhases(Initial(maxWorkers, maxPending))
  {
  }

  lemma StepKeepsHooks(s: State, l: Label)
    requires HooksFollowPhases(s)
    ensures HooksFollowPhases(Step(s, l))
  {
    hide Total;
  }

  lemma RunStep(maxWorkers: nat, maxPending: nat, labels: seq<Label>, l: Label)
    ensures Run(maxWorkers, maxPending, labels + [l]) == Step(Run(maxWorkers, maxPending, labels), l)
  {
    assert (labels + [l])[..|labels|] == labels;
  }

  lemma {:induction false} RunConserves(maxWorkers: nat, maxPending: nat, labels: seq<Label>)
    ensures var s := Run(maxWorkers, maxPending, labels);
            Conserved(s) && HooksFollowPhases(s) && s.c.capacity == maxWorkers + maxPending && s.maxWorkers == maxWorkers
  {
    hide Step;
    if labels == [] {
      InitialConserves(maxWorkers, maxPending);
    } else {
      RunConserves(maxWorkers, maxPending, labels[..|labels| - 1]);
      StepConserves(Run(maxWorkers, maxPending, labels[..|labels| - 1]), labels[|labels| - 1]);
      StepKeepsHooks(Run(maxWorkers, maxPending, labels[..|labels| - 1]), labels[|labels| - 1]);
    }
  }

  // In every reachable state: free permits, in-flight work and releases caught between
  // their two steps add up to the capacity, work that has not ended never exceeds it,
  // and the bounded semaphore was never over-released.
  lemma PermitsAreConserved(maxWorkers: nat, maxPending: nat, labels: seq<Label>)
    ensures var s := Run(maxWorkers, maxPending, labels);
            && s.c.permits + s.c.inFlight + Total(s.tasks, MidwayTask) == maxWorkers + maxPending
            && Total(s.tasks, OutstandingTask) <= s.c.inFlight <= maxWorkers + maxPending
            && Total(s.tasks, RunningTask) <= maxWorkers && !s.overReleased
  {
    RunConserves(maxWorkers, maxPending, labels);
    TotalCompare(Run(maxWorkers, maxPending, labels).tasks, OutstandingTask, HoldingTask);
  }

  // Load is shed exactly when every permit is held by in-flight work or by a release that
  // has not reached its second step; the in-flight count alone does not decide it.
  lemma ShedExactlyWhenSaturated(maxWorkers: nat, maxPending: nat, labels: seq<Label>, poolAccepts: bool)
    ensures var s := Run(maxWorkers, maxPending, labels);
            Submitted(s.c, poolAccepts).1 == LoadShed
            <==> !s.c.closed && Total(s.tasks, HoldingTask) + Total(s.tasks, MidwayTask) == maxWorkers + maxPending
  {
    RunConserves(maxWorkers, maxPending, labels);
  }

  // What a submit comes to, by the work already accepted: an open executor with a permit to
  // spare takes the task if the pool does, and closes if the pool does not; a saturated one
  // sheds and counts; a closed one refuses.
  lemma SubmitComesTo(maxWorkers: nat, maxPending: nat, labels: seq<Label>, poolAccepts: bool)
    ensures var s := Run(maxWorkers, maxPending, labels);
            var t := Run(maxWorkers, maxPending, labels + [Submit(poolAccepts)]);
            var outstanding := Total(s.tasks, HoldingTask) + Total(s.tasks, MidwayTask);
            if s.c.closed then t == s.(refused := s.refused + 1)
            else if outstanding == maxWorkers + maxPending then t == s.(c := s.c.(rejected := s.c.rejected + 1))
            else if !poolAccepts then t == s.(c := s.c.(closed := true), refused := s.refused + 1)
            else t == s.(tasks := s.tasks + [Task(Queued, Unregistered)],
                         c := s.c.(permits := s.c.permits - 1, inFlight := s.c.inFlight + 1))
  {
    hide Run, Total;
    RunConserves(maxWorkers, maxPending, labels);
    RunStep(maxWorkers, maxPending, labels, Submit(poolAccepts));
  }

  // With one worker and no pending slots, a submit caught between the two release steps
  // is shed although nothing is in flight.
  lemma ShedWithNothingInFlight()
    ensures exists labels :: var s := Run(1, 0, labels);
              s.c.inFlight == 0 && Submitted(s.c, true).1 == LoadShed
  {
    hide Step, Submitted;
    var l1 := [Submit(true)];
    var l2 := l1 + [Register(0)];
    var l3 := l2 + [Start(0)];
    var l4 := l3 + [Finish(0)];
    RunStep(1, 0, [], Submit(true));
    assert [] + [Submit(true)] == l1;
    RunStep(1, 0, l1, Register(0));
    RunStep(1, 0, l2, Start(0));
    RunStep(1, 0, l3, Finish(0));
    RunStep(1, 0, l4, Decrement(0));
    OneTaskSteps();
  }

  // The only worker's only task, label by label.
  function Alone(free: int, inFlight: int, phase: Phase, hook: Hook): State {
    State(Counters(1, free, inFlight, 0, false), [Task(phase, hook)], 1, 0, false)
  }

  lemma OneTaskSteps()
    ensures Step(Initial(1, 0), Submit(true)) == Alone(0, 1, Queued, Unregistered)
    ensures Step(Alone(0, 1, Queued, Unregistered), Register(0)) == Alone(0, 1, Queued, Registered)
    ensures Step(Alone(0, 1, Queued, Registered), Start(0)) == Alone(0, 1, Running, Registered)
    ensures Step(Alone(0, 1, Running, Registered), Finish(0)) == Alone(0, 1, Finished, Registered)
    ensures Step(Alone(0, 1, Finished, Registered), Decrement(0)) == Alone(0, 0, Finished, Midway)
    ensures Submitted(Alone(0, 0, Finished, Midway).c, true).1 == LoadShed
  {
    assert Total([Task(Queued, Registered)][..0], RunningTask) == 0;
    assert Total([Task(Queued, Registered)], RunningTask) == 0;
  }

  // ------------------------------------------------------------------------------
  // Once each, and never after shutdown
  // ------------------------------------------------------------------------------

  // How often a label took effect.
  function TookEffect(maxWorkers: nat, maxPending: nat, labels: seq<Label>, l: Label): nat {
    if labels == [] then 0
    else
      var rest, last := labels[..|labels| - 1], labels[|labels| - 1];
      TookEffect(maxWorkers, maxPending, rest, l)
      + (if last == l && Enabled(Run(maxWorkers, maxPending, rest), l) then 1 else 0)
  }

  function Submits(labels: seq<Label>): nat {
    if labels == [] then 0
    else Submits(labels[..|labels| - 1]) + (if labels[|labels| - 1].Submit? then 1 else 0)
  }

  function Gave(s: State, id: TaskId, hooks: set<Hook>): nat {
    if id < |s.tasks| && s.tasks[id].hook in hooks then 1 else 0
  }

  // A release takes effect on a hook between its two steps, a decrement on one before them.
  lemma StepReleases(s: State, l: Label, id: TaskId)
    ensures Gave(Step(s, l), id, {Released}) == Gave(s, id, {Released}) + if l == Release(id) && Enabled(s, l) then 1 else 0
    ensures Gave(Step(s, l), id, {Midway, Released})
         == Gave(s, id, {Midway, Released}) + if l == Decrement(id) && Enabled(s, l) then 1 else 0
  {
  }

  // Every accepted task gives back its place and its permit exactly once: not before its
  // callback is through, and never twice.
  lemma {:induction false} ReleasedExactlyOnce(maxWorkers: nat, maxPending: nat, labels: seq<Label>, id: TaskId)
    ensures var s := Run(maxWorkers, maxPending, labels);
            && TookEffect(maxWorkers, maxPending, labels, Release(id))
               == (if id < |s.tasks| && s.tasks[id].hook == Released then 1 else 0)
            && TookEffect(maxWorkers, maxPending, labels, Decrement(id))
               == (if id < |s.tasks| && (s.tasks[id].hook == Midway || s.tasks[id].hook == Released) then 1 else 0)
  {
    hide Step, Enabled;
    if labels != [] {
      var rest, last := labels[..|labels| - 1], labels[|labels| - 1];
      ReleasedExactlyOnce(maxWorkers, maxPending, rest, id);
      StepReleases(Run(maxWorkers, maxPending, rest), last, id);
    }
  }

  // Every submit was accepted, shed or refused.
  lemma {:induction false} EverySubmitIsAccountedFor(maxWorkers: nat, maxPending: nat, labels: seq<Label>)
    ensures var s := Run(maxWorkers, maxPending, labels);
            Submits(labels) == |s.tasks| + s.c.rejected + s.refused
  {
    if labels != [] {
      EverySubmitIsAccountedFor(maxWorkers, maxPending, labels[..|labels| - 1]);
    }
  }

  // Once the pool is closed no task is ever accepted, whatever else happens.
  lemma {:induction false} NothingAcceptedAfterShutdown(maxWorkers: nat, maxPending: nat, labels: seq<Label>, more: seq<Label>)
    requires Run(maxWorkers, maxPending, labels).c.closed
    ensures var s := Run(maxWorkers, maxPending, labels + more);
            s.c.closed && |s.tasks| == |Run(maxWorkers, maxPending, labels).tasks|
  {
    if more == [] {
      assert labels + more == labels;
    } else {
      assert (labels + more)[..|labels + more| - 1] == labels + more[..|more| - 1];
      NothingAcceptedAfterShutdown(maxWorkers, maxPending, labels, more[..|more| - 1]);
    }
  }

  // ------------------------------------------------------------------------------
  // No permit gets stuck
  // ------------------------------------------------------------------------------

  function StepsLeft(t: Task): nat {
    (match t.phase case Queued => 2 case Running => 1 case Finished => 0) +
    (match t.hook case Unregistered => 3 case Registered => 2 case Midway => 1 case Released => 0)
  }

  lemma {:induction false} SomeRunning(tasks: seq<Task>) returns (id: nat)
    requires Total(tasks, RunningTask) > 0
    ensures id < |tasks| && tasks[id].phase == Running
  {
    id := |tasks| - 1;
    if tasks[id].phase != Running {
      id := SomeRunning(tasks[..|tasks| - 1]);
    }
  }

  lemma MoveFor(s: State, id: TaskId) returns (l: Label)
    requires HooksFollowPhases(s) && s.maxWorkers > 0 && id < |s.tasks| && s.tasks[id].hook != Released
    ensures !l.Submit? && !l.Shutdown? && Enabled(s, l)
  {
    var t := s.tasks[id];
    if t.hook == Midway {
      l := Release(id);
    } else if t.phase == Finished {
      l := if t.hook == Unregistered then Register(id) else Decrement(id);
    } else if t.phase == Running {
      l := Finish(id);
    } else if Total(s.tasks, RunningTask) < s.maxWorkers {
      l := Start(id);
    } else {
      var busy := SomeRunning(s.tasks);
      l := Finish(busy);
    }
  }

  lemma MoveIsProgress(s: State, l: Label)
    requires Enabled(s, l) && !l.Submit? && !l.Shutdown?
    ensures Total(Step(s, l).tasks, StepsLeft) < Total(s.tasks, StepsLeft)
  {
    TotalAfterMove(s.tasks, l.id, MovedTask(s.tasks[l.id], l), StepsLeft);
  }

  // From every reachable state the accepted work can be run down, by nothing but its own
  // steps, to a state where every permit is free again.
  lemma {:induction false} EveryPermitComesBack(maxWorkers: nat, maxPending: nat, labels: seq<Label>) returns (more: seq<Label>)
    requires maxWorkers > 0
    ensures forall i :: 0 <= i < |more| ==> !more[i].Submit? && !more[i].Shutdown?
    ensures var s := Run(maxWorkers, maxPending, labels + more);
            s.c.permits == maxWorkers + maxPending && s.c.inFlight == 0
    decreases Total(Run(maxWorkers, maxPending, labels).tasks, StepsLeft)
  {
    hide Total, Enabled, Step, MovedTask;
    var s := Run(maxWorkers, maxPending, labels);
    RunConserves(maxWorkers, maxPending, labels);
    if id :| 0 <= id < |s.tasks| && s.tasks[id].hook != Released {
      var l := MoveFor(s, id);
      RunStep(maxWorkers, maxPending, labels, l);
      MoveIsProgress(s, l);
      var rest := EveryPermitComesBack(maxWorkers, maxPending, labels + [l]);
      more := [l] + rest;
      assert labels + [l] + rest == labels + more;
    } else {
      more := [];
      assert labels + more == labels;
      NothingHeld(s.tasks);
    }
  }

  lemma {:induction false} NothingHeld(tasks: seq<Task>)
    requires forall i :: 0 <= i < |tasks| ==> tasks[i].hook == Released
    ensures Total(tasks, HoldingTask) == 0 && Total(tasks, MidwayTask) == 0
  {
    if tasks != [] {
      NothingHeld(tasks[..|tasks| - 1]);
    }
  }
}
