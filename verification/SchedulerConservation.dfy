// Conservation of work: under any mix of policies no accepted trigger is lost, and none runs twice.
module SchedulerConservation {
  import opened Domain
  import opened MacroState
  import opened SchedulerRuns
  import SchedulerQueue

  /** The work that entered the scheduler: what was started, queued, or committed after its timer, in lock order. */
  function Entered(log: seq<Event>): seq<Trigger> {
    if log == [] then []
    else
      var (front, e) := (log[..|log| - 1], log[|log| - 1]);
      Entered(front) + if Enters(e) then [e.t] else []
  }

  predicate Enters(e: Event) {
    e.Committed? || (e.Took? && (e.d.RunNow? || e.d.Queued? || e.d.RestartAfter?))
  }

  function Count(xs: seq<Trigger>, x: Trigger): nat {
    multiset(xs)[x]
  }

  lemma CountNext(xs: seq<Trigger>, y: Trigger, x: Trigger)
    ensures Count(xs + [y], x) == Count([y] + xs, x) == Count(xs, x) + if x == y then 1 else 0
    ensures Count([], x) == 0
  {
  }

  /** One more event. */
  lemma LogNext(log: seq<Event>, e: Event, x: Trigger)
    ensures Count(Entered(log + [e]), x) == Count(Entered(log), x) + if Enters(e) && e.t == x then 1 else 0
    ensures Count(SchedulerQueue.Done(log + [e]), x)
         == Count(SchedulerQueue.Done(log), x) + if e.Completed? && e.t == x then 1 else 0
  {
    hide Count;
    SchedulerQueue.HistorySnoc(log, e);
    assert (log + [e])[..|log|] == log;
    CountNext(Entered(log), e.t, x);
    CountNext(SchedulerQueue.Done(log), e.t, x);
    assert forall xs: seq<Trigger> :: xs + [] == xs;
  }

  /** The task of `t` has work `x` in hand: its own before it begins, and what its execute loop runs. */
  predicate Carries(t: Trigger, task: Task, x: Trigger) {
    (task.Cancelling? && t == x) || (task.Running? && task.work == x)
  }

  function Carriers(tasks: map<Trigger, Task>, x: Trigger): set<Trigger> {
    set t | t in tasks && Carries(t, tasks[t], x)
  }

  function Load(t: Trigger, task: Task, x: Trigger): nat {
    if Carries(t, task, x) then 1 else 0
  }

  lemma CarriersPut(tasks: map<Trigger, Task>, t: Trigger, task: Task, x: Trigger)
    ensures |Carriers(tasks[t := task], x)| + (if t in tasks then Load(t, tasks[t], x) else 0)
         == |Carriers(tasks, x)| + Load(t, task, x)
  {
    var rest := Carriers(tasks, x) - {t};
    assert Carriers(tasks[t := task], x) == if Carries(t, task, x) then rest + {t} else rest;
    assert Carriers(tasks, x) == if t in tasks && Carries(t, tasks[t], x) then rest + {t} else rest;
  }

  /// The invariant

  /** What entered is completed, in some task's hands, or in the queue. */
  predicate Balanced(s: Sys, x: Trigger) {
    Count(Entered(s.log), x) == Count(SchedulerQueue.Done(s.log), x) + |Carriers(s.tasks, x)| + Count(s.m.queue, x)
  }

  /** A trigger enters once, when its own task takes the lock or commits. */
  predicate EntersOnce(s: Sys, x: Trigger) {
    && Count(Entered(s.log), x) <= 1
    && (x !in s.tasks || s.tasks[x].Requested? || s.tasks[x].Sleeping? || s.tasks[x].Committing? ==>
          Count(Entered(s.log), x) == 0)
  }

  predicate Conserved(s: Sys, x: Trigger) {
    Balanced(s, x) && EntersOnce(s, x)
  }

  lemma TakeConserves(s: Sys, t: Trigger, p: Policy, x: Trigger)
    requires Conserved(s, x) && t in s.tasks && s.tasks[t].Requested?
    ensures Conserved(TakeLock(s, t, p), x)
  {
    hide Count, Carriers, Entered, SchedulerQueue.Done;
    var (m, d) := Enter(s.m, p, t, s.now);
    CarriersPut(s.tasks, t, TaskAfter(t, s.now, d), x);
    LogNext(s.log, Took(t, s.now, d), x);
    CountNext(s.m.queue, t, x);
  }

  lemma FinishConserves(s: Sys, t: Trigger, x: Trigger)
    requires Conserved(s, x) && t in s.tasks && s.tasks[t].Running?
    ensures Conserved(FinishWork(s, t, s.tasks[t].work), x)
  {
    hide Count, Carriers, Entered, SchedulerQueue.Done, Retained;
    var (m, next) := Complete(s.m, s.cancelled);
    CarriersPut(s.tasks, t, if next.Some? then Running(next.value) else Finished, x);
    LogNext(s.log, Completed(s.tasks[t].work), x);
    if s.m.queue != [] {
      assert s.m.queue == [s.m.queue[0]] + m.queue;
      CountNext(m.queue, s.m.queue[0], x);
    }
  }

  lemma StepConserves(s: Sys, step: Step, x: Trigger)
    requires Conserved(s, x)
    ensures Conserved(Apply(s, step), x)
  {
    hide Count, Carriers, Entered, SchedulerQueue.Done, TakeLock, FinishWork;
    if Enabled(s, step) {
      match step
      case Take(t) => TakeConserves(s, t, s.tasks[t].policy, x);
      case Finish(t) => FinishConserves(s, t, x);
      case Request(t, p) => CarriersPut(s.tasks, t, Requested(p), x);
      case CancelNext(t) => CarriersPut(s.tasks, t, Cancelling(s.tasks[t].left[1..]), x);
      case Begin(t) => CarriersPut(s.tasks, t, Running(t), x);
      case Wake(t) =>
        CarriersPut(s.tasks, t, Finished, x);
        CarriersPut(s.tasks, t, Committing, x);
        LogNext(s.log, Aborted(t), x);
        LogNext(s.log, Passed(t), x);
      case CommitTimer(t) =>
        CarriersPut(s.tasks, t, Running(t), x);
        LogNext(s.log, Committed(t), x);
      case SelfCancel(_) =>
      case Tick(_) =>
    }
  }

  lemma {:induction false} ConservedAfter(steps: seq<Step>, x: Trigger)
    ensures Conserved(After(steps), x)
  {
    if steps == [] {
      assert Carriers(INIT.tasks, x) == {};
    } else {
      ConservedAfter(steps[..|steps| - 1], x);
      StepConserves(After(steps[..|steps| - 1]), steps[|steps| - 1], x);
    }
  }

  /// Results

  /** Under any mix of policies and in any interleaving, a trigger that entered stands in exactly one place, once: among
      the completed work, in the hands of one task, or in the queue; one that did not enter stands nowhere. */
  lemma WorkIsConserved(steps: seq<Step>, x: Trigger)
    ensures var s := After(steps);
      var (done, carried, queued) :=
        (Count(SchedulerQueue.Done(s.log), x), |Carriers(s.tasks, x)|, Count(s.m.queue, x));
      done + carried + queued == if x in Entered(s.log) then 1 else 0
  {
    ConservedAfter(steps, x);
  }

  /** So when the macro is idle, the completed triggers are exactly those that entered, each once. */
  lemma IdleMeansDone(steps: seq<Step>)
    requires Outstanding(After(steps)) == 0
    ensures multiset(SchedulerQueue.Done(After(steps).log)) == multiset(Entered(After(steps).log))
    ensures forall x :: multiset(Entered(After(steps).log))[x] <= 1
  {
    var s := After(steps);
    CountedAfter(steps);
    forall x: Trigger
      ensures multiset(SchedulerQueue.Done(s.log))[x] == multiset(Entered(s.log))[x] <= 1
    {
      ConservedAfter(steps, x);
      assert forall t <- Carriers(s.tasks, x) :: t in Live(s.tasks);
    }
  }
}
