// Interleavings of the tasks of one macro: every lock section is one step, and the cancel calls,
// the timer check and the workflow itself happen between sections.
module SchedulerRuns {
  import opened Domain
  import opened MacroState

  /** Where a trigger's task stands. `Cancelling` and `Running` are inside `apply_policy` after a
      positive decision, so they are counted by `running`. */
  datatype Task =
    | Requested(policy: Policy)
    | Cancelling(left: seq<Token>)
    | Sleeping(wake: nat)
    | Committing
    | Running(work: Trigger)
    | Finished

  /** What happened, in lock order. */
  datatype Event =
    | Took(t: Trigger, at: nat, d: Decision)
    | Passed(t: Trigger)
    | Aborted(t: Trigger)
    | Committed(t: Trigger)
    | Completed(t: Trigger)

  datatype Sys = Sys(m: State, cancelled: set<Token>, now: nat, tasks: map<Trigger, Task>, log: seq<Event>)
  {
    function Put(t: Trigger, task: Task): Sys {
      this.(tasks := tasks[t := task])
    }

    function Note(e: Event): Sys {
      this.(log := log + [e])
    }
  }

  const INIT := Sys(FRESH, {}, 0, map[], [])

  datatype Step =
    | Request(t: Trigger, p: Policy)
    | Take(t: Trigger)
    | CancelNext(t: Trigger)
    | Begin(t: Trigger)
    | Wake(t: Trigger)
    | CommitTimer(t: Trigger)
    | SelfCancel(t: Trigger)
    | Finish(t: Trigger)
    | Tick(nanos: nat)

  predicate Enabled(s: Sys, step: Step) {
    match step
    case Request(t, p) => t !in s.tasks
    case Take(t) => t in s.tasks && s.tasks[t].Requested?
    case CancelNext(t) => t in s.tasks && s.tasks[t].Cancelling? && s.tasks[t].left != []
    case Begin(t) => t in s.tasks && s.tasks[t] == Cancelling([])
    case Wake(t) => t in s.tasks && s.tasks[t].Sleeping? && s.tasks[t].wake <= s.now
    case CommitTimer(t) => t in s.tasks && s.tasks[t].Committing?
    case SelfCancel(t) => t in s.tasks && s.tasks[t].Running?
    case Finish(t) => t in s.tasks && s.tasks[t].Running?
    case Tick(nanos) => true
  }

  function TaskAfter(t: Trigger, now: nat, d: Decision): Task {
    match d
    case RunNow => Running(t)
    case Queued => Finished
    case Dropped => Finished
    case RestartAfter(toCancel) => Cancelling(toCancel)
    case SleepFor(ms) => Sleeping(now + ms * NANOS_PER_MILLI)
  }

  function TakeLock(s: Sys, t: Trigger, p: Policy): Sys {
    var (m, d) := Enter(s.m, p, t, s.now);
    Sys(m, s.cancelled + CancelledByEnter(s.m, p), s.now,
        s.tasks[t := TaskAfter(t, s.now, d)], s.log + [Took(t, s.now, d)])
  }

  function FinishWork(s: Sys, t: Trigger, work: Trigger): Sys {
    var (m, next) := Complete(s.m, s.cancelled);
    Sys(m, s.cancelled, s.now,
        s.tasks[t := if next.Some? then Running(next.value) else Finished], s.log + [Completed(work)])
  }

  /** One atomic step; a step that is not enabled changes nothing. */
  function Apply(s: Sys, step: Step): Sys {
    if !Enabled(s, step) then s else
    match step
    case Request(t, p) => s.Put(t, Requested(p))
    case Take(t) => TakeLock(s, t, s.tasks[t].policy)
    case CancelNext(t) =>
      s.(cancelled := s.cancelled + {s.tasks[t].left[0]}).Put(t, Cancelling(s.tasks[t].left[1..]))
    case Begin(t) => s.Put(t, Running(t))
    case Wake(t) =>
      if Timer(t) in s.cancelled
      then s.Put(t, Finished).Note(Aborted(t))
      else s.Put(t, Committing).Note(Passed(t))
    case CommitTimer(t) => s.(m := Commit(s.m)).Put(t, Running(t)).Note(Committed(t))
    case SelfCancel(t) => s.(cancelled := s.cancelled + {Run(s.tasks[t].work)})
    case Finish(t) => FinishWork(s, t, s.tasks[t].work)
    case Tick(nanos) => s.(now := s.now + nanos)
  }

  /** The state an arbitrary interleaving `steps` leads to from `s`. */
  function From(s: Sys, steps: seq<Step>): Sys {
    if steps == [] then s else Apply(From(s, steps[..|steps| - 1]), steps[|steps| - 1])
  }

  function After(steps: seq<Step>): Sys {
    From(INIT, steps)
  }

  /** Every trigger of the run carries policy `p`. */
  predicate Uses(steps: seq<Step>, p: Policy) {
    forall step <- steps :: step.Request? ==> step.p == p
  }

  /// `running` counts the execute loops

  predicate InFlight(task: Task) {
    task.Cancelling? || task.Running?
  }

  function Live(tasks: map<Trigger, Task>): set<Trigger> {
    set t | t in tasks && InFlight(tasks[t])
  }

  function Weight(task: Task): nat {
    if InFlight(task) then 1 else 0
  }

  lemma LivePut(tasks: map<Trigger, Task>, t: Trigger, task: Task)
    ensures |Live(tasks[t := task])| + (if t in tasks then Weight(tasks[t]) else 0)
         == |Live(tasks)| + Weight(task)
    ensures t in tasks && InFlight(tasks[t]) ==> |Live(tasks)| >= 1
  {
    var rest := Live(tasks) - {t};
    assert Live(tasks[t := task]) == if InFlight(task) then rest + {t} else rest;
    assert Live(tasks) == if t in tasks && InFlight(tasks[t]) then rest + {t} else rest;
  }

  predicate Counted(s: Sys) {
    && s.m.running == |Live(s.tasks)|
    && (s.m.queue != [] ==> s.m.running >= 1)
  }

  lemma TakeCounted(s: Sys, t: Trigger, p: Policy)
    requires Counted(s) && t in s.tasks && s.tasks[t].Requested?
    ensures Counted(TakeLock(s, t, p))
  {
    var (m, d) := Enter(s.m, p, t, s.now);
    LivePut(s.tasks, t, TaskAfter(t, s.now, d));
  }

  lemma FinishCounted(s: Sys, t: Trigger, work: Trigger)
    requires Counted(s) && t in s.tasks && s.tasks[t].Running?
    ensures s.m.running >= 1
    ensures Counted(FinishWork(s, t, work))
  {
    var (m, next) := Complete(s.m, s.cancelled);
    LivePut(s.tasks, t, if next.Some? then Running(next.value) else Finished);
  }

  lemma CountedStep(s: Sys, step: Step)
    requires Counted(s)
    ensures Counted(Apply(s, step))
  {
    if Enabled(s, step) {
      match step
      case Take(t) => TakeCounted(s, t, s.tasks[t].policy);
      case Finish(t) => FinishCounted(s, t, s.tasks[t].work);
      case Request(t, p) => LivePut(s.tasks, t, Requested(p));
      case CancelNext(t) => LivePut(s.tasks, t, Cancelling(s.tasks[t].left[1..]));
      case Begin(t) => LivePut(s.tasks, t, Running(t));
      case Wake(t) => LivePut(s.tasks, t, Finished); LivePut(s.tasks, t, Committing);
      case CommitTimer(t) => LivePut(s.tasks, t, Running(t));
      case SelfCancel(t) =>
      case Tick(nanos) =>
    }
  }

  /** Under any mix of policies and any interleaving, `running` is the number of execute loops in
      flight, and queued work always has one of them to pop it. */
  lemma RunningCountsLoops(steps: seq<Step>)
    ensures var s := After(steps);
      s.m.running == |Live(s.tasks)| && (s.m.queue != [] ==> Live(s.tasks) != {})
  {
    CountedAfter(steps);
  }

  lemma {:induction false} CountedAfter(steps: seq<Step>)
    ensures Counted(After(steps))
  {
    if steps == [] {
      assert Live(INIT.tasks) == {};
    } else {
      CountedAfter(steps[..|steps| - 1]);
      CountedStep(After(steps[..|steps| - 1]), steps[|steps| - 1]);
    }
  }

  /** The saturating decrement of a completing workflow never meets a zero. */
  lemma DecrementNeverSaturates(steps: seq<Step>, t: Trigger)
    requires Enabled(After(steps), Finish(t))
    ensures After(steps).m.running >= 1
  {
    CountedAfter(steps);
    assert t in Live(After(steps).tasks);
  }

  /// Draining

  function Outstanding(s: Sys): nat {
    s.m.running + |s.m.queue|
  }

  /** Steps that bring in no new work: completions, cancellations and the clock. */
  predicate Drains(steps: seq<Step>) {
    forall step <- steps :: step.CancelNext? || step.Begin? || step.SelfCancel? || step.Finish? || step.Tick?
  }

  /** The number of workflows that complete while `steps` run from `s`. */
  function Completions(s: Sys, steps: seq<Step>): nat {
    if steps == [] then 0 else
    var (front, last) := (steps[..|steps| - 1], steps[|steps| - 1]);
    Completions(s, front) + if last.Finish? && Enabled(From(s, front), last) then 1 else 0
  }

  lemma {:induction false} DrainFrom(s: Sys, steps: seq<Step>)
    requires Counted(s) && Drains(steps)
    ensures Counted(From(s, steps))
    ensures Outstanding(From(s, steps)) + Completions(s, steps) == Outstanding(s)
  {
    if steps != [] {
      var (front, last) := (steps[..|steps| - 1], steps[|steps| - 1]);
      DrainFrom(s, front);
      CountedStep(From(s, front), last);
      if last.Finish? && Enabled(From(s, front), last) {
        FinishCounted(From(s, front), last.t, last.t);
      }
    }
  }

  /** From any reachable state, each completion lowers `running + |queue|` by exactly one: as many
      completions as there is outstanding work leave the macro idle with an empty queue, and not before. */
  lemma DrainsExactly(steps: seq<Step>, tail: seq<Step>)
    requires Drains(tail)
    ensures var s, s' := After(steps), From(After(steps), tail);
      && Completions(s, tail) <= Outstanding(s)
      && Outstanding(s') == Outstanding(s) - Completions(s, tail)
      && (Completions(s, tail) == Outstanding(s) <==> s'.m.running == 0 && s'.m.queue == [])
  {
    CountedAfter(steps);
    DrainFrom(After(steps), tail);
  }

  /** While work is outstanding some task can step, without a new trigger and without the clock. */
  lemma OutstandingWorkCanStep(steps: seq<Step>)
    requires Outstanding(After(steps)) > 0
    ensures exists step :: Drains([step]) && !step.Tick? && Enabled(After(steps), step)
  {
    var s := After(steps);
    CountedAfter(steps);
    assert Live(s.tasks) != {};
    var t :| t in Live(s.tasks);
    var step := if s.tasks[t].Running? then Finish(t)
                else if s.tasks[t].left == [] then Begin(t) else CancelNext(t);
    assert Drains([step]) && Enabled(s, step);
  }
}
