// Runs in which every trigger of the macro carries one `Queue(max)` or `DropIfRunning` policy.
module SchedulerQueue {
  import opened Domain
  import opened MacroState
  import opened SchedulerRuns

  /// Histories

  /** The triggers that were started or queued, in lock order. */
  function Accepted(log: seq<Event>): seq<Trigger> {
    if log == [] then [] else
    var (front, e) := (log[..|log| - 1], log[|log| - 1]);
    if e.Took? && (e.d == RunNow || e.d == Queued) then Accepted(front) + [e.t] else Accepted(front)
  }

  /** The work items whose workflow completed, in completion order. */
  function Done(log: seq<Event>): seq<Trigger> {
    if log == [] then [] else
    var (front, e) := (log[..|log| - 1], log[|log| - 1]);
    if e.Completed? then Done(front) + [e.t] else Done(front)
  }

  /** What a bounded queue owes the trigger that takes the lock when `unfinished` accepted ones are not done. */
  predicate BoundedQueueRule(d: Decision, unfinished: int, max: nat) {
    && (d == RunNow <==> unfinished == 0)
    && (d == Queued <==> 1 <= unfinished <= max)
    && (d == Dropped <==> unfinished == max + 1)
    && unfinished <= max + 1
  }

  predicate ObeysQueue(log: seq<Event>, max: nat) {
    forall i :: 0 <= i < |log| && log[i].Took? ==>
      BoundedQueueRule(log[i].d, |Accepted(log[..i])| - |Done(log[..i])|, max)
  }

  lemma ObeysSnoc(log: seq<Event>, e: Event, max: nat)
    requires ObeysQueue(log, max)
    requires e.Took? ==> BoundedQueueRule(e.d, |Accepted(log)| - |Done(log)|, max)
    ensures ObeysQueue(log + [e], max)
  {
    forall i | 0 <= i < |log + [e]| && (log + [e])[i].Took?
      ensures BoundedQueueRule((log + [e])[i].d, |Accepted((log + [e])[..i])| - |Done((log + [e])[..i])|, max)
    {
      assert (log + [e])[..i] == log[..i];
      assert i == |log| ==> log[..i] == log;
    }
  }

  lemma HistorySnoc(log: seq<Event>, e: Event)
    ensures Accepted(log + [e])
         == Accepted(log) + (if e.Took? && (e.d == RunNow || e.d == Queued) then [e.t] else [])
    ensures Done(log + [e]) == Done(log) + (if e.Completed? then [e.t] else [])
  {
    assert (log + [e])[..|log|] == log;
  }

  /// The invariant

  predicate QueueTask(task: Task, max: nat) {
    task == Requested(Queue(max)) || task.Running? || task.Finished?
  }

  predicate QueueInv(s: Sys, max: nat) {
    && Counted(s)
    && (forall t <- s.tasks :: QueueTask(s.tasks[t], max))
    && s.m.running <= 1
    && |s.m.queue| <= max
    && (s.m.running == 0 ==> Accepted(s.log) == Done(s.log))
    && (forall t <- s.tasks :: s.tasks[t].Running? ==>
         Accepted(s.log) == Done(s.log) + [s.tasks[t].work] + s.m.queue)
    && ObeysQueue(s.log, max)
  }

  lemma OnlyLive(s: Sys, t: Trigger, u: Trigger)
    requires Counted(s) && s.m.running <= 1
    requires t in Live(s.tasks) && u in Live(s.tasks)
    ensures t == u && s.m.running == 1
  {
    assert {t, u} <= Live(s.tasks);
    if t != u {
      assert |{t, u}| == 2;
      SubsetSize({t, u}, Live(s.tasks));
    } else {
      SubsetSize({t}, Live(s.tasks));
    }
  }

  lemma SubsetSize<T>(a: set<T>, b: set<T>)
    requires a <= b
    ensures |a| <= |b|
  {
    assert b == a + (b - a);
  }

  lemma QueueTake(s: Sys, t: Trigger, max: nat)
    requires QueueInv(s, max) && t in s.tasks && s.tasks[t] == Requested(Queue(max))
    ensures QueueInv(TakeLock(s, t, Queue(max)), max)
  {
    var e := Took(t, s.now, Enter(s.m, Queue(max), t, s.now).1);
    TakeCounted(s, t, Queue(max));
    HistorySnoc(s.log, e);
    QueueUnfinished(s, max);
    ObeysSnoc(s.log, e, max);
    assert forall u <- s.tasks :: s.tasks[u].Running? ==> u in Live(s.tasks);
  }

  lemma QueueUnfinished(s: Sys, max: nat)
    requires QueueInv(s, max)
    ensures |Accepted(s.log)| - |Done(s.log)| == Outstanding(s)
  {
    if s.m.running > 0 {
      var u :| u in Live(s.tasks);
      assert s.tasks[u].Running?;
    }
  }

  lemma QueueFinish(s: Sys, t: Trigger, max: nat)
    requires QueueInv(s, max) && t in s.tasks && s.tasks[t].Running?
    ensures QueueInv(FinishWork(s, t, s.tasks[t].work), max)
  {
    var s' := FinishWork(s, t, s.tasks[t].work);
    FinishCounted(s, t, s.tasks[t].work);
    HistorySnoc(s.log, s'.log[|s.log|]);
    ObeysSnoc(s.log, s'.log[|s.log|], max);
    forall u | u in s.tasks && s.tasks[u].Running?
      ensures u == t
    {
      assert u in Live(s.tasks) && t in Live(s.tasks);
      OnlyLive(s, t, u);
    }
  }

  lemma QueueStep(s: Sys, step: Step, max: nat)
    requires QueueInv(s, max)
    requires step.Request? ==> step.p == Queue(max)
    ensures QueueInv(Apply(s, step), max)
  {
    if Enabled(s, step) {
      if step.Take? {
        QueueTake(s, step.t, max);
      } else if step.Finish? {
        QueueFinish(s, step.t, max);
      } else {
        CountedStep(s, step);
      }
    }
  }

  lemma {:induction false} QueueAfter(steps: seq<Step>, max: nat)
    requires Uses(steps, Queue(max))
    ensures QueueInv(After(steps), max)
  {
    if steps == [] {
      assert Live(INIT.tasks) == {};
    } else {
      var front := steps[..|steps| - 1];
      assert Uses(front, Queue(max));
      QueueAfter(front, max);
      QueueStep(After(front), steps[|steps| - 1], max);
    }
  }

  /// Results

  /** Serialisation: at most one workflow runs, the queue stays within `max`, and completed work, the
      running work and the queue together are the accepted triggers in lock order. */
  lemma QueueIsFifo(steps: seq<Step>, max: nat)
    requires Uses(steps, Queue(max))
    ensures var s := After(steps);
      && |Live(s.tasks)| <= 1
      && |s.m.queue| <= max
      && (Live(s.tasks) == {} ==> Done(s.log) == Accepted(s.log))
      && (forall t <- Live(s.tasks) :: s.tasks[t].Running?
            && Done(s.log) + [s.tasks[t].work] + s.m.queue == Accepted(s.log))
  {
    QueueAfter(steps, max);
  }

  /** Read off the history alone: a trigger starts at once when nothing is unfinished, is queued while
      at most `max` are, and is dropped only when one runs and `max` wait. */
  lemma QueueDropsOnlyWhenFull(steps: seq<Step>, max: nat)
    requires Uses(steps, Queue(max))
    ensures ObeysQueue(After(steps).log, max)
  {
    QueueAfter(steps, max);
  }

  /// DropIfRunning behaves as a queue without room

  function AsQueue(task: Task): Task {
    if task == Requested(DropIfRunning) then Requested(Queue(0)) else task
  }

  function AsQueueStep(step: Step): Step {
    if step.Request? && step.p == DropIfRunning then Request(step.t, Queue(0)) else step
  }

  function AsQueueRun(steps: seq<Step>): seq<Step> {
    seq(|steps|, i requires 0 <= i < |steps| => AsQueueStep(steps[i]))
  }

  function AsQueueSys(s: Sys): Sys {
    s.(tasks := map t | t in s.tasks :: AsQueue(s.tasks[t]))
  }

  lemma AsQueuePut(s: Sys, t: Trigger, task: Task)
    ensures AsQueueSys(s.Put(t, task)) == AsQueueSys(s).Put(t, AsQueue(task))
  {
    assert AsQueueSys(s.Put(t, task)).tasks == AsQueueSys(s).Put(t, AsQueue(task)).tasks;
  }

  lemma DropTake(s: Sys, t: Trigger, p: Policy)
    requires t in s.tasks && s.tasks[t] == Requested(p) && QueueTask(AsQueue(s.tasks[t]), 0)
    requires s.m.queue == []
    ensures AsQueueSys(TakeLock(s, t, p)) == TakeLock(AsQueueSys(s), t, Queue(0))
  {
    assert Enter(s.m, p, t, s.now) == Enter(s.m, Queue(0), t, s.now);
    AsQueuePut(s, t, TaskAfter(t, s.now, Enter(s.m, p, t, s.now).1));
  }

  lemma DropStep(s: Sys, step: Step)
    requires s.m.queue == [] && forall t <- s.tasks :: QueueTask(AsQueue(s.tasks[t]), 0)
    requires step.Request? ==> step.p == DropIfRunning
    ensures AsQueueSys(Apply(s, step)) == Apply(AsQueueSys(s), AsQueueStep(step))
  {
    match step
    case Take(t) =>
      if Enabled(s, step) {
        DropTake(s, t, s.tasks[t].policy);
      }
    case Request(t, p) => AsQueuePut(s, t, Requested(p));
    case Finish(t) =>
      if Enabled(s, step) {
        AsQueuePut(s, t, FinishWork(s, t, s.tasks[t].work).tasks[t]);
      }
    case CancelNext(t) =>
    case Begin(t) =>
    case Wake(t) =>
    case CommitTimer(t) =>
    case SelfCancel(t) =>
    case Tick(nanos) =>
  }

  /** A run under `DropIfRunning` is step for step a run under `Queue(0)`: the same lock sections, the
      same history; so it runs one instance at a time and ignores exactly the triggers that find one. */
  lemma {:induction false} DropIsQueueWithoutRoom(steps: seq<Step>)
    requires Uses(steps, DropIfRunning)
    ensures AsQueueSys(After(steps)) == After(AsQueueRun(steps))
    ensures ObeysQueue(After(steps).log, 0)
  {
    var qs := AsQueueRun(steps);
    assert Uses(qs, Queue(0));
    QueueAfter(qs, 0);
    if steps == [] {
      assert AsQueueSys(INIT).tasks == INIT.tasks;
    } else {
      var front := steps[..|steps| - 1];
      DropIsQueueWithoutRoom(front);
      assert qs[..|qs| - 1] == AsQueueRun(front);
      QueueAfter(AsQueueRun(front), 0);
      var s := After(front);
      assert forall t <- s.tasks :: QueueTask(AsQueueSys(s).tasks[t], 0);
      DropStep(s, steps[|steps| - 1]);
    }
  }
}
