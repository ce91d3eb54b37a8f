// Runs in which every trigger of the macro carries `RestartIfRunning`.
module SchedulerRestart {
  import opened Domain
  import opened MacroState
  import opened SchedulerRuns

  /** The last trigger to have passed its first lock section. */
  function LastTook(log: seq<Event>): Option<Trigger> {
    if log == [] then None else
    var (front, e) := (log[..|log| - 1], log[|log| - 1]);
    if e.Took? then Some(e.t) else LastTook(front)
  }

  lemma LastTookSnoc(log: seq<Event>, e: Event)
    ensures LastTook(log + [e]) == if e.Took? then Some(e.t) else LastTook(log)
  {
    assert (log + [e])[..|log|] == log;
  }

  /** Some task drained this token under the lock and has yet to cancel it. */
  predicate Pending(s: Sys, token: Token) {
    exists u <- s.tasks :: s.tasks[u].Cancelling? && token in s.tasks[u].left
  }

  predicate Doomed(s: Sys, token: Token) {
    token in s.cancelled || Pending(s, token)
  }

  predicate RestartTask(t: Trigger, task: Task) {
    task == Requested(RestartIfRunning) || task.Cancelling? || task == Running(t) || task.Finished?
  }

  predicate RestartInv(s: Sys) {
    && (forall t <- s.tasks :: RestartTask(t, s.tasks[t]))
    && s.m.queue == []
    && (s.m.activeCancels != [] ==> LastTook(s.log).Some? && s.m.activeCancels == [Run(LastTook(s.log).value)])
    && (forall t <- s.tasks :: InFlight(s.tasks[t]) ==> Doomed(s, Run(t)) || s.m.activeCancels == [Run(t)])
  }

  /** A token stays doomed when a task's list of victims loses at most its just-cancelled head. */
  lemma DoomedPut(s: Sys, s': Sys, t: Trigger, token: Token)
    requires Doomed(s, token) && t in s.tasks && t in s'.tasks
    requires s'.tasks == s.tasks[t := s'.tasks[t]] && s.cancelled <= s'.cancelled
    requires s.tasks[t].Cancelling? ==>
      forall x <- s.tasks[t].left :: x in s'.cancelled || (s'.tasks[t].Cancelling? && x in s'.tasks[t].left)
    ensures Doomed(s', token)
  {
    if token !in s.cancelled {
      var u :| u in s.tasks && s.tasks[u].Cancelling? && token in s.tasks[u].left;
      if u != t {
        assert s'.tasks[u] == s.tasks[u];
      }
    }
  }

  lemma RestartTake(s: Sys, t: Trigger)
    requires RestartInv(s) && t in s.tasks && s.tasks[t] == Requested(RestartIfRunning)
    ensures RestartInv(TakeLock(s, t, RestartIfRunning))
  {
    var s' := TakeLock(s, t, RestartIfRunning);
    LastTookSnoc(s.log, s'.log[|s.log|]);
    forall u | u in s'.tasks && InFlight(s'.tasks[u]) && u != t
      ensures Doomed(s', Run(u))
    {
      if Doomed(s, Run(u)) {
        DoomedPut(s, s', t, Run(u));
      } else {
        assert Run(u) in s'.tasks[t].left;
      }
    }
  }

  lemma RestartFinish(s: Sys, t: Trigger)
    requires RestartInv(s) && t in s.tasks && s.tasks[t].Running?
    ensures RestartInv(FinishWork(s, t, t))
  {
    var s' := FinishWork(s, t, t);
    LastTookSnoc(s.log, Completed(t));
    forall u | u in s'.tasks && InFlight(s'.tasks[u])
      ensures Doomed(s', Run(u)) || s'.m.activeCancels == [Run(u)]
    {
      if Doomed(s, Run(u)) {
        DoomedPut(s, s', t, Run(u));
      } else {
        assert s.m.activeCancels == [Run(u)] && Run(u) !in s.cancelled;
      }
    }
  }

  lemma RestartStep(s: Sys, step: Step)
    requires RestartInv(s)
    requires step.Request? ==> step.p == RestartIfRunning
    ensures RestartInv(Apply(s, step))
  {
    if Enabled(s, step) {
      if step.Take? {
        RestartTake(s, step.t);
      } else if step.Finish? {
        RestartFinish(s, step.t);
      } else if step.Request? || step.Tick? {
        RestartQuiet(s, step);
      } else {
        RestartCancel(s, step);
      }
    }
  }

  lemma RestartQuiet(s: Sys, step: Step)
    requires RestartInv(s) && Enabled(s, step)
    requires step.Tick? || (step.Request? && step.p == RestartIfRunning)
    ensures RestartInv(Apply(s, step))
  {
    var s' := Apply(s, step);
    forall u | u in s'.tasks && InFlight(s'.tasks[u]) && Doomed(s, Run(u))
      ensures Doomed(s', Run(u))
    {
      if Run(u) !in s.cancelled {
        var v :| v in s.tasks && s.tasks[v].Cancelling? && Run(u) in s.tasks[v].left;
        assert s'.tasks[v] == s.tasks[v];
      }
    }
  }

  lemma RestartCancel(s: Sys, step: Step)
    requires RestartInv(s) && Enabled(s, step)
    requires step.CancelNext? || step.Begin? || step.SelfCancel? || step.Wake? || step.CommitTimer?
    ensures RestartInv(Apply(s, step))
  {
    var s' := Apply(s, step);
    forall u | u in s'.tasks && InFlight(s'.tasks[u]) && Doomed(s, Run(u))
      ensures Doomed(s', Run(u))
    {
      DoomedPut(s, s', step.t, Run(u));
    }
  }

  lemma {:induction false} RestartAfterInv(steps: seq<Step>)
    requires Uses(steps, RestartIfRunning)
    ensures RestartInv(After(steps))
  {
    if steps != [] {
      var front := steps[..|steps| - 1];
      assert Uses(front, RestartIfRunning);
      RestartAfterInv(front);
      RestartStep(After(front), steps[|steps| - 1]);
    }
  }

  /** In every reachable state at most one instance in flight is neither cancelled nor about to be, and
      it is the last one to have taken the lock; the macro holds at most one token. */
  lemma RestartKeepsOnlyTheLatest(steps: seq<Step>)
    requires Uses(steps, RestartIfRunning)
    ensures var s := After(steps);
      && |s.m.activeCancels| <= 1
      && forall t <- Live(s.tasks) :: !Doomed(s, Run(t)) ==> LastTook(s.log) == Some(t)
  {
    RestartAfterInv(steps);
  }

  /** Once no task has cancel calls left to make, every instance in flight but the latest is cancelled. */
  lemma OlderInstancesAreCancelled(steps: seq<Step>, t: Trigger)
    requires Uses(steps, RestartIfRunning)
    requires forall u <- After(steps).tasks ::
               After(steps).tasks[u].Cancelling? ==> After(steps).tasks[u].left == []
    requires t in Live(After(steps).tasks) && LastTook(After(steps).log) != Some(t)
    ensures Run(t) in After(steps).cancelled
  {
    RestartKeepsOnlyTheLatest(steps);
  }
}
