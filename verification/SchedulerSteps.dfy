// What each lock section does to a trigger, in any interleaving and under any mix of policies.
module SchedulerSteps {
  import opened Domain
  import opened MacroState
  import opened SchedulerRuns

  lemma AfterNext(steps: seq<Step>, step: Step)
    ensures After(steps + [step]) == Apply(After(steps), step)
  {
    assert (steps + [step])[..|steps|] == steps;
  }

  /** The clock has passed the last throttled start. */
  predicate FiredInPast(s: Sys) {
    s.m.lastFire.Some? ==> s.m.lastFire.value <= s.now
  }

  lemma {:induction false} FiredInPastAfter(steps: seq<Step>)
    ensures FiredInPast(After(steps))
  {
    if steps != [] {
      FiredInPastAfter(steps[..|steps| - 1]);
    }
  }

  /// The first section

  /** The section has decided `d`: it leaves the task of `t` at `task` and the state `m`, and touches no other task. */
  predicate Decided(s: Sys, s': Sys, t: Trigger, d: Decision, task: Task, m: State) {
    && s'.tasks == s.tasks[t := task] && s'.m == m && s'.now == s.now
    && s'.log == s.log + [Took(t, s.now, d)]
  }

  /** The trigger executes: one more instance runs. */
  predicate Executes(s: Sys, s': Sys, t: Trigger, lastFire: Option<nat>) {
    Decided(s, s', t, RunNow, Running(t), s.m.(running := |Live(s.tasks)| + 1, lastFire := lastFire))
  }

  predicate IsDropped(s: Sys, s': Sys, t: Trigger) {
    Decided(s, s', t, Dropped, Finished, s.m)
  }

  /** What the first section owes a trigger, by its policy and by what is in flight when it takes the lock. */
  predicate FirstSection(s: Sys, s': Sys, t: Trigger, p: Policy) {
    match p
    case RunParallel => Executes(s, s', t, s.m.lastFire)
    case DropIfRunning => if Live(s.tasks) == {} then Executes(s, s', t, s.m.lastFire) else IsDropped(s, s', t)
    case Queue(max) =>
      if Live(s.tasks) == {} then Executes(s, s', t, s.m.lastFire)
      else if |s.m.queue| < max then Decided(s, s', t, Queued, Finished, s.m.(queue := s.m.queue + [t]))
      else IsDropped(s, s', t)
    case RestartIfRunning =>
      Decided(s, s', t, RestartAfter(s.m.activeCancels), Cancelling(s.m.activeCancels),
              s.m.(running := |Live(s.tasks)| + 1, activeCancels := [Run(t)]))
    case Debounce(ms) =>
      Decided(s, s', t, SleepFor(ms), Sleeping(s.now + ms * 1_000_000), s.m.(debounceCancel := Some(Timer(t))))
    case Throttle(ms) =>
      if s.m.lastFire.None? || s.m.lastFire.value + ms * 1_000_000 <= s.now then Executes(s, s', t, Some(s.now))
      else IsDropped(s, s', t)
  }

  /** A debounced trigger cancels the timer that was stored; no other first section sets a token. */
  predicate TokensAfter(s: Sys, s': Sys, p: Policy) {
    s'.cancelled == s.cancelled
      + if p.Debounce? && s.m.debounceCancel.Some? then {s.m.debounceCancel.value} else {}
  }

  lemma WholeMillis(last: nat, now: nat, ms: nat)
    requires last <= now
    ensures ElapsedMillis(last, now) >= ms <==> last + ms * 1_000_000 <= now
  {
    var (d, q) := (now - last, (now - last) / 1_000_000);
    assert q * 1_000_000 <= d < (q + 1) * 1_000_000;
    if q >= ms {
      assert ms * 1_000_000 <= q * 1_000_000;
    } else {
      assert (q + 1) * 1_000_000 <= ms * 1_000_000;
    }
  }

  /** A parallel trigger always executes; the others start, wait or are dropped as their policy says. */
  lemma FirstSectionMeans(steps: seq<Step>, t: Trigger)
    requires t in After(steps).tasks && After(steps).tasks[t].Requested?
    ensures var (s, s') := (After(steps), After(steps + [Take(t)]));
      FirstSection(s, s', t, s.tasks[t].policy) && TokensAfter(s, s', s.tasks[t].policy)
  {
    var s := After(steps);
    AfterNext(steps, Take(t));
    CountedAfter(steps);
    FiredInPastAfter(steps);
    LiveEmpty(s.tasks);
    if s.tasks[t].policy.Throttle? && s.m.lastFire.Some? {
      WholeMillis(s.m.lastFire.value, s.now, s.tasks[t].policy.ms);
    }
  }

  lemma LiveEmpty(tasks: map<Trigger, Task>)
    ensures Live(tasks) == {} <==> |Live(tasks)| == 0
  {
  }

  /// The later sections

  /** When the timer of a debounced trigger has run out, the trigger goes on to commit exactly if its token is unset. */
  lemma WakeMeans(steps: seq<Step>, t: Trigger)
    requires Enabled(After(steps), Wake(t))
    ensures var (s, s') := (After(steps), After(steps + [Wake(t)]));
      && s'.m == s.m && s.tasks[t].wake <= s.now
      && (if Timer(t) in s.cancelled then s'.tasks[t] == Finished && s'.log == s.log + [Aborted(t)]
          else s'.tasks[t] == Committing && s'.log == s.log + [Passed(t)])
  {
    AfterNext(steps, Wake(t));
  }

  /** A commit clears whatever timer is stored and executes the trigger. */
  lemma CommitMeans(steps: seq<Step>, t: Trigger)
    requires Enabled(After(steps), CommitTimer(t))
    ensures var (s, s') := (After(steps), After(steps + [CommitTimer(t)]));
      && s'.tasks == s.tasks[t := Running(t)] && s'.log == s.log + [Committed(t)]
      && s'.m == s.m.(debounceCancel := None, running := |Live(s.tasks)| + 1)
  {
    AfterNext(steps, CommitTimer(t));
    CountedAfter(steps);
  }

  /** A restarted trigger cancels the instances before it one by one, in order, and executes behind the last. */
  lemma CancelMeans(steps: seq<Step>, t: Trigger)
    requires t in After(steps).tasks && After(steps).tasks[t].Cancelling?
    ensures var (s, left) := (After(steps), After(steps).tasks[t].left);
      if left == [] then After(steps + [Begin(t)]) == s.(tasks := s.tasks[t := Running(t)])
      else After(steps + [CancelNext(t)])
             == s.(tasks := s.tasks[t := Cancelling(left[1..])], cancelled := s.cancelled + {left[0]})
  {
    AfterNext(steps, Begin(t));
    AfterNext(steps, CancelNext(t));
  }

  /** `kept` are the tokens that are not cancelled, as often as they stand in `tokens`. */
  predicate Unset(kept: seq<Token>, tokens: seq<Token>, cancelled: set<Token>) {
    forall x <- kept + tokens :: multiset(kept)[x] == if x in cancelled then 0 else multiset(tokens)[x]
  }

  lemma {:induction false} RetainedUnset(tokens: seq<Token>, cancelled: set<Token>, x: Token)
    ensures multiset(Retained(tokens, cancelled))[x] == if x in cancelled then 0 else multiset(tokens)[x]
  {
    if tokens != [] {
      RetainedUnset(tokens[1..], cancelled, x);
      assert tokens == [tokens[0]] + tokens[1..];
    }
  }

  /** A finished workflow is recorded; the task goes on with the head of the queue, if there is one, and then as many
      run as before, else one fewer. Tokens that are set are forgotten. */
  lemma CompletionMeans(steps: seq<Step>, t: Trigger)
    requires t in After(steps).tasks && After(steps).tasks[t].Running?
    ensures var (s, s') := (After(steps), After(steps + [Finish(t)]));
      var kept := s'.m.activeCancels;
      && s'.log == s.log + [Completed(s.tasks[t].work)] && Unset(kept, s.m.activeCancels, s.cancelled)
      && s'.cancelled == s.cancelled
      && (if s.m.queue == [] then
            && s'.tasks == s.tasks[t := Finished]
            && s'.m == s.m.(running := |Live(s'.tasks)|, activeCancels := kept)
            && |Live(s'.tasks)| + 1 == |Live(s.tasks)|
          else
            && s'.tasks == s.tasks[t := Running(s.m.queue[0])]
            && s'.m == s.m.(queue := s.m.queue[1..], activeCancels := kept))
  {
    var s := After(steps);
    AfterNext(steps, Finish(t));
    CountedAfter(steps);
    CountedAfter(steps + [Finish(t)]);
    assert t in Live(s.tasks);
    LivePut(s.tasks, t, Finished);
    forall x: Token
      ensures multiset(Retained(s.m.activeCancels, s.cancelled))[x]
           == if x in s.cancelled then 0 else multiset(s.m.activeCancels)[x]
    {
      RetainedUnset(s.m.activeCancels, s.cancelled, x);
    }
  }
}
