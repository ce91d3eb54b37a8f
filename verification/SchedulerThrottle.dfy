// Runs in which every trigger of the macro carries one `Throttle(ms)` policy.
module SchedulerThrottle {
  import opened Domain
  import opened MacroState
  import opened SchedulerRuns

  /// First-trigger-wins admission over a list of lock times

  function Last(xs: seq<nat>): nat
    requires xs != []
  {
    xs[|xs| - 1]
  }

  /** The times the policy admits, out of the times at which triggers took the lock. */
  function Admit(times: seq<nat>, ms: nat): seq<nat> {
    if times == [] then [] else
    var (starts, x) := (Admit(times[..|times| - 1], ms), Last(times));
    if starts == [] || ElapsedMillis(Last(starts), x) >= ms then starts + [x] else starts
  }

  predicate Sorted(xs: seq<nat>) {
    forall i, j :: 0 <= i < j < |xs| ==> xs[i] <= xs[j]
  }

  /** Neighbours are at least `ms` milliseconds apart. */
  predicate Separated(xs: seq<nat>, ms: nat) {
    forall i {:trigger xs[i]} :: 0 < i < |xs| ==> xs[i - 1] + ms * NANOS_PER_MILLI <= xs[i]
  }

  /** The entries of `times` picked by `mask`. */
  function Chosen(times: seq<nat>, mask: seq<bool>): seq<nat>
    requires |mask| == |times|
  {
    if times == [] then [] else
    var front := Chosen(times[..|times| - 1], mask[..|times| - 1]);
    if mask[|times| - 1] then front + [Last(times)] else front
  }

  /** Truncated milliseconds reach `ms` exactly when the nanoseconds do. */
  lemma ElapsedGap(earlier: nat, now: nat, ms: nat)
    requires earlier <= now
    ensures ElapsedMillis(earlier, now) >= ms <==> earlier + ms * NANOS_PER_MILLI <= now
  {
  }

  lemma {:induction false} AdmitSeparates(times: seq<nat>, ms: nat)
    requires Sorted(times)
    ensures Separated(Admit(times, ms), ms)
    ensures Admit(times, ms) != [] ==> Last(Admit(times, ms)) <= Last(times)
    ensures times != [] ==> Admit(times, ms) != []
  {
    hide ElapsedMillis;
    if times != [] {
      var starts := Admit(times[..|times| - 1], ms);
      AdmitSeparates(times[..|times| - 1], ms);
      if starts != [] {
        ElapsedGap(Last(starts), Last(times), ms);
      }
    }
  }

  lemma OneMore(n: nat, gap: nat)
    ensures (n + 1) * gap == n * gap + gap
  {
  }

  /** Each of `n` neighbours in a row adds the gap. */
  lemma {:induction false} SpanGrows(xs: seq<nat>, gap: nat, i: nat, n: nat)
    requires forall k {:trigger xs[k]} :: 0 < k < |xs| ==> xs[k - 1] + gap <= xs[k]
    requires i + n < |xs|
    ensures xs[i] + n * gap <= xs[i + n]
    decreases n
  {
    if n > 0 {
      SpanGrows(xs, gap, i, n - 1);
      var span := (n - 1) * gap;
      OneMore(n - 1, gap);
      assert xs[i + n - 1] + gap <= xs[i + n];
    }
  }

  lemma QuotientBound(n: nat, gap: nat, window: nat)
    requires gap > 0 && n * gap <= window
    ensures n <= window / gap
  {
    var q := window / gap;
    assert window < (q + 1) * gap;
  }

  lemma {:induction false} AdmitBeatsAnyChoice(times: seq<nat>, mask: seq<bool>, ms: nat)
    requires |mask| == |times| && Sorted(times) && Separated(Chosen(times, mask), ms)
    ensures |Chosen(times, mask)| <= |Admit(times, ms)|
    ensures |Chosen(times, mask)| == |Admit(times, ms)| > 0 ==>
      Last(Admit(times, ms)) <= Last(Chosen(times, mask))
  {
    hide ElapsedMillis, Separated, Sorted;
    if times != [] {
      var n := |times| - 1;
      var (ts, ks) := (times[..n], mask[..n]);
      var (chosen, starts) := (Chosen(ts, ks), Admit(ts, ms));
      SortedFront(times);
      if mask[n] {
        SeparatedFront(chosen, times[n], ms);
      }
      AdmitBeatsAnyChoice(ts, ks, ms);
      AdmitSeparates(ts, ms);
      AdmitSeparates(times, ms);
      if starts != [] {
        ElapsedGap(Last(starts), times[n], ms);
      }
    }
  }

  lemma SortedFront(xs: seq<nat>)
    requires Sorted(xs) && xs != []
    ensures Sorted(xs[..|xs| - 1]) && (|xs| > 1 ==> Last(xs[..|xs| - 1]) <= Last(xs))
  {
  }

  lemma SeparatedFront(xs: seq<nat>, x: nat, ms: nat)
    requires Separated(xs + [x], ms)
    ensures Separated(xs, ms) && (xs != [] ==> Last(xs) + ms * NANOS_PER_MILLI <= x)
  {
    var all := xs + [x];
    assert forall i {:trigger xs[i]} :: 0 <= i < |xs| ==> all[i] == xs[i];
    assert xs != [] ==> all[|xs| - 1] + ms * NANOS_PER_MILLI <= all[|xs|];
  }

  /// Runs

  /** When triggers took the lock. */
  function LockTimes(log: seq<Event>): seq<nat> {
    if log == [] then [] else
    var (front, e) := (log[..|log| - 1], log[|log| - 1]);
    if e.Took? then LockTimes(front) + [e.at] else LockTimes(front)
  }

  /** When instances were started. */
  function StartTimes(log: seq<Event>): seq<nat> {
    if log == [] then [] else
    var (front, e) := (log[..|log| - 1], log[|log| - 1]);
    if e.Took? && e.d == RunNow then StartTimes(front) + [e.at] else StartTimes(front)
  }

  lemma TimesSnoc(log: seq<Event>, e: Event)
    ensures LockTimes(log + [e]) == LockTimes(log) + (if e.Took? then [e.at] else [])
    ensures StartTimes(log + [e]) == StartTimes(log) + (if e.Took? && e.d == RunNow then [e.at] else [])
  {
    assert (log + [e])[..|log|] == log;
  }

  predicate ThrottleTask(task: Task, ms: nat) {
    task == Requested(Throttle(ms)) || task.Running? || task.Finished?
  }

  predicate ThrottleInv(s: Sys, ms: nat) {
    var (times, starts) := (LockTimes(s.log), StartTimes(s.log));
    && (forall t <- s.tasks :: ThrottleTask(s.tasks[t], ms))
    && Sorted(times)
    && (forall x <- times :: x <= s.now)
    && starts == Admit(times, ms)
    && s.m.lastFire == (if starts == [] then None else Some(Last(starts)))
  }

  lemma SortedSnoc(xs: seq<nat>, x: nat)
    requires Sorted(xs) && forall y <- xs :: y <= x
    ensures Sorted(xs + [x]) && forall y <- xs + [x] :: y <= x
  {
    assert forall i :: 0 <= i < |xs| ==> xs[i] in xs;
  }

  lemma AdmitSnoc(times: seq<nat>, x: nat, ms: nat)
    ensures var starts := Admit(times, ms);
      Admit(times + [x], ms)
        == if starts == [] || ElapsedMillis(Last(starts), x) >= ms then starts + [x] else starts
  {
    assert (times + [x])[..|times|] == times;
  }

  lemma ThrottleTake(s: Sys, t: Trigger, ms: nat)
    requires ThrottleInv(s, ms) && t in s.tasks && s.tasks[t] == Requested(Throttle(ms))
    ensures ThrottleInv(TakeLock(s, t, Throttle(ms)), ms)
  {
    hide Admit, LockTimes, StartTimes, Sorted, ElapsedMillis, ThrottleTask;
    TimesSnoc(s.log, Took(t, s.now, Enter(s.m, Throttle(ms), t, s.now).1));
    SortedSnoc(LockTimes(s.log), s.now);
    AdmitSnoc(LockTimes(s.log), s.now, ms);
    RunningTask(t, ms);
  }

  lemma RunningTask(t: Trigger, ms: nat)
    ensures ThrottleTask(Running(t), ms) && ThrottleTask(Finished, ms)
  {
  }

  lemma ThrottleStep(s: Sys, step: Step, ms: nat)
    requires ThrottleInv(s, ms)
    requires step.Request? ==> step.p == Throttle(ms)
    ensures ThrottleInv(Apply(s, step), ms)
  {
    hide Admit, LockTimes, StartTimes, Sorted, TakeLock;
    if Enabled(s, step) {
      if step.Take? {
        ThrottleTake(s, step.t, ms);
      } else if step.Finish? {
        TimesSnoc(s.log, Completed(s.tasks[step.t].work));
        assert LockTimes(s.log) + [] == LockTimes(s.log) && StartTimes(s.log) + [] == StartTimes(s.log);
      }
    }
  }

  lemma {:induction false} ThrottleAfter(steps: seq<Step>, ms: nat)
    requires Uses(steps, Throttle(ms))
    ensures ThrottleInv(After(steps), ms)
  {
    if steps != [] {
      var front := steps[..|steps| - 1];
      assert Uses(front, Throttle(ms));
      ThrottleAfter(front, ms);
      ThrottleStep(After(front), steps[|steps| - 1], ms);
    }
  }

  /** Two started instances, `j - i` apart in start order, are at least that many windows apart in time;
      so any span of `window` nanoseconds holds at most `window / gap + 1` starts. */
  lemma ThrottleRateBound(steps: seq<Step>, ms: nat, i: nat, j: nat, window: nat)
    requires Uses(steps, Throttle(ms)) && ms > 0
    requires i <= j < |StartTimes(After(steps).log)|
    ensures var starts := StartTimes(After(steps).log);
      && starts[i] + (j - i) * (ms * NANOS_PER_MILLI) <= starts[j]
      && (starts[j] - starts[i] <= window ==> j - i + 1 <= window / (ms * NANOS_PER_MILLI) + 1)
  {
    hide After, StartTimes, LockTimes, Admit;
    ThrottleAfter(steps, ms);
    AdmitSeparates(LockTimes(After(steps).log), ms);
    WindowBound(StartTimes(After(steps).log), ms * NANOS_PER_MILLI, i, j, window);
  }

  lemma WindowBound(xs: seq<nat>, gap: nat, i: nat, j: nat, window: nat)
    requires forall k {:trigger xs[k]} :: 0 < k < |xs| ==> xs[k - 1] + gap <= xs[k]
    requires gap > 0 && i <= j < |xs|
    ensures xs[i] + (j - i) * gap <= xs[j]
    ensures xs[j] - xs[i] <= window ==> j - i + 1 <= window / gap + 1
  {
    SpanGrows(xs, gap, i, j - i);
    if xs[j] - xs[i] <= window {
      QuotientBound(j - i, gap, window);
    }
  }

  /** No way of picking triggers that keeps the same distance starts more instances than the policy does. */
  lemma ThrottleIsMaximal(steps: seq<Step>, ms: nat, mask: seq<bool>)
    requires Uses(steps, Throttle(ms))
    requires |mask| == |LockTimes(After(steps).log)|
    requires Separated(Chosen(LockTimes(After(steps).log), mask), ms)
    ensures |Chosen(LockTimes(After(steps).log), mask)| <= |StartTimes(After(steps).log)|
  {
    ThrottleAfter(steps, ms);
    AdmitBeatsAnyChoice(LockTimes(After(steps).log), mask, ms);
  }
}
