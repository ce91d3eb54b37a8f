// Runs in which every trigger of the macro carries one `Debounce(ms)` policy. The timer check and the
// lock section that commits are separate steps, as in the source, so a trigger can land between them.
module SchedulerDebounce {
  import opened Domain
  import opened MacroState
  import opened SchedulerRuns

  /// Histories

  ghost predicate TookAt(log: seq<Event>, j: int, t: Trigger) {
    0 <= j < |log| && log[j].Took? && log[j].t == t
  }

  /** A lock section that overwrites the stored timer token. */
  ghost predicate Overwrites(e: Event) {
    e.Took? || e.Committed?
  }

  /** Between positions `j` and `k` nobody overwrote the stored token. */
  ghost predicate Quiet(log: seq<Event>, j: int, k: int)
    requires 0 <= j <= k <= |log|
  {
    forall x :: j < x < k ==> !Overwrites(log[x])
  }

  /** The first overwrite after `j` and before `i` is a later trigger, which then cancelled this timer. */
  ghost predicate Superseded(log: seq<Event>, j: int, i: int)
    requires 0 <= j <= i <= |log|
  {
    exists k :: j < k < i && log[k].Took? && Quiet(log, j, k)
  }

  /** The documented condition: some later trigger took the lock before position `i`. */
  ghost predicate LaterTrigger(log: seq<Event>, j: int, i: int)
    requires 0 <= j <= i <= |log|
  {
    exists k :: j < k < i && log[k].Took?
  }

  /** Another timer committed after `j` and before any later trigger, while a trigger followed before `i`. */
  ghost predicate Orphaned(log: seq<Event>, j: int, i: int)
    requires 0 <= j <= i <= |log|
  {
    && LaterTrigger(log, j, i)
    && exists c :: j < c < i && log[c].Committed? && Quiet(log, j, c)
  }

  ghost predicate Decides(e: Event) {
    e.Passed? || e.Aborted?
  }

  /** Every timer check finds the timer cancelled exactly if it was superseded. */
  ghost predicate DecidesBySupersession(log: seq<Event>) {
    forall i :: 0 <= i < |log| && Decides(log[i]) ==>
      exists j :: j < i && TookAt(log, j, log[i].t) && (log[i].Aborted? <==> Superseded(log, j, i))
  }

  /** The documented rule: a timer check fails exactly if a later trigger took the lock before it. */
  ghost predicate DecidesByLastTrigger(log: seq<Event>) {
    forall i :: 0 <= i < |log| && Decides(log[i]) ==>
      exists j :: j < i && TookAt(log, j, log[i].t) && (log[i].Aborted? <==> LaterTrigger(log, j, i))
  }

  /** Every execution starts with no later trigger behind it. */
  ghost predicate CommitsOnlyLast(log: seq<Event>) {
    forall i :: 0 <= i < |log| && log[i].Committed? ==>
      exists j :: j < i && TookAt(log, j, log[i].t) && !LaterTrigger(log, j, i)
  }

  /** The two rules differ exactly for orphaned timers. */
  lemma RulesDifferForOrphans(log: seq<Event>, j: int, i: int)
    requires 0 <= j <= i <= |log|
    ensures (Superseded(log, j, i) <==> LaterTrigger(log, j, i)) <==> !Orphaned(log, j, i)
  {
    if LaterTrigger(log, j, i) {
      var k :| j < k < i && log[k].Took?;
      var c := FirstOverwrite(log, j, k);
      if log[c].Took? {
        assert Superseded(log, j, i);
      }
    }
  }

  lemma FirstOverwrite(log: seq<Event>, j: int, k: int) returns (c: int)
    requires 0 <= j < k < |log| && Overwrites(log[k])
    ensures j < c <= k && Overwrites(log[c]) && Quiet(log, j, c)
  {
    c := j + 1;
    while !Overwrites(log[c])
      invariant j < c <= k && Quiet(log, j, c)
      decreases k - c
    {
      c := c + 1;
    }
  }

  /// The invariant of every run

  ghost predicate DebounceTask(task: Task, ms: nat) {
    task == Requested(Debounce(ms)) || task.Sleeping? || task.Committing? || task.Running? || task.Finished?
  }

  ghost predicate TookOnce(s: Sys) {
    && (forall j :: 0 <= j < |s.log| && s.log[j].Took? ==> s.log[j].t in s.tasks && !s.tasks[s.log[j].t].Requested?)
    && (forall j, k :: 0 <= j < k < |s.log| && s.log[j].Took? && s.log[k].Took? ==> s.log[j].t != s.log[k].t)
    && (forall t <- s.tasks :: s.tasks[t].Sleeping? || s.tasks[t].Committing? ==> exists j :: TookAt(s.log, j, t))
    && (forall t: Trigger :: Timer(t) in s.cancelled ==> exists j :: TookAt(s.log, j, t))
  }

  /** The stored token belongs to the last trigger unless a timer has committed since. */
  ghost predicate StoredIsLast(s: Sys) {
    && (s.m.debounceCancel.Some? ==>
         (exists j :: 0 <= j < |s.log| && s.log[j].Took?
           && s.m.debounceCancel == Some(Timer(s.log[j].t)) && Quiet(s.log, j, |s.log|)))
    && (forall j :: 0 <= j < |s.log| && s.log[j].Took? && Quiet(s.log, j, |s.log|) ==>
          s.m.debounceCancel == Some(Timer(s.log[j].t)))
  }

  ghost predicate CancelledIffSuperseded(s: Sys) {
    forall j :: 0 <= j < |s.log| && s.log[j].Took? ==>
      (Timer(s.log[j].t) in s.cancelled <==> Superseded(s.log, j, |s.log|))
  }

  ghost predicate DebounceInv(s: Sys, ms: nat) {
    && (forall t <- s.tasks :: DebounceTask(s.tasks[t], ms))
    && TookOnce(s)
    && StoredIsLast(s)
    && CancelledIffSuperseded(s)
    && DecidesBySupersession(s.log)
  }

  /// Appending one event

  lemma QuietSnoc(log: seq<Event>, e: Event, j: int)
    requires 0 <= j < |log|
    ensures Quiet(log + [e], j, |log| + 1) <==> Quiet(log, j, |log|) && !Overwrites(e)
  {
    var log' := log + [e];
    assert forall x :: 0 <= x < |log| ==> log'[x] == log[x];
    if Quiet(log', j, |log'|) {
      assert log'[|log|] == e;
    }
  }

  lemma PrefixFacts(log: seq<Event>, e: Event, j: int, i: int)
    requires 0 <= j <= i <= |log|
    ensures Quiet(log + [e], j, i) <==> Quiet(log, j, i)
    ensures Superseded(log + [e], j, i) <==> Superseded(log, j, i)
    ensures LaterTrigger(log + [e], j, i) <==> LaterTrigger(log, j, i)
  {
    var log' := log + [e];
    assert forall x :: 0 <= x < |log| ==> log'[x] == log[x];
    forall k | j < k < i
      ensures Quiet(log', j, k) <==> Quiet(log, j, k)
    {
    }
  }

  lemma SupersededSnoc(log: seq<Event>, e: Event, j: int)
    requires 0 <= j < |log|
    ensures Superseded(log + [e], j, |log| + 1)
       <==> Superseded(log, j, |log|) || (e.Took? && Quiet(log, j, |log|))
  {
    var log' := log + [e];
    PrefixFacts(log, e, j, |log|);
    assert log'[|log|] == e;
    if Superseded(log', j, |log'|) && !Superseded(log, j, |log|) {
      var k :| j < k < |log'| && log'[k].Took? && Quiet(log', j, k);
      PrefixFacts(log, e, j, k);
    } else if Superseded(log, j, |log|) {
      var k :| j < k < |log| && log[k].Took? && Quiet(log, j, k);
      PrefixFacts(log, e, j, k);
      assert log'[k].Took?;
    }
  }

  lemma DecidesSnoc(log: seq<Event>, e: Event)
    requires DecidesBySupersession(log)
    requires Decides(e) ==>
      exists j :: j < |log| && TookAt(log, j, e.t) && (e.Aborted? <==> Superseded(log, j, |log|))
    ensures DecidesBySupersession(log + [e])
  {
    var log' := log + [e];
    forall i | 0 <= i < |log'| && Decides(log'[i])
      ensures exists j :: j < i && TookAt(log', j, log'[i].t) && (log'[i].Aborted? <==> Superseded(log', j, i))
    {
      var j :| j < i && TookAt(log, j, log'[i].t) && (log'[i].Aborted? <==> Superseded(log, j, i));
      PrefixFacts(log, e, j, i);
      assert TookAt(log', j, log'[i].t);
    }
  }

  /// Preservation

  lemma TakeKeepsTookOnce(s: Sys, t: Trigger, ms: nat)
    requires DebounceInv(s, ms) && t in s.tasks && s.tasks[t] == Requested(Debounce(ms))
    ensures TookOnce(TakeLock(s, t, Debounce(ms)))
  {
    var s' := TakeLock(s, t, Debounce(ms));
    var n := |s.log|;
    assert TookAt(s'.log, n, t);
    forall u: Trigger, j | TookAt(s.log, j, u)
      ensures TookAt(s'.log, j, u)
    {
    }
    forall u: Trigger | Timer(u) in s'.cancelled
      ensures exists j :: TookAt(s'.log, j, u)
    {
      if Timer(u) !in s.cancelled {
        var j :| 0 <= j < |s.log| && s.log[j].Took? && s.m.debounceCancel == Some(Timer(s.log[j].t));
        assert TookAt(s.log, j, u);
      }
    }
  }

  lemma TakeKeepsStored(s: Sys, t: Trigger, ms: nat)
    requires DebounceInv(s, ms) && t in s.tasks && s.tasks[t] == Requested(Debounce(ms))
    ensures StoredIsLast(TakeLock(s, t, Debounce(ms)))
  {
    var s' := TakeLock(s, t, Debounce(ms));
    var n := |s.log|;
    assert s'.log[n].Took? && Quiet(s'.log, n, n + 1);
    forall j | 0 <= j < n && s'.log[j].Took?
      ensures !Quiet(s'.log, j, n + 1)
    {
      QuietSnoc(s.log, s'.log[n], j);
    }
  }

  lemma TakeKeepsCancelled(s: Sys, t: Trigger, ms: nat)
    requires DebounceInv(s, ms) && t in s.tasks && s.tasks[t] == Requested(Debounce(ms))
    ensures CancelledIffSuperseded(TakeLock(s, t, Debounce(ms)))
  {
    var s' := TakeLock(s, t, Debounce(ms));
    var n := |s.log|;
    var stored := s.m.debounceCancel;
    forall j | 0 <= j < |s'.log| && s'.log[j].Took?
      ensures Timer(s'.log[j].t) in s'.cancelled <==> Superseded(s'.log, j, |s'.log|)
    {
      if j < n {
        SupersededSnoc(s.log, s'.log[n], j);
        assert s.log[j].Took?;
        if stored == Some(Timer(s.log[j].t)) {
          var k :| 0 <= k < n && s.log[k].Took? && stored == Some(Timer(s.log[k].t)) && Quiet(s.log, k, n);
          assert k == j;
        }
      } else {
        NeverTook(s, t, ms);
      }
    }
  }

  /** A trigger that has not taken the lock has an uncancelled timer that nobody stores. */
  lemma NeverTook(s: Sys, t: Trigger, ms: nat)
    requires DebounceInv(s, ms) && t in s.tasks && s.tasks[t].Requested?
    ensures Timer(t) !in s.cancelled && s.m.debounceCancel != Some(Timer(t))
  {
  }

  lemma DebounceTake(s: Sys, t: Trigger, ms: nat)
    requires DebounceInv(s, ms) && t in s.tasks && s.tasks[t] == Requested(Debounce(ms))
    ensures DebounceInv(TakeLock(s, t, Debounce(ms)), ms)
  {
    hide TookOnce, StoredIsLast, CancelledIffSuperseded, DecidesBySupersession;
    TakeKeepsTookOnce(s, t, ms);
    TakeKeepsStored(s, t, ms);
    TakeKeepsCancelled(s, t, ms);
    DecidesSnoc(s.log, Took(t, s.now, SleepFor(ms)));
  }

  /** The steps that append an event other than `Took`, or none, and leave the timer tokens' flags alone. */
  ghost predicate Appends(s: Sys, s': Sys, e: Event) {
    && !e.Took?
    && s'.log == s.log + [e]
    && s'.cancelled == s.cancelled
    && s'.tasks.Keys == s.tasks.Keys
    && s'.m.debounceCancel == (if e.Committed? then None else s.m.debounceCancel)
    && (forall t <- s.tasks :: s'.tasks[t] == s.tasks[t] || (!s.tasks[t].Requested?
          && !s'.tasks[t].Requested? && !s'.tasks[t].Sleeping?
          && (s'.tasks[t].Committing? ==> s.tasks[t].Sleeping?)))
  }

  lemma AppendKeepsTookOnce(s: Sys, s': Sys, e: Event)
    requires TookOnce(s) && Appends(s, s', e)
    ensures TookOnce(s')
  {
    forall t: Trigger, j | TookAt(s.log, j, t)
      ensures TookAt(s'.log, j, t)
    {
    }
  }

  lemma AppendKeepsStored(s: Sys, s': Sys, e: Event)
    requires StoredIsLast(s) && Appends(s, s', e)
    ensures StoredIsLast(s')
  {
    forall j | 0 <= j < |s.log|
      ensures Quiet(s'.log, j, |s'.log|) <==> Quiet(s.log, j, |s.log|) && !Overwrites(e)
    {
      QuietSnoc(s.log, e, j);
    }
    if s'.m.debounceCancel.Some? {
      var j :| 0 <= j < |s.log| && s.log[j].Took?
        && s.m.debounceCancel == Some(Timer(s.log[j].t)) && Quiet(s.log, j, |s.log|);
      assert s'.log[j] == s.log[j];
    }
  }

  lemma AppendKeepsCancelled(s: Sys, s': Sys, e: Event)
    requires CancelledIffSuperseded(s) && Appends(s, s', e)
    ensures CancelledIffSuperseded(s')
  {
    forall j | 0 <= j < |s'.log| && s'.log[j].Took?
      ensures Timer(s'.log[j].t) in s'.cancelled <==> Superseded(s'.log, j, |s'.log|)
    {
      SupersededSnoc(s.log, e, j);
      assert s.log[j].Took?;
    }
  }

  lemma DebounceWake(s: Sys, t: Trigger, ms: nat)
    requires DebounceInv(s, ms) && Enabled(s, Wake(t))
    ensures DebounceInv(Apply(s, Wake(t)), ms)
  {
    var s' := Apply(s, Wake(t));
    var e := if Timer(t) in s.cancelled then Aborted(t) else Passed(t);
    assert Appends(s, s', e);
    AppendKeepsTookOnce(s, s', e);
    AppendKeepsStored(s, s', e);
    AppendKeepsCancelled(s, s', e);
    var j :| TookAt(s.log, j, t);
    DecidesSnoc(s.log, e);
  }

  lemma DebounceCommitOrFinish(s: Sys, step: Step, ms: nat)
    requires DebounceInv(s, ms) && Enabled(s, step) && (step.CommitTimer? || step.Finish?)
    ensures DebounceInv(Apply(s, step), ms)
  {
    var s' := Apply(s, step);
    var e := if step.CommitTimer? then Committed(step.t) else Completed(s.tasks[step.t].work);
    assert Appends(s, s', e);
    AppendKeepsTookOnce(s, s', e);
    AppendKeepsStored(s, s', e);
    AppendKeepsCancelled(s, s', e);
    DecidesSnoc(s.log, e);
  }

  lemma DebounceSilent(s: Sys, step: Step, ms: nat)
    requires DebounceInv(s, ms) && Enabled(s, step)
    requires step.Tick? || step.SelfCancel? || (step.Request? && step.p == Debounce(ms))
    ensures DebounceInv(Apply(s, step), ms)
  {
    var s' := Apply(s, step);
    assert s'.log == s.log && s'.m == s.m;
    assert forall t: Trigger :: Timer(t) in s'.cancelled <==> Timer(t) in s.cancelled;
  }

  lemma DebounceStep(s: Sys, step: Step, ms: nat)
    requires DebounceInv(s, ms)
    requires step.Request? ==> step.p == Debounce(ms)
    ensures DebounceInv(Apply(s, step), ms)
  {
    if Enabled(s, step) {
      match step
      case Take(t) => DebounceTake(s, t, ms);
      case Wake(t) => DebounceWake(s, t, ms);
      case CommitTimer(t) => DebounceCommitOrFinish(s, step, ms);
      case Finish(t) => DebounceCommitOrFinish(s, step, ms);
      case _ => DebounceSilent(s, step, ms);
    }
  }

  lemma {:induction false} DebounceAfter(steps: seq<Step>, ms: nat)
    requires Uses(steps, Debounce(ms))
    ensures DebounceInv(After(steps), ms)
  {
    if steps != [] {
      var front := steps[..|steps| - 1];
      assert Uses(front, Debounce(ms));
      DebounceAfter(front, ms);
      DebounceStep(After(front), steps[|steps| - 1], ms);
    }
  }

  /// What a debounced trigger gets

  /** In every run: a timer check finds its timer cancelled exactly if the first lock section to overwrite
      the stored token, after the trigger's own, was a later trigger's. */
  lemma DebounceDecides(steps: seq<Step>, ms: nat)
    requires Uses(steps, Debounce(ms))
    ensures DecidesBySupersession(After(steps).log)
  {
    DebounceAfter(steps, ms);
  }

  /** So a decision breaks the documented rule exactly for a trigger that was orphaned. */
  lemma DebounceRuleFailsExactlyForOrphans(steps: seq<Step>, ms: nat, i: int)
    requires Uses(steps, Debounce(ms))
    requires 0 <= i < |After(steps).log| && Decides(After(steps).log[i])
    ensures var log := After(steps).log;
      exists j :: j < i && TookAt(log, j, log[i].t)
        && ((log[i].Aborted? <==> LaterTrigger(log, j, i)) <==> !Orphaned(log, j, i))
  {
    var log := After(steps).log;
    DebounceDecides(steps, ms);
    var j :| j < i && TookAt(log, j, log[i].t) && (log[i].Aborted? <==> Superseded(log, j, i));
    RulesDifferForOrphans(log, j, i);
  }

  /** Trigger 2 lands between trigger 1's check and its commit; the commit clears trigger 2's token, so
      trigger 3 cannot cancel it. */
  const RACE: seq<Step> := [
    Request(1, Debounce(1)), Take(1), Tick(NANOS_PER_MILLI), Wake(1),
    Request(2, Debounce(1)), Take(2),
    CommitTimer(1),
    Request(3, Debounce(1)), Take(3), Tick(NANOS_PER_MILLI),
    Wake(2), Wake(3), CommitTimer(2), CommitTimer(3)]

  lemma AfterNext(steps: seq<Step>, k: nat)
    requires k < |steps|
    ensures After(steps[..k + 1]) == Apply(After(steps[..k]), steps[k])
  {
    assert steps[..k + 1][..k] == steps[..k];
  }

  /** The documented rule is false: trigger 2 executes although trigger 3 took the lock before its check. */
  lemma DebounceRace()
    ensures Uses(RACE, Debounce(1))
    ensures After(RACE).tasks == map[1 := Running(1), 2 := Running(2), 3 := Running(3)]
    ensures !DecidesByLastTrigger(After(RACE).log)
  {
    RaceAt14();
    OrphanBreaksRule(After(RACE).log);
  }

  lemma OrphanBreaksRule(log: seq<Event>)
    requires |log| == 9 && ARMED.log + [Committed(1), Took(3, NANOS_PER_MILLI, SleepFor(1)), Passed(2)] <= log
    ensures !DecidesByLastTrigger(log)
  {
    assert log[2] == Took(2, NANOS_PER_MILLI, SleepFor(1)) && log[4].Took?;
    assert Decides(log[5]) && log[5] == Passed(2);
    forall j | j < 5 && TookAt(log, j, 2)
      ensures LaterTrigger(log, j, 5)
    {
      assert log[0].t == 1 && j == 2;
    }
  }

  /** Trigger 1 has passed its check; trigger 2 has replaced its token. */
  const ARMED := Sys(
    FRESH.(debounceCancel := Some(Timer(2))), {Timer(1)}, NANOS_PER_MILLI,
    map[1 := Committing, 2 := Sleeping(2 * NANOS_PER_MILLI)],
    [Took(1, 0, SleepFor(1)), Passed(1), Took(2, NANOS_PER_MILLI, SleepFor(1))])

  /** Trigger 1's commit has cleared trigger 2's token; trigger 3 is about to take the lock. */
  const CLEARED := Sys(
    State(1, [], [], None, None), {Timer(1)}, NANOS_PER_MILLI,
    map[1 := Running(1), 2 := Sleeping(2 * NANOS_PER_MILLI), 3 := Requested(Debounce(1))],
    ARMED.log + [Committed(1)])

  /** Trigger 3 found no stored token to cancel. */
  const ORPHANED := Sys(
    State(1, [], [], None, Some(Timer(3))), {Timer(1)}, 2 * NANOS_PER_MILLI,
    map[1 := Running(1), 2 := Sleeping(2 * NANOS_PER_MILLI), 3 := Sleeping(2 * NANOS_PER_MILLI)],
    CLEARED.log + [Took(3, NANOS_PER_MILLI, SleepFor(1))])

  /** Both sleeping triggers have passed their check. */
  const WOKEN := ORPHANED.(
    tasks := map[1 := Running(1), 2 := Committing, 3 := Committing],
    log := ORPHANED.log + [Passed(2)] + [Passed(3)])

  lemma RaceAt4()
    ensures After(RACE[..4]) == Sys(
      FRESH.(debounceCancel := Some(Timer(1))), {}, NANOS_PER_MILLI,
      map[1 := Committing], [Took(1, 0, SleepFor(1)), Passed(1)])
  {
    AfterNext(RACE, 0); AfterNext(RACE, 1); AfterNext(RACE, 2); AfterNext(RACE, 3);
  }

  lemma RaceAt6()
    ensures After(RACE[..6]) == ARMED
  {
    RaceAt4();
    AfterNext(RACE, 4); AfterNext(RACE, 5);
  }

  lemma RaceAt8()
    ensures After(RACE[..8]) == CLEARED
  {
    RaceAt6();
    AfterNext(RACE, 6); AfterNext(RACE, 7);
  }

  lemma RaceAt10()
    ensures After(RACE[..10]) == ORPHANED
  {
    RaceAt8();
    AfterNext(RACE, 8); AfterNext(RACE, 9);
  }

  lemma RaceAt12()
    ensures After(RACE[..12]) == WOKEN
  {
    RaceAt10();
    AfterNext(RACE, 10); AfterNext(RACE, 11);
  }

  lemma RaceAt14()
    ensures After(RACE).tasks == map[1 := Running(1), 2 := Running(2), 3 := Running(3)]
    ensures After(RACE).log == WOKEN.log + [Committed(2)] + [Committed(3)]
  {
    RaceAt12();
    AfterNext(RACE, 12); AfterNext(RACE, 13);
    assert RACE[..14] == RACE;
  }

  /// Runs in which no trigger takes the lock between a timer's check and its commit

  ghost predicate Uninterrupted(steps: seq<Step>) {
    forall k :: 0 <= k < |steps| && steps[k].Take? ==>
      forall t <- After(steps[..k]).tasks :: !After(steps[..k]).tasks[t].Committing?
  }

  ghost predicate StoredOnly(s: Sys) {
    && (forall t <- s.tasks :: s.tasks[t].Sleeping? && Timer(t) !in s.cancelled ==>
          s.m.debounceCancel == Some(Timer(t)))
    && (forall t <- s.tasks :: s.tasks[t].Committing? ==>
          s.m.debounceCancel == Some(Timer(t)) && Timer(t) !in s.cancelled)
  }

  lemma StoredOnlyStep(s: Sys, step: Step, ms: nat)
    requires DebounceInv(s, ms) && StoredOnly(s)
    requires step.Request? ==> step.p == Debounce(ms)
    requires step.Take? ==> forall t <- s.tasks :: !s.tasks[t].Committing?
    ensures StoredOnly(Apply(s, step))
  {
    hide TookOnce, StoredIsLast, CancelledIffSuperseded, DecidesBySupersession;
    if Enabled(s, step) && step.Take? {
      NeverTook(s, step.t, ms);
    }
  }

  /** The trigger that stores its token has no later trigger behind it. */
  lemma StoredHasNoLaterTrigger(s: Sys, t: Trigger, ms: nat)
    requires DebounceInv(s, ms) && s.m.debounceCancel == Some(Timer(t))
    ensures exists j :: TookAt(s.log, j, t) && !LaterTrigger(s.log, j, |s.log|)
  {
    var j :| 0 <= j < |s.log| && s.log[j].Took?
      && s.m.debounceCancel == Some(Timer(s.log[j].t)) && Quiet(s.log, j, |s.log|);
    assert TookAt(s.log, j, t);
  }

  ghost predicate LastTriggerWins(log: seq<Event>) {
    DecidesByLastTrigger(log) && CommitsOnlyLast(log)
  }

  lemma LastTriggerWinsSnoc(log: seq<Event>, e: Event)
    requires LastTriggerWins(log)
    requires Decides(e) ==>
      exists j :: TookAt(log, j, e.t) && (e.Aborted? <==> LaterTrigger(log, j, |log|))
    requires e.Committed? ==> exists j :: TookAt(log, j, e.t) && !LaterTrigger(log, j, |log|)
    ensures LastTriggerWins(log + [e])
  {
    var log' := log + [e];
    forall i | 0 <= i < |log'| && Decides(log'[i])
      ensures exists j :: j < i && TookAt(log', j, log'[i].t) && (log'[i].Aborted? <==> LaterTrigger(log', j, i))
    {
      var j :| j < i && TookAt(log, j, log'[i].t) && (log'[i].Aborted? <==> LaterTrigger(log, j, i));
      PrefixFacts(log, e, j, i);
      assert TookAt(log', j, log'[i].t);
    }
    forall i | 0 <= i < |log'| && log'[i].Committed?
      ensures exists j :: j < i && TookAt(log', j, log'[i].t) && !LaterTrigger(log', j, i)
    {
      var j :| j < i && TookAt(log, j, log'[i].t) && !LaterTrigger(log, j, i);
      PrefixFacts(log, e, j, i);
      assert TookAt(log', j, log'[i].t);
    }
  }

  lemma LastTriggerWinsStep(s: Sys, step: Step, ms: nat)
    requires DebounceInv(s, ms) && StoredOnly(s) && LastTriggerWins(s.log)
    ensures LastTriggerWins(Apply(s, step).log)
  {
    if Enabled(s, step) {
      match step
      case Take(t) => LastTriggerWinsSnoc(s.log, TakeLock(s, t, s.tasks[t].policy).log[|s.log|]);
      case Finish(t) => LastTriggerWinsSnoc(s.log, Completed(s.tasks[t].work));
      case CommitTimer(t) =>
        StoredHasNoLaterTrigger(s, t, ms);
        LastTriggerWinsSnoc(s.log, Committed(t));
      case Wake(t) =>
        if Timer(t) in s.cancelled {
          var j :| TookAt(s.log, j, t);
          assert LaterTrigger(s.log, j, |s.log|);
          LastTriggerWinsSnoc(s.log, Aborted(t));
        } else {
          StoredHasNoLaterTrigger(s, t, ms);
          LastTriggerWinsSnoc(s.log, Passed(t));
        }
      case _ =>
    }
  }

  lemma {:induction false} UninterruptedAfter(steps: seq<Step>, ms: nat)
    requires Uses(steps, Debounce(ms)) && Uninterrupted(steps)
    ensures StoredOnly(After(steps)) && LastTriggerWins(After(steps).log)
  {
    if steps != [] {
      var n := |steps| - 1;
      var front := steps[..n];
      assert Uses(front, Debounce(ms));
      assert forall k :: 0 <= k < n ==> front[k] == steps[k] && front[..k] == steps[..k];
      UninterruptedAfter(front, ms);
      DebounceAfter(front, ms);
      StoredOnlyStep(After(front), steps[n], ms);
      LastTriggerWinsStep(After(front), steps[n], ms);
    }
  }

  /** With check and commit uninterrupted, the documented rule holds in every run: at most one sleeping
      timer is uncancelled and it is the stored one; a trigger passes its check, and executes, exactly
      when no later trigger of the macro has taken the lock. */
  lemma DebounceRunsOnlyTheLast(steps: seq<Step>, ms: nat)
    requires Uses(steps, Debounce(ms)) && Uninterrupted(steps)
    ensures var s := After(steps);
      && DecidesByLastTrigger(s.log)
      && CommitsOnlyLast(s.log)
      && forall t <- s.tasks :: s.tasks[t].Sleeping? && Timer(t) !in s.cancelled ==>
           s.m.debounceCancel == Some(Timer(t))
  {
    UninterruptedAfter(steps, ms);
  }
}
