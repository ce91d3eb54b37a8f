// Retries: which attempts a run makes, what becomes of them, and that a timeout ends them.
module InterpreterRetry {
  import opened Domain
  import opened Interpreter
  import opened InterpreterToken
  import opened InterpreterSafety

  /// Attempts

  /** Where the task stands when the pause behind a failed attempt `j` is over. */
  function Paused(n: Node, j: nat, r: Run): Task
    requires n.Retry?
  {
    if j + 1 < Attempts(n.times) && n.backoffMs > 0 then r.after.Later() else r.after
  }

  /** The attempts from `j` on. */
  function TriesFrom(s: Setup, n: Node, j: nat, t: Task, depth: nat): seq<Run>
    requires n.Retry? && j <= Attempts(n.times)
    decreases Attempts(n.times) - j
  {
    if j == Attempts(n.times) || Check(s, t).flow.Stop? then []
    else
      var r := RunNode(s, n.body, Check(s, t).after, depth);
      if !r.flow.Failed? || PauseEnds(s, n, j, r, depth).Some? then [r]
      else [r] + TriesFrom(s, n, j + 1, Paused(n, j, r), depth)
  }

  /** The timeout that ends during the pause behind a failed attempt `j`. */
  function PauseEnds(s: Setup, n: Node, j: nat, r: Run, depth: nat): Option<nat>
    requires n.Retry?
  {
    if j + 1 < Attempts(n.times) && n.backoffMs > 0 then Elapsed(s, r.after.next, depth) else None
  }

  function Tries(s: Setup, n: Node, t: Task, depth: nat): seq<Run>
    requires n.Retry?
  {
    if Check(s, t).flow.Stop? then [] else TriesFrom(s, n, 0, Check(s, t).after, depth)
  }

  function EventsOf(rs: seq<Run>): seq<EngineEvent> {
    if rs == [] then [] else rs[0].events + EventsOf(rs[1..])
  }

  function StartsOf(rs: seq<Run>): seq<ActionConfig> {
    if rs == [] then [] else StartedIn(rs[0].trace) + StartsOf(rs[1..])
  }

  /** Attempt `j` calls for another: it failed, attempts are left, no timeout ends the pause, and the check behind it
      finds the token unset. */
  predicate Again(s: Setup, n: Node, j: nat, r: Run, depth: nat)
    requires n.Retry?
  {
    && r.flow.Failed? && j + 1 < Attempts(n.times)
    && PauseEnds(s, n, j, r, depth).None?
    && !r.after.token && !s.answer(Paused(n, j, r).next).cancelled
  }

  /** How a retry ends whose last attempt is `r`, attempt number `j`. */
  function Ending(s: Setup, n: Node, j: nat, r: Run, depth: nat): Flow
    requires n.Retry?
  {
    if !r.flow.Failed? || j + 1 == Attempts(n.times) then r.flow
    else if PauseEnds(s, n, j, r, depth).Some? then Dropped(PauseEnds(s, n, j, r, depth).value)
    else Stop
  }

  /** `rs` are attempts number `j` and on, the first after a check at `t`: each runs the body right after a check that
      found the token unset, and another follows exactly when the one before calls for it. */
  predicate Attempted(s: Setup, n: Node, j: nat, t: Task, depth: nat, rs: seq<Run>)
    requires n.Retry?
  {
    && j + |rs| <= Attempts(n.times)
    && (rs != [] ==> rs[0] == RunNode(s, n.body, t.Later(), depth))
    && (forall x :: 0 < x < |rs| ==> rs[x] == RunNode(s, n.body, Paused(n, j + x - 1, rs[x - 1]).Later(), depth))
    && (forall x :: 0 <= x < |rs| ==> (x + 1 < |rs| <==> Again(s, n, j + x, rs[x], depth)))
  }

  /** `out` is the run `acc` and then these attempts. */
  predicate MadeOf(s: Setup, n: Node, j: nat, depth: nat, acc: Run, rs: seq<Run>, out: Run)
    requires n.Retry?
  {
    && out.events == acc.events + EventsOf(rs)
    && StartedIn(out.trace) == StartedIn(acc.trace) + StartsOf(rs)
    && (rs != [] ==>
         var last := rs[|rs| - 1];
         out.flow == Ending(s, n, j + |rs| - 1, last, depth) && out.after.locals == last.after.locals)
  }

  lemma AttemptedNext(s: Setup, n: Node, j: nat, t: Task, depth: nat, r: Run, rs: seq<Run>)
    requires n.Retry? && r == RunNode(s, n.body, t.Later(), depth)
    requires Attempted(s, n, j + 1, Paused(n, j, r), depth, rs)
    requires Again(s, n, j, r, depth) <==> rs != []
    ensures Attempted(s, n, j, t, depth, [r] + rs)
  {
    hide RunNode, Paused, Again, Attempts;
    var all := [r] + rs;
    assert all[0] == r;
    forall x | 0 < x < |all|
      ensures all[x] == RunNode(s, n.body, Paused(n, j + x - 1, all[x - 1]).Later(), depth)
    {
      assert all[x] == rs[x - 1];
      if x > 1 {
        assert all[x - 1] == rs[x - 2];
        assert rs[x - 1] == RunNode(s, n.body, Paused(n, (j + 1) + (x - 1) - 1, rs[x - 2]).Later(), depth);
      }
    }
    forall x | 0 <= x < |all|
      ensures x + 1 < |all| <==> Again(s, n, j + x, all[x], depth)
    {
      if x > 0 {
        assert all[x] == rs[x - 1];
        assert (x - 1) + 1 < |rs| <==> Again(s, n, (j + 1) + (x - 1), rs[x - 1], depth);
      }
    }
  }

  lemma MadeOfNext(s: Setup, n: Node, j: nat, depth: nat, acc: Run, acc1: Run, r: Run, mid: Run, rs: seq<Run>, out: Run)
    requires n.Retry? && MadeOf(s, n, j + 1, depth, mid, rs, out)
    requires acc1.events == acc.events && StartedIn(acc1.trace) == StartedIn(acc.trace)
    requires mid.events == acc1.events + r.events && mid.trace == acc1.trace + r.trace
    requires rs == [] ==> out.flow == Ending(s, n, j, r, depth) && out.after.locals == r.after.locals
    ensures MadeOf(s, n, j, depth, acc, [r] + rs, out)
  {
    hide StartedIn, Ending;
    StartedBoth(acc1.trace, r.trace);
    var all := [r] + rs;
    assert all[0] == r && all[1..] == rs;
    if rs != [] {
      assert all[|all| - 1] == rs[|rs| - 1];
    }
  }

  /** All attempts from number `j` on. */
  lemma {:induction false} RetryFrom(s: Setup, n: Node, j: nat, acc: Run, depth: nat)
    requires n.Retry? && j <= Attempts(n.times)
    ensures var (rs, out) := (TriesFrom(s, n, j, acc.after, depth), RunRetry(s, n, j, acc, depth));
      && Attempted(s, n, j, acc.after, depth, rs) && MadeOf(s, n, j, depth, acc, rs, out)
      && (rs != [] <==> j < Attempts(n.times) && !acc.after.token && !s.answer(acc.after.next).cancelled)
      && (rs == [] ==>
           out.flow == (if j < Attempts(n.times) then Stop else Failed) && out.after.locals == acc.after.locals)
    decreases Attempts(n.times) - j
  {
    hide RunNode, Elapsed, StartedIn, Attempts;
    if j < Attempts(n.times) {
      var acc1 := acc.Then(Check(s, acc.after));
      CheckStartsNone(s, acc);
      if acc1.flow.Continue? {
        var r := RunNode(s, n.body, acc1.after, depth);
        var both := acc1.Then(r);
        if !r.flow.Failed? || PauseEnds(s, n, j, r, depth).Some? {
          LastAttempt(s, n, j, acc, depth);
        } else {
          var mid := if Paused(n, j, r) == r.after then both else both.Ends(Failed, []);
          assert RunRetry(s, n, j, acc, depth) == RunRetry(s, n, j + 1, mid, depth);
          RetryFrom(s, n, j + 1, mid, depth);
          var rs := TriesFrom(s, n, j + 1, mid.after, depth);
          AttemptedNext(s, n, j, acc.after, depth, r, rs);
          MadeOfNext(s, n, j, depth, acc, acc1, r, mid, rs, RunRetry(s, n, j, acc, depth));
        }
      }
    }
  }

  /** An attempt that is the last, since it did not fail or its pause was cut short. */
  lemma LastAttempt(s: Setup, n: Node, j: nat, acc: Run, depth: nat)
    requires n.Retry? && j < Attempts(n.times) && acc.Then(Check(s, acc.after)).flow.Continue?
    requires var r := RunNode(s, n.body, Check(s, acc.after).after, depth);
      !r.flow.Failed? || PauseEnds(s, n, j, r, depth).Some?
    ensures var (rs, out) := (TriesFrom(s, n, j, acc.after, depth), RunRetry(s, n, j, acc, depth));
      Attempted(s, n, j, acc.after, depth, rs) && MadeOf(s, n, j, depth, acc, rs, out) && rs != []
  {
    hide RunNode, Elapsed, StartedIn, Attempts;
    var acc1 := acc.Then(Check(s, acc.after));
    var r := RunNode(s, n.body, acc1.after, depth);
    var both := acc1.Then(r);
    var out := RunRetry(s, n, j, acc, depth);
    CheckStartsNone(s, acc);
    assert out.events == both.events && out.trace == both.trace;
    assert TriesFrom(s, n, j, acc.after, depth) == [r] == [r] + [];
    AttemptedNext(s, n, j, acc.after, depth, r, []);
    MadeOfNext(s, n, j, depth, acc, acc1, r, both, [], out);
  }

  lemma CheckStartsNone(s: Setup, acc: Run)
    ensures var acc1 := acc.Then(Check(s, acc.after));
      StartedIn(acc1.trace) == StartedIn(acc.trace) && acc1.events == acc.events
  {
    StartedBoth(acc.trace, Check(s, acc.after).trace);
    assert Check(s, acc.after).trace[..0] == [];
  }

  /// Results

  /** What a retry does. It makes a first attempt exactly if the token is unset at its two checks, and another after
      an attempt exactly if that one failed, attempts are left, no timeout ends the pause, and the token is unset at
      the next check. Its events and started actions are those of the attempts, one after the other. It ends as the
      last attempt does, but with a failure only when no attempts are left: otherwise it stops, or is dropped in the
      pause. */
  lemma RetryRepeatsExactly(s: Setup, n: Node, t: Task, depth: nat)
    requires n.Retry?
    ensures var (rs, out) := (Tries(s, n, t, depth), RunNode(s, n, t, depth));
      && (rs != [] <==> !t.token && !s.answer(t.next).cancelled && !s.answer(t.next + 1).cancelled)
      && Attempted(s, n, 0, t.Later(), depth, rs)
      && out.events == EventsOf(rs) && StartedIn(out.trace) == StartsOf(rs)
      && (if rs == [] then out.flow == Stop && out.after.locals == t.locals
          else
            var last := rs[|rs| - 1];
            out.flow == Ending(s, n, |rs| - 1, last, depth) && out.after.locals == last.after.locals)
  {
    hide StartedIn, Ending;
    var entry := Check(s, t);
    CheckStartsNone(s, Run(Continue, [], t, []));
    NothingStarted();
    assert [] + entry.trace == entry.trace;
    if entry.flow.Continue? {
      RetryFrom(s, n, 0, entry, depth);
    }
  }

  lemma NothingStarted()
    ensures StartedIn([]) == []
  {
  }

  /** A retry makes no more attempts than it is told to, but one at least; it makes fewer only if the last one did not
      fail, a timeout ended the pause behind it, or the token was set by then. */
  lemma AttemptsAreUsedUp(s: Setup, body: Node, times: nat, backoff: nat, t: Task, depth: nat)
    ensures var (rs, most) := (Tries(s, Retry(body, times, backoff), t, depth), if times == 0 then 1 else times);
      && |rs| <= most
      && (0 < |rs| < most ==>
           var (last, pause) := (rs[|rs| - 1], if backoff > 0 then 1 else 0);
           || !last.flow.Failed?
           || (var e := s.answer(last.after.next).elapsed; backoff > 0 && e.Some? && e.value < depth)
           || last.after.token || s.answer(last.after.next + pause).cancelled)
  {
    hide RunNode, Tries;
    RetryRepeatsExactly(s, Retry(body, times, backoff), t, depth);
  }

  /** An attempt in which a timeout ended is the last: whatever its flow, no other follows, and if it failed with
      attempts left, the retry stops, or is dropped in the pause. */
  lemma TimeoutEndsRetry(s: Setup, n: Node, t: Task, depth: nat, j: nat, i: nat)
    requires n.Retry? && j < |Tries(s, n, t, depth)|
    requires var trace := Tries(s, n, t, depth)[j].trace; i < |trace| && trace[i].TokenSet?
    ensures var (rs, out) := (Tries(s, n, t, depth), RunNode(s, n, t, depth));
      && j == |rs| - 1
      && (rs[j].flow.Failed? && j + 1 < Attempts(n.times) ==> out.flow.Stop? || out.flow.Dropped?)
  {
    hide RunNode;
    RetryRepeatsExactly(s, n, t, depth);
    var rs := Tries(s, n, t, depth);
    var start := if j == 0 then t.Later() else Paused(n, j - 1, rs[j - 1]);
    NodeSound(s, n.body, start.Later(), depth);
    assert Sets(rs[j].trace[i]);
    assert rs[j] == RunNode(s, n.body, start.Later(), depth) && rs[j].after.token;
  }

  /** A timeout that ends is not retried, though it is a failure and nobody else sets the token: one attempt of however
      many. */
  lemma TimeoutIsNotRetried(s: Setup, w: nat, ms: nat, times: nat, backoff: nat, locals: Locals)
    requires times >= 2 && (forall k :: !s.answer(k).cancelled) && s.answer(4).elapsed == Some(0)
    ensures var (n, t) := (Retry(Timeout(Wait(w), ms), times, backoff), Fresh(s, locals));
      && Tries(s, n, t, 0) == [Tries(s, n, t, 0)[0]] && Tries(s, n, t, 0)[0].flow.Failed?
      && RunWorkflow(s, n, locals).flow == Stop
      && RunWorkflow(s, n, locals).events == [Error(s.macroId, TimedOut(ms))]
  {
    var (n, t) := (Retry(Timeout(Wait(w), ms), times, backoff), Fresh(s, locals));
    var r := WaitTimesOut(s, w, ms, t.Later().Later());
    hide RunNode, StartedIn;
    RetryRepeatsExactly(s, n, t, 0);
    var rs := Tries(s, n, t, 0);
    assert rs[0] == r;
    TimeoutEndsRetry(s, n, t, 0, 0, 2);
    assert rs == [r];
  }

  lemma WaitTimesOut(s: Setup, w: nat, ms: nat, t: Task) returns (r: Run)
    requires !t.token && !s.answer(t.next).cancelled && !s.answer(t.next + 1).cancelled
    requires s.answer(t.next + 2).elapsed == Some(0)
    ensures r == RunNode(s, Timeout(Wait(w), ms), t, 0)
    ensures r.flow.Failed? && r.events == [Error(s.macroId, TimedOut(ms))]
    ensures r.after == Task(t.here, t.locals, t.store, true, t.next + 4)
    ensures r.trace == [Checked(t.Now(), false), Checked(Moment(t.next + 1, t.here), false),
                        TokenSet(Moment(t.next + 3, t.here))]
  {
    r := RunNode(s, Timeout(Wait(w), ms), t, 0);
    var body := RunNode(s, Wait(w), Check(s, t).after, 1);
    assert body.flow == Dropped(0) && body.trace == [Checked(Moment(t.next + 1, t.here), false)];
    assert r == Check(s, t).Then(Limited(s, body, ms));
  }

  /** With a retry a run can carry an error and still succeed: here the second attempt does. */
  lemma RetryHidesFailure(s: Setup, a: ActionConfig, e: string, locals: Locals)
    requires s.build(a) == Ready([], []) && !s.dryRun && forall k :: !s.answer(k).cancelled
    requires s.answer(4).outcome == Break(e) && s.answer(8).outcome == Proceed
    ensures var r := RunWorkflow(s, Retry(Action(a), 2, 0), locals);
      r.flow.Continue? && HasError(r.events)
  {
    hide RunNode, StartedIn, Tries, StartsOf;
    var (n, t) := (Retry(Action(a), 2, 0), Fresh(s, locals));
    var rs := Tries(s, n, t, 0);
    RetryRepeatsExactly(s, n, t, 0);
    ActionRuns(s, a, t.Later().Later());
    assert Again(s, n, 0, rs[0], 0);
    ActionRuns(s, a, rs[0].after.Later());
    assert |rs| == 2 && rs[1].flow.Continue?;
    assert EventsOf(rs)[0] == rs[0].events[0];
  }

  lemma ActionRuns(s: Setup, a: ActionConfig, t: Task)
    requires s.build(a) == Ready([], []) && !s.dryRun && !t.token && forall k :: !s.answer(k).cancelled
    ensures var r := RunNode(s, Action(a), t, 0);
      && r.after.next == t.next + 3 && !r.after.token
      && match s.answer(t.next + 2).outcome
         case Proceed => r.flow == Continue
         case Halt => r.flow == Stop
         case Break(e) => r.flow == Failed && r.events == [Error(s.macroId, ActionFailed(e))]
  {
  }
}
