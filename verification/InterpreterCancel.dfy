// Cancellation: what the shared token does to a run, across its branches and to its retries.
module InterpreterCancel {
  import opened Domain
  import opened Interpreter
  import opened InterpreterToken
  import opened InterpreterSafety
  import opened InterpreterRetry
  import Permissions

  /// One task, and what it joins

  /** Behind a mark that the token was set or found set, nothing goes on in the same task, in its later branches or
      after the join, whatever the surroundings answer: no check finds it unset and no action starts. Only branches
      forked together with that mark's are not bound by it. A task that knows the token is set does nothing at all. */
  lemma TokenIsHeeded(s: Setup, n: Node, t: Task, depth: nat, i: nat, j: nat)
    requires var trace := RunNode(s, n, t, depth).trace; i < j < |trace| && Sets(trace[i]) && Goes(trace[j])
    ensures var trace := RunNode(s, n, t, depth).trace; Siblings(trace[i].at.branch, trace[j].at.branch)
    ensures !t.token
  {
    NodeSound(s, n, t, depth);
  }

  /** At its end a task knows that the token is set exactly if it knew before, set it, or found it set, in a branch of
      its own or itself. */
  lemma TokenIsKept(s: Setup, n: Node, t: Task, depth: nat)
    ensures var r := RunNode(s, n, t, depth);
      r.after.token <==> t.token || SomeSets(r.trace)
  {
    NodeSound(s, n, t, depth);
  }

  /// Sibling branches, in time

  /** The instant at which a step of the run happens. */
  type Clock = nat -> int

  /** What one task does takes place in the order of the trace; branches forked together may interleave. */
  ghost predicate InOrder(trace: seq<Mark>, clock: Clock) {
    forall i, j :: 0 <= i < j < |trace| && !Siblings(trace[i].at.branch, trace[j].at.branch) ==>
      clock(trace[i].at.step) < clock(trace[j].at.step)
  }

  /** Someone outside the run has set the token by `now`, or some branch of the run has. */
  ghost predicate SetBefore(trace: seq<Mark>, clock: Clock, outside: Option<int>, now: int) {
    || (outside.Some? && outside.value <= now)
    || exists i :: 0 <= i < |trace| && trace[i].TokenSet? && clock(trace[i].at.step) < now
  }

  /** The token is one flag that all branches share: a check finds what has been written to it before. */
  ghost predicate Shared(trace: seq<Mark>, clock: Clock, outside: Option<int>) {
    forall j :: 0 <= j < |trace| && trace[j].Checked? ==>
      (trace[j].cancelled <==> SetBefore(trace, clock, outside, clock(trace[j].at.step)))
  }

  /** An action starts only in a node that its branch entered before anyone had set the token: a branch of the run, or
      someone outside, such as a restart that cancels this instance. */
  lemma NothingStartsOnceCancelled(s: Setup, root: Node, locals: Locals, clock: Clock, outside: Option<int>, j: nat)
    requires var trace := RunWorkflow(s, root, locals).trace;
      Shared(trace, clock, outside) && j < |trace| && trace[j].Started?
    ensures var trace := RunWorkflow(s, root, locals).trace;
      && j > 0 && trace[j].at.step >= 2
      && trace[j - 1] == Checked(Moment(trace[j].at.step - 2, trace[j].at.branch), false)
      && !SetBefore(trace, clock, outside, clock(trace[j].at.step - 2))
  {
    StartsAreAllowed(s, root, locals, j);
  }

  /** After the token was set, by a branch or from outside, at most one more action starts in each branch, the one whose
      node it had entered: any two that start later belong to branches forked together. */
  lemma AtMostOneStartPerBranch(s: Setup, root: Node, locals: Locals, clock: Clock, outside: Option<int>,
                                j: nat, k: nat)
    requires var trace := RunWorkflow(s, root, locals).trace;
      && InOrder(trace, clock) && Shared(trace, clock, outside)
      && j < k < |trace| && trace[j].Started? && trace[k].Started?
      && SetBefore(trace, clock, outside, clock(trace[j].at.step))
    ensures var trace := RunWorkflow(s, root, locals).trace; Siblings(trace[j].at.branch, trace[k].at.branch)
  {
    hide Siblings;
    var trace := RunWorkflow(s, root, locals).trace;
    StartsAreAllowed(s, root, locals, k);
    assert j < k - 1;
    assert !SetBefore(trace, clock, outside, clock(trace[k - 1].at.step));
  }

  /** Such clocks exist: where no branches are forked together, the step numbers themselves are one, with the answers
      that someone gives who sets the token at step `from`, or never. */
  lemma SequentialRunsAreShared(s: Setup, root: Node, locals: Locals, from: Option<nat>)
    requires forall k :: s.answer(k).cancelled <==> from.Some? && from.value <= k
    requires var trace := RunWorkflow(s, root, locals).trace;
      forall i, j :: 0 <= i < j < |trace| ==> !Siblings(trace[i].at.branch, trace[j].at.branch)
    ensures var (trace, clock) := (RunWorkflow(s, root, locals).trace, k => k);
      InOrder(trace, clock) && Shared(trace, clock, if from.Some? then Some(from.value) else None)
  {
    var (trace, clock) := (RunWorkflow(s, root, locals).trace, k => k);
    var outside: Option<int> := if from.Some? then Some(from.value) else None;
    NodeSound(s, root, Fresh(s, locals), 0);
    forall j | 0 <= j < |trace| && trace[j].Checked?
      ensures trace[j].cancelled <==> SetBefore(trace, clock, outside, clock(trace[j].at.step))
    {
      assert MarkOk(s, Permissions.Actions(root), trace, j);
      if trace[j].cancelled {
        FirstReason(s, trace, j);
      }
    }
  }

  /** The first mark that finds the token set, without anyone else having set it, follows one that sets it. */
  lemma {:induction false} FirstReason(s: Setup, trace: seq<Mark>, j: nat)
    requires Reasoned(s, false, trace) && j < |trace| && Sets(trace[j])
    requires forall x, y :: 0 <= x < y < |trace| ==> trace[x].at.step < trace[y].at.step
    requires forall k, l :: k <= l && s.answer(k).cancelled ==> s.answer(l).cancelled
    ensures trace[j].Checked? && !s.answer(trace[j].at.step).cancelled ==>
      exists i :: 0 <= i < j && trace[i].TokenSet?
  {
    if trace[j].Checked? && !s.answer(trace[j].at.step).cancelled {
      var i :| 0 <= i < j && Sets(trace[..j][i]);
      assert trace[..j][i] == trace[i];
      FirstReason(s, trace, i);
    }
  }

  /// A run in which a branch cancels its sibling

  /** Two branches: one times out, the other wants to start an action when it has waited. */
  function Rivals(w: nat, ms: nat, a: ActionConfig): Node {
    Parallel([Timeout(Wait(w), ms), Seq([Wait(w), Action(a)])])
  }

  /** The timeout takes place at time 6, when the other branch has entered its wait and not yet its action. */
  function RivalClock(k: nat): int {
    if k <= 2 then k else if k <= 4 then k + 2 else if k <= 7 then k - 2 else k
  }

  lemma WaitThenStop(s: Setup, w: nat, a: ActionConfig, t: Task) returns (r: Run)
    requires !t.token && !s.answer(t.next).cancelled && !s.answer(t.next + 1).cancelled
    requires s.answer(t.next + 3).cancelled
    ensures r == RunNode(s, Seq([Wait(w), Action(a)]), t, 0)
    ensures r.flow.Stop?
    ensures r.trace == [Checked(t.Now(), false), Checked(Moment(t.next + 1, t.here), false),
                        Checked(Moment(t.next + 3, t.here), true)]
  {
    var kids := [Wait(w), Action(a)];
    var entry := Check(s, t);
    r := RunNode(s, Seq(kids), t, 0);
    var first := entry.Then(RunNode(s, kids[0], entry.after, 0));
    assert first.flow.Continue? && first.after.next == t.next + 3;
    var second := first.Then(RunNode(s, kids[1], first.after, 0));
    assert second.flow.Stop?;
    assert RunSeq(s, kids, 1, first, 0) == second;
    assert RunSeq(s, kids, 0, entry, 0) == RunSeq(s, kids, 1, first, 0);
  }

  /** Two branches, forked behind an entry check that found the token unset. */
  lemma RunTwo(s: Setup, x: Node, y: Node, t: Task, depth: nat)
    requires Check(s, t).flow.Continue?
    ensures var entry := Check(s, t);
      var r0 := RunNode(s, x, Forked(entry.after, t.next, 0, entry.after), depth);
      var r1 := RunNode(s, y, Forked(entry.after, t.next, 1, r0.after), depth);
      RunNode(s, Parallel([x, y]), t, depth) == WithBranch(entry.after, WithBranch(entry.after, entry, r0), r1)
  {
    var (kids, entry) := ([x, y], Check(s, t));
    assert RunNode(s, Parallel(kids), t, depth) == RunBranches(s, kids, 0, entry.after, t.next, entry, depth);
    hide RunNode;
    var r0 := RunNode(s, x, Forked(entry.after, t.next, 0, entry.after), depth);
    var acc := WithBranch(entry.after, entry, r0);
    var r1 := RunNode(s, y, Forked(entry.after, t.next, 1, r0.after), depth);
    assert RunBranches(s, kids, 1, entry.after, t.next, acc, depth)
        == RunBranches(s, kids, 2, entry.after, t.next, WithBranch(entry.after, acc, r1), depth);
  }

  function RivalMarks(left: Branch, right: Branch): seq<Mark> {
    [Checked(Moment(0, []), false),
     Checked(Moment(1, left), false), Checked(Moment(2, left), false), TokenSet(Moment(4, left)),
     Checked(Moment(5, right), false), Checked(Moment(6, right), false), Checked(Moment(8, right), true)]
  }

  lemma RivalsRun(s: Setup, w: nat, ms: nat, a: ActionConfig, locals: Locals)
    requires forall k :: s.answer(k).cancelled <==> k == 8
    requires s.answer(3).elapsed == Some(0)
    ensures var r := RunWorkflow(s, Rivals(w, ms, a), locals);
      r.trace == RivalMarks([(0, 0)], [(0, 1)]) && r.flow == Failed
  {
    hide RunNode;
    var entry := Check(s, Fresh(s, locals));
    RunTwo(s, Timeout(Wait(w), ms), Seq([Wait(w), Action(a)]), Fresh(s, locals), 0);
    var r0 := WaitTimesOut(s, w, ms, Forked(entry.after, 0, 0, entry.after));
    var r1 := WaitThenStop(s, w, a, Forked(entry.after, 0, 1, r0.after));
    assert entry.trace + r0.trace + r1.trace == RivalMarks([] + [(0, 0)], [] + [(0, 1)]);
    assert [] + [(0, 0)] == [(0, 0)] && [] + [(0, 1)] == [(0, 1)];
  }

  /** The other branch finds the token set, as the clock demands, and starts nothing. */
  lemma SiblingStops(s: Setup, w: nat, ms: nat, a: ActionConfig, locals: Locals)
    requires forall k :: s.answer(k).cancelled <==> k == 8
    requires s.answer(3).elapsed == Some(0)
    ensures var r := RunWorkflow(s, Rivals(w, ms, a), locals);
      && Shared(r.trace, RivalClock, None) && InOrder(r.trace, RivalClock)
      && (exists i :: 0 <= i < |r.trace| && r.trace[i].TokenSet?)
      && (forall i :: 0 <= i < |r.trace| ==> !r.trace[i].Started?)
  {
    hide RunNode, InOrder, Shared;
    RivalsRun(s, w, ms, a, locals);
    var trace := RivalMarks([(0, 0)], [(0, 1)]);
    Parting([(0, 0)], [(0, 1)]);
    RivalsInOrder([(0, 0)], [(0, 1)]);
    RivalsShared([(0, 0)], [(0, 1)]);
    assert trace[3].TokenSet?;
  }

  lemma RivalsInOrder(left: Branch, right: Branch)
    requires Siblings(left, right)
    ensures InOrder(RivalMarks(left, right), RivalClock)
  {
    hide Siblings;
  }

  lemma RivalsShared(left: Branch, right: Branch)
    ensures Shared(RivalMarks(left, right), RivalClock, None)
  {
    var trace := RivalMarks(left, right);
    assert trace[3].TokenSet? && RivalClock(trace[3].at.step) < RivalClock(8);
  }

  lemma Parting(p: Branch, q: Branch)
    requires |p| == |q| == 1 && p[0].0 == q[0].0 && p[0].1 != q[0].1
    ensures Siblings(p, q)
  {
    assert p[..0] == q[..0];
  }
}
