// What each kind of node does, in terms of the runs of its parts and of what the surroundings answer.
module InterpreterMeaning {
  import opened Domain
  import opened Interpreter
  import opened ConstraintMeaning
  import opened InterpreterSafety
  import opened InterpreterRetry

  /// Entering a node

  /** The task finds the token unset when it looks at it now. */
  predicate Opens(s: Setup, t: Task) {
    !t.token && !s.answer(t.next).cancelled
  }

  /** The task some steps later. */
  function Onward(t: Task, steps: nat): Task {
    t.(next := t.next + steps)
  }

  /** A run with these events and starts, which ends with this flow. */
  predicate Does(r: Run, flow: Flow, events: seq<EngineEvent>, starts: seq<ActionConfig>) {
    r.flow == flow && r.events == events && StartedIn(r.trace) == starts
  }

  /** The same flow, events, starts, locals and store. */
  predicate DoesAs(r: Run, other: Run) {
    && Does(r, other.flow, other.events, StartedIn(other.trace))
    && r.after.locals == other.after.locals && r.after.store == other.after.store
  }

  /** The task still has its locals, and the store is as it was. */
  predicate Untouched(r: Run, t: Task) {
    r.after.locals == t.locals && r.after.store == t.store
  }

  lemma CheckMeans(s: Setup, t: Task)
    ensures var entry := Check(s, t);
      && entry.after == Onward(t, 1).(token := !Opens(s, t))
      && Does(entry, if Opens(s, t) then Continue else Stop, [], [])
  {
    NoStarts(Check(s, t).trace);
  }

  /** A node that is entered with the token set does nothing. */
  lemma StoppedNodeDoesNothing(s: Setup, n: Node, t: Task, depth: nat)
    requires !Opens(s, t)
    ensures Does(RunNode(s, n, t, depth), Stop, [], []) && Untouched(RunNode(s, n, t, depth), t)
  {
    CheckMeans(s, t);
  }

  /** Behind a run without events and starts another does as alone. */
  lemma ThenDoes(a: Run, r: Run)
    requires a.events == [] && StartedIn(a.trace) == []
    ensures DoesAs(a.Then(r), r)
  {
    StartedBoth(a.trace, r.trace);
  }

  lemma EndsDoes(a: Run, flow: Flow, events: seq<EngineEvent>)
    requires a.events == [] && StartedIn(a.trace) == []
    ensures Does(a.Ends(flow, events), flow, events, []) && Untouched(a.Ends(flow, events), a.after)
  {
    NoStarts([]);
    ThenDoes(a, Run(flow, events, a.after.Later(), []));
  }

  /// Actions

  /** The first of these permissions that is not granted. */
  predicate IsFirstMissing(p: Permission, required: seq<Permission>, grant: seq<Permission>) {
    exists i :: 0 <= i < |required| && required[i] == p && p !in grant
                && forall j :: 0 <= j < i ==> required[j] in grant
  }

  lemma {:induction false} FirstMissingMeans(required: seq<Permission>, grant: seq<Permission>)
    ensures var m := FirstMissing(required, grant);
      if m.Some? then IsFirstMissing(m.value, required, grant) else forall p <- required :: p in grant
  {
    if required != [] {
      var rest := required[1..];
      FirstMissingMeans(rest, grant);
      assert required == [required[0]] + rest;
      if required[0] !in grant {
        assert IsFirstMissing(required[0], required, grant);
      } else if FirstMissing(rest, grant).Some? {
        var p := FirstMissing(rest, grant).value;
        var i :| 0 <= i < |rest| && rest[i] == p && p !in grant && forall j :: 0 <= j < i ==> rest[j] in grant;
        assert required[i + 1] == p;
        assert forall j :: 0 < j < i + 1 ==> required[j] == rest[j - 1];
      }
    }
  }

  /** One of the timeouts around the task ends while it waits at step `k`. */
  predicate TimeIsUp(s: Setup, k: nat, depth: nat) {
    s.answer(k).elapsed.Some? && s.answer(k).elapsed.value < depth
  }

  /** An action that cannot be built fails; in a dry run it is logged; without a permission it fails and names the first
      that is missing. Otherwise it waits for its locks, if it has any, and starts. */
  lemma ActionMeans(s: Setup, a: ActionConfig, t: Task, depth: nat)
    requires Opens(s, t)
    ensures var r := RunNode(s, Action(a), t, depth);
      match s.build(a)
      case Unknown(e) => Does(r, Failed, [Error(s.macroId, BuildFailed(e))], []) && Untouched(r, t)
      case Ready(required, resources) =>
        if s.dryRun then Does(r, Continue, [DryRunLog(s.macroId, a)], []) && Untouched(r, t)
        else if exists p <- required :: p !in s.grant then
          && Untouched(r, t)
          && exists p :: IsFirstMissing(p, required, s.grant)
                         && Does(r, Failed, [Error(s.macroId, PermissionDenied(p))], [])
        else if resources != [] && TimeIsUp(s, t.next + 1, depth) then
          Does(r, Dropped(s.answer(t.next + 1).elapsed.value), [], []) && Untouched(r, t)
        else ActionStarts(s, a, t, depth, r)
  {
    hide RunAction;
    var entry := Check(s, t);
    CheckMeans(s, t);
    ActionAlone(s, a, entry.after, depth);
    ThenDoes(entry, RunAction(s, a, entry.after, depth));
    if s.build(a).Ready? {
      FirstMissingMeans(s.build(a).required, s.grant);
    }
  }

  /** It executes two steps after its node was entered, with what that step answers: an action that ends normally
      continues, one that asks to stop stops, and one that fails fails. */
  ghost predicate ActionStarts(s: Setup, a: ActionConfig, t: Task, depth: nat, r: Run) {
    var answer := s.answer(t.next + 2);
    && StartedIn(r.trace) == [a] && r.after.locals == answer.locals && r.after.store == answer.effect(t.store)
    && (if TimeIsUp(s, t.next + 2, depth) then r.flow == Dropped(answer.elapsed.value) && r.events == []
        else match answer.outcome
          case Proceed => r.flow == Continue && r.events == []
          case Halt => r.flow == Stop && r.events == []
          case Break(e) => r.flow == Failed && r.events == [Error(s.macroId, ActionFailed(e))])
  }

  lemma ActionAlone(s: Setup, a: ActionConfig, t: Task, depth: nat)
    ensures var r := RunAction(s, a, t, depth);
      match s.build(a)
      case Unknown(e) => Does(r, Failed, [Error(s.macroId, BuildFailed(e))], []) && Untouched(r, t)
      case Ready(required, resources) =>
        var missing := FirstMissing(required, s.grant);
        if s.dryRun then Does(r, Continue, [DryRunLog(s.macroId, a)], []) && Untouched(r, t)
        else if missing.Some? then
          Does(r, Failed, [Error(s.macroId, PermissionDenied(missing.value))], []) && Untouched(r, t)
        else if resources != [] && Elapsed(s, t.next, depth).Some? then
          Does(r, Dropped(Elapsed(s, t.next, depth).value), [], []) && Untouched(r, t)
        else
          var e := Execute(s, a, t.Later(), depth);
          r == e && StartedIn(r.trace) == [a]
  {
    hide FirstMissing;
    var r := RunAction(s, a, t, depth);
    if r.trace != [] {
      assert r.trace[..0] == [];
    }
  }

  /// Conditionals

  /** A conditional does what the branch for its condition does, whose run begins two steps on: nothing if there is no
      such branch; if the condition cannot be evaluated, it fails and starts nothing. */
  lemma IfMeans(s: Setup, c: ConstraintExpr, yes: Node, no: Option<Node>, t: Task, depth: nat)
    requires Opens(s, t)
    ensures var (r, start) := (RunNode(s, IfElse(c, yes, no), t, depth), Onward(t, 2));
      match Eval(c, s.answer(t.next + 1).leaf)
      case Holds(true) => DoesAs(r, RunNode(s, yes, start, depth))
      case Holds(false) =>
        if no.Some? then DoesAs(r, RunNode(s, no.value, start, depth))
        else Does(r, Continue, [], []) && Untouched(r, t)
      case Fails(e) => Does(r, Failed, [Error(s.macroId, ConditionFailed(e))], []) && Untouched(r, t)
  {
    hide Eval;
    CheckMeans(s, t);
    var entry := Check(s, t);
    var start := entry.after.Later();
    assert RunNode(s, IfElse(c, yes, no), t, depth) == RunIf(s, IfElse(c, yes, no), entry, depth);
    hide RunNode;
    match Condition(s, c, entry.after.next)
    case Holds(true) => ThenDoes(entry, RunNode(s, yes, start, depth));
    case Holds(false) =>
      if no.Some? {
        ThenDoes(entry, RunNode(s, no.value, start, depth));
      } else {
        EndsDoes(entry, Continue, []);
      }
    case Fails(e) => EndsDoes(entry, Failed, [Error(s.macroId, ConditionFailed(e))]);
  }

  /// Waiting

  /** A wait starts nothing; it continues, unless an enclosing timeout ends meanwhile. */
  lemma WaitMeans(s: Setup, ms: nat, t: Task, depth: nat)
    requires Opens(s, t)
    ensures var r := RunNode(s, Wait(ms), t, depth);
      && Untouched(r, t)
      && Does(r, if TimeIsUp(s, t.next + 1, depth) then Dropped(s.answer(t.next + 1).elapsed.value)
                 else Continue, [], [])
  {
    CheckMeans(s, t);
    var entry := Check(s, t);
    var e := Elapsed(s, entry.after.next, depth);
    EndsDoes(entry, if e.Some? then Dropped(e.value) else Continue, []);
  }

  /** A timeout runs its body under one more timeout. When it ends first, what the body started stays done, but its
      events are lost: the node fails and the token is set. Otherwise it does as its body. */
  lemma TimeoutMeans(s: Setup, body: Node, ms: nat, t: Task, depth: nat)
    requires Opens(s, t)
    ensures var (r, inner) := (RunNode(s, Timeout(body, ms), t, depth), RunNode(s, body, Onward(t, 1), depth + 1));
      && r.after.locals == inner.after.locals && r.after.store == inner.after.store
      && match inner.flow
         case Dropped(0) =>
           Does(r, Failed, [Error(s.macroId, TimedOut(ms))], StartedIn(inner.trace)) && r.after.token
         case Dropped(outer) => Does(r, Dropped(outer - 1), inner.events, StartedIn(inner.trace))
         case flow => Does(r, flow, inner.events, StartedIn(inner.trace))
  {
    CheckMeans(s, t);
    var (entry, inner) := (Check(s, t), RunNode(s, body, Onward(t, 1), depth + 1));
    assert RunNode(s, Timeout(body, ms), t, depth) == entry.Then(Limited(s, inner, ms));
    hide RunNode;
    ThenDoes(entry, Limited(s, inner, ms));
    StartedBoth(inner.trace, [TokenSet(inner.after.Now())]);
    NoStarts([TokenSet(inner.after.Now())]);
  }

  /// Rounds: sequences and loops

  /** What round `i` runs, and as which task, when the task stands at `t` before it; nothing if there is no such
      round. */
  type Plan = (nat, Task) -> Option<(Node, Task)>

  /** A sequence runs its children in order. */
  function SeqPlan(kids: seq<Node>): Plan {
    (i: nat, t: Task) => if i < |kids| then Some((kids[i], t)) else None
  }

  /** A loop over items binds item `i` and runs the body, after a check that finds the token unset. */
  function ForEachPlan(s: Setup, items: seq<Value>, name: string, body: Node): Plan {
    (i: nat, t: Task) =>
      if i < |items| && Opens(s, t) then Some((body, Onward(t, 1).(locals := t.locals[name := items[i]]))) else None
  }

  /** A conditional loop runs its body, at most `max` times, after a check that finds the token unset and a condition
      that holds. */
  function WhilePlan(s: Setup, c: ConstraintExpr, body: Node, max: nat): Plan {
    (i: nat, t: Task) =>
      if i < max && Opens(s, t) && Eval(c, s.answer(t.next + 1).leaf) == Holds(true)
      then Some((body, Onward(t, 2))) else None
  }

  /** Where the task stands before round `x` of `rs`. */
  function Before(t: Task, rs: seq<Run>, x: nat): Task
    requires x <= |rs|
  {
    if x == 0 then t else rs[x - 1].after
  }

  /** `rs` are the rounds from number `i` on: each is run as planned, and another follows exactly when there is one
      and the round before continues. */
  ghost predicate Rounds(s: Setup, plan: Plan, i: nat, t: Task, depth: nat, rs: seq<Run>) {
    && (rs == [] <==> plan(i, t).None?)
    && (forall x: nat :: x < |rs| ==>
          && plan(i + x, Before(t, rs, x)).Some?
          && var (n, start) := plan(i + x, Before(t, rs, x)).value; rs[x] == RunNode(s, n, start, depth))
    && (forall x: nat :: x < |rs| ==>
          (x + 1 < |rs| <==> rs[x].flow.Continue? && plan(i + x + 1, rs[x].after).Some?))
  }

  function LastFlow(rs: seq<Run>): Flow {
    if rs == [] then Continue else rs[|rs| - 1].flow
  }

  /** `out` is `acc` and then the rounds `rs`. */
  predicate Adds(acc: Run, rs: seq<Run>, out: Run) {
    && out.events == acc.events + EventsOf(rs) && StartedIn(out.trace) == StartedIn(acc.trace) + StartsOf(rs)
    && out.after.locals == Before(acc.after, rs, |rs|).locals && out.after.store == Before(acc.after, rs, |rs|).store
  }

  lemma RoundsNone(s: Setup, plan: Plan, i: nat, t: Task, depth: nat)
    requires plan(i, t).None?
    ensures Rounds(s, plan, i, t, depth, [])
  {
  }

  lemma RoundsNext(s: Setup, plan: Plan, i: nat, t: Task, depth: nat, r: Run, rs: seq<Run>)
    requires plan(i, t).Some? && r == RunNode(s, plan(i, t).value.0, plan(i, t).value.1, depth)
    requires if r.flow.Continue? then Rounds(s, plan, i + 1, r.after, depth, rs) else rs == []
    ensures Rounds(s, plan, i, t, depth, [r] + rs)
  {
    hide RunNode;
    var all := [r] + rs;
    forall x: nat | x < |all|
      ensures plan(i + x, Before(t, all, x)).Some?
      ensures var (n, start) := plan(i + x, Before(t, all, x)).value; all[x] == RunNode(s, n, start, depth)
      ensures x + 1 < |all| <==> all[x].flow.Continue? && plan(i + x + 1, all[x].after).Some?
    {
      if x > 0 {
        assert all[x] == rs[x - 1] && Before(t, all, x) == Before(r.after, rs, x - 1);
        assert i + x == (i + 1) + (x - 1);
      }
    }
  }

  lemma AddsNext(acc: Run, r: Run, rs: seq<Run>, out: Run)
    requires Adds(acc.Then(r), rs, out)
    ensures Adds(acc, [r] + rs, out)
  {
    hide StartedIn;
    StartedBoth(acc.trace, r.trace);
    var all := [r] + rs;
    assert all[0] == r && all[1..] == rs;
    assert Before(acc.after, all, |all|) == Before(r.after, rs, |rs|);
  }

  lemma AddsNone(acc: Run)
    ensures Adds(acc, [], acc)
  {
  }

  lemma {:induction false} SeqFrom(s: Setup, kids: seq<Node>, i: nat, acc: Run, depth: nat) returns (rs: seq<Run>)
    requires i <= |kids| && acc.flow.Continue?
    ensures var out := RunSeq(s, kids, i, acc, depth);
      && Rounds(s, SeqPlan(kids), i, acc.after, depth, rs) && Adds(acc, rs, out) && out.flow == LastFlow(rs)
    decreases |kids| - i
  {
    hide RunNode, Rounds, Adds;
    rs := [];
    if i == |kids| {
      RoundsNone(s, SeqPlan(kids), i, acc.after, depth);
      AddsNone(acc);
    } else {
      var r := RunNode(s, kids[i], acc.after, depth);
      if r.flow.Continue? {
        rs := SeqFrom(s, kids, i + 1, acc.Then(r), depth);
      } else {
        AddsNone(acc.Then(r));
      }
      RoundsNext(s, SeqPlan(kids), i, acc.after, depth, r, rs);
      AddsNext(acc, r, rs, RunSeq(s, kids, i, acc, depth));
      rs := [r] + rs;
    }
  }

  /** A sequence runs its children one after the other, each where the one before left off, up to the first that does
      not continue; its flow is that one's, its events and starts are those of the children in order. */
  lemma SeqMeans(s: Setup, kids: seq<Node>, t: Task, depth: nat) returns (rs: seq<Run>)
    requires Opens(s, t)
    ensures var r := RunNode(s, Seq(kids), t, depth);
      && Rounds(s, SeqPlan(kids), 0, Onward(t, 1), depth, rs)
      && Does(r, LastFlow(rs), EventsOf(rs), StartsOf(rs))
      && r.after.locals == Before(t, rs, |rs|).locals && r.after.store == Before(t, rs, |rs|).store
  {
    hide Rounds, StartedIn;
    CheckMeans(s, t);
    rs := SeqFrom(s, kids, 0, Check(s, t), depth);
  }

  lemma {:induction false} ForEachFrom(s: Setup, n: Node, i: nat, acc: Run, depth: nat) returns (rs: seq<Run>)
    requires n.ForEach? && i <= |Items(n.items)| && acc.flow.Continue?
    ensures var out := RunForEach(s, n, i, acc, depth);
      && Rounds(s, ForEachPlan(s, Items(n.items), n.varName, n.body), i, acc.after, depth, rs)
      && Adds(acc, rs, out) && out.flow == LastFlow(rs)
    decreases |Items(n.items)| - i
  {
    hide RunNode, Rounds, Adds, Check;
    rs := [];
    var (items, plan, t) := (Items(n.items), ForEachPlan(s, Items(n.items), n.varName, n.body), acc.after);
    CheckMeans(s, t);
    var acc1 := acc.Then(Check(s, t));
    if i == |items| || !Opens(s, t) {
      RoundsNone(s, plan, i, t, depth);
      AddsNone(acc);
      AddsStop(acc, Check(s, t), Continue, []);
    } else {
      var r := RunNode(s, n.body, Bound(acc1.after, n.varName, items[i]), depth);
      if r.flow.Continue? {
        rs := ForEachFrom(s, n, i + 1, acc1.Then(r), depth);
      } else {
        AddsNone(acc1.Then(r));
      }
      RoundsNext(s, plan, i, t, depth, r, rs);
      AddsNext(acc1, r, rs, RunForEach(s, n, i, acc, depth));
      AddsBehind(acc, Check(s, t), [r] + rs, RunForEach(s, n, i, acc, depth));
      rs := [r] + rs;
    }
  }

  /** A look at the token, or a step like it, adds nothing to the rounds before it. */
  lemma AddsStop(acc: Run, check: Run, flow: Flow, events: seq<EngineEvent>)
    requires Does(check, check.flow, [], []) && Untouched(check, acc.after)
    ensures Adds(acc, [], acc.Then(check).(flow := flow))
    ensures StartedIn(acc.Then(check).Ends(flow, events).trace) == StartedIn(acc.trace)
    ensures acc.Then(check).Ends(flow, events).events == acc.events + events
    ensures Untouched(acc.Then(check).Ends(flow, events), acc.after)
  {
    StartedBoth(acc.trace, check.trace);
    assert acc.events + check.events == acc.events && (acc.trace + check.trace) + [] == acc.trace + check.trace;
    assert StartedIn(acc.trace) + [] == StartedIn(acc.trace);
  }

  lemma AddsBehind(acc: Run, check: Run, rs: seq<Run>, out: Run)
    requires Does(check, check.flow, [], []) && Untouched(check, acc.after)
    requires rs != [] && Adds(acc.Then(check), rs, out)
    ensures Adds(acc, rs, out)
  {
    hide StartedIn, EventsOf, StartsOf;
    StartedBoth(acc.trace, check.trace);
    assert acc.events + check.events == acc.events;
    assert StartedIn(acc.trace) + [] == StartedIn(acc.trace);
  }

  /** A loop over items runs its body once per item, in order, with the item bound, up to the first round that does not
      continue or a check that finds the token set. A value that is no list has no items. */
  lemma ForEachMeans(s: Setup, items: Value, name: string, body: Node, t: Task, depth: nat) returns (rs: seq<Run>)
    requires Opens(s, t)
    ensures var r := RunNode(s, ForEach(items, name, body), t, depth);
      var plan := ForEachPlan(s, if items.List? then items.elems else [], name, body);
      && Rounds(s, plan, 0, Onward(t, 1), depth, rs)
      && Does(r, LastFlow(rs), EventsOf(rs), StartsOf(rs))
      && r.after.locals == Before(t, rs, |rs|).locals && r.after.store == Before(t, rs, |rs|).store
  {
    hide Rounds, StartedIn;
    CheckMeans(s, t);
    rs := ForEachFrom(s, ForEach(items, name, body), 0, Check(s, t), depth);
  }

  /** How a conditional loop ends, when the task stands at `p` behind `count` rounds that continue: the bound or the
      token ends it, or its condition; a condition that cannot be evaluated fails it. */
  function WhileEnd(s: Setup, c: ConstraintExpr, max: nat, count: nat, p: Task): (Flow, seq<EngineEvent>) {
    if count == max || !Opens(s, p) then (Continue, [])
    else
      match Eval(c, s.answer(p.next + 1).leaf)
      case Holds(_) => (Continue, [])
      case Fails(e) => (Failed, [Error(s.macroId, ConditionFailed(e))])
  }

  /** `out` is `acc` and then these rounds, and what ends them. */
  ghost predicate WhileEnds(s: Setup, n: Node, i: nat, acc: Run, rs: seq<Run>, out: Run)
    requires n.While?
  {
    var p := Before(acc.after, rs, |rs|);
    var (flow, events) :=
      if LastFlow(rs).Continue? then WhileEnd(s, n.cond, n.maxIter, i + |rs|, p) else (LastFlow(rs), []);
    && out.flow == flow && out.events == acc.events + EventsOf(rs) + events
    && StartedIn(out.trace) == StartedIn(acc.trace) + StartsOf(rs)
    && out.after.locals == p.locals && out.after.store == p.store
  }

  lemma {:induction false} WhileFrom(s: Setup, n: Node, i: nat, acc: Run, depth: nat) returns (rs: seq<Run>)
    requires n.While? && i <= n.maxIter && acc.flow.Continue?
    ensures Rounds(s, WhilePlan(s, n.cond, n.body, n.maxIter), i, acc.after, depth, rs)
    ensures WhileEnds(s, n, i, acc, rs, RunWhile(s, n, i, acc, depth))
    decreases n.maxIter - i
  {
    hide RunNode, Rounds, Check, Eval, WhileEnds;
    rs := [];
    var (plan, t) := (WhilePlan(s, n.cond, n.body, n.maxIter), acc.after);
    CheckMeans(s, t);
    var acc1 := acc.Then(Check(s, t));
    if plan(i, t).None? {
      RoundsNone(s, plan, i, t, depth);
      WhileNone(s, n, i, acc, depth);
    } else {
      var r := RunNode(s, n.body, acc1.after.Later(), depth);
      assert acc1.after.Later() == Onward(t, 2) && plan(i, t) == Some((n.body, Onward(t, 2)));
      if r.flow.Continue? {
        rs := WhileFrom(s, n, i + 1, acc1.Then(r), depth);
      }
      RoundsNext(s, plan, i, t, depth, r, rs);
      WhileNext(s, n, i, acc, r, rs, RunWhile(s, n, i, acc, depth));
      rs := [r] + rs;
    }
  }

  lemma WhileNone(s: Setup, n: Node, i: nat, acc: Run, depth: nat)
    requires n.While? && i <= n.maxIter && acc.flow.Continue?
    requires WhilePlan(s, n.cond, n.body, n.maxIter)(i, acc.after).None?
    ensures WhileEnds(s, n, i, acc, [], RunWhile(s, n, i, acc, depth))
  {
    hide RunNode, Check, Eval;
    var (t, v) := (acc.after, Eval(n.cond, s.answer(acc.after.next + 1).leaf));
    CheckMeans(s, t);
    AddsStop(acc, Check(s, t), Continue, []);
    if v.Fails? {
      AddsStop(acc, Check(s, t), Failed, [Error(s.macroId, ConditionFailed(v.error))]);
    }
  }

  lemma WhileNext(s: Setup, n: Node, i: nat, acc: Run, r: Run, rs: seq<Run>, out: Run)
    requires n.While? && Opens(s, acc.after)
    requires var acc1 := acc.Then(Check(s, acc.after));
      if r.flow.Continue? then WhileEnds(s, n, i + 1, acc1.Then(r), rs, out) else rs == [] && out == acc1.Then(r)
    ensures WhileEnds(s, n, i, acc, [r] + rs, out)
  {
    hide StartedIn, Check, WhileEnd, EventsOf, StartsOf;
    var (check, all) := (Check(s, acc.after), [r] + rs);
    CheckMeans(s, acc.after);
    StartedBoth(acc.trace, check.trace);
    StartedBoth(acc.trace + check.trace, r.trace);
    PartsOfNext(r, rs);
    assert Before(acc.after, all, |all|) == Before(r.after, rs, |rs|);
    assert LastFlow(all) == if rs == [] then r.flow else LastFlow(rs);
    assert acc.events + check.events == acc.events;
    assert StartedIn(acc.trace) + [] == StartedIn(acc.trace);
    if !r.flow.Continue? {
      PartsOfNone();
      assert r.events + [] == r.events;
    }
  }

  lemma PartsOfNext(r: Run, rs: seq<Run>)
    ensures EventsOf([r] + rs) == r.events + EventsOf(rs) && StartsOf([r] + rs) == StartedIn(r.trace) + StartsOf(rs)
  {
    hide StartedIn;
    assert ([r] + rs)[0] == r && ([r] + rs)[1..] == rs;
  }

  lemma PartsOfNone()
    ensures EventsOf([]) == [] && StartsOf([]) == []
  {
  }

  /** A conditional loop runs its body again and again, each round behind a check that finds the token unset and a
      condition that holds, at most `max` times; it ends with the first round that does not continue, or as `WhileEnd`
      says. */
  lemma WhileMeans(s: Setup, c: ConstraintExpr, body: Node, max: nat, t: Task, depth: nat) returns (rs: seq<Run>)
    requires Opens(s, t)
    ensures Rounds(s, WhilePlan(s, c, body, max), 0, Onward(t, 1), depth, rs)
    ensures var (r, p) := (RunNode(s, While(c, body, max), t, depth), Before(Onward(t, 1), rs, |rs|));
      var (flow, events) := if LastFlow(rs).Continue? then WhileEnd(s, c, max, |rs|, p) else (LastFlow(rs), []);
      && Does(r, flow, EventsOf(rs) + events, StartsOf(rs))
      && r.after.locals == p.locals && r.after.store == p.store
  {
    hide Rounds, StartedIn, WhileEnd, RunNode, RunWhile, Check, WhilePlan;
    CheckMeans(s, t);
    var n := While(c, body, max);
    WhileNode(s, n, t, depth);
    rs := WhileFrom(s, n, 0, Check(s, t), depth);
  }

  lemma WhileNode(s: Setup, n: Node, t: Task, depth: nat)
    requires n.While? && Opens(s, t)
    ensures RunNode(s, n, t, depth) == RunWhile(s, n, 0, Check(s, t), depth)
  {
  }

  /// Parallel branches

  /** The start of a branch. */
  function BranchStart(t: Task, fork: nat, i: nat, before: Task): Task {
    Task(t.here + [(fork, i)], t.locals, before.store, t.token, before.next)
  }

  /** Branch `i` starts from the parent's locals, with the token unset as at the fork, on the store as the branches
      before it leave it; its steps are numbered behind theirs. */
  ghost predicate Forks(s: Setup, kids: seq<Node>, i: nat, t: Task, fork: nat, sofar: Task, depth: nat, rs: seq<Run>) {
    && i + |rs| == |kids|
    && forall x: nat :: x < |rs| ==>
         rs[x] == RunNode(s, kids[i + x], BranchStart(t, fork, i + x, Before(sofar, rs, x)), depth)
  }

  lemma {:induction false} BranchesFrom(s: Setup, kids: seq<Node>, i: nat, t: Task, fork: nat, acc: Run, depth: nat)
    requires i <= |kids|
    ensures Branches(s, kids, i, t, fork, acc, depth, BranchRuns(s, kids, i, t, fork, acc.after, depth),
                     RunBranches(s, kids, i, t, fork, acc, depth))
    decreases |kids| - i
  {
    hide RunNode, RunBranches, Branches, Worse;
    if i == |kids| {
      BranchesNone(s, kids, t, fork, acc, depth);
    } else {
      var r := RunNode(s, kids[i], Forked(t, fork, i, acc.after), depth);
      var acc1 := WithBranch(t, acc, r);
      BranchesFrom(s, kids, i + 1, t, fork, acc1, depth);
      BranchesSame(s, kids, i + 1, t, fork, acc1.after, r.after, depth);
      BranchesNext(s, kids, i, t, fork, acc, depth, r, BranchRuns(s, kids, i + 1, t, fork, r.after, depth));
    }
  }

  lemma BranchesNone(s: Setup, kids: seq<Node>, t: Task, fork: nat, acc: Run, depth: nat)
    ensures Branches(s, kids, |kids|, t, fork, acc, depth, BranchRuns(s, kids, |kids|, t, fork, acc.after, depth),
                     RunBranches(s, kids, |kids|, t, fork, acc, depth))
  {
  }

  ghost predicate Branches(s: Setup, kids: seq<Node>, i: nat, t: Task, fork: nat, acc: Run, depth: nat, rs: seq<Run>,
                           out: Run) {
    && Forks(s, kids, i, t, fork, acc.after, depth, rs)
    && out.events == acc.events + EventsOf(rs) && StartedIn(out.trace) == StartedIn(acc.trace) + StartsOf(rs)
    && out.after.store == Before(acc.after, rs, |rs|).store
  }

  lemma BranchesNext(s: Setup, kids: seq<Node>, i: nat, t: Task, fork: nat, acc: Run, depth: nat, r: Run, rs: seq<Run>)
    requires i < |kids| && r == RunNode(s, kids[i], Forked(t, fork, i, acc.after), depth)
    requires rs == BranchRuns(s, kids, i + 1, t, fork, r.after, depth)
    requires Branches(s, kids, i + 1, t, fork, WithBranch(t, acc, r), depth, rs,
                      RunBranches(s, kids, i + 1, t, fork, WithBranch(t, acc, r), depth))
    ensures BranchRuns(s, kids, i, t, fork, acc.after, depth) == [r] + rs
    ensures Branches(s, kids, i, t, fork, acc, depth, [r] + rs, RunBranches(s, kids, i, t, fork, acc, depth))
  {
    hide RunNode, StartedIn, Worse, Forks;
    var all := [r] + rs;
    StartedBoth(acc.trace, r.trace);
    ForksNext(s, kids, i, t, fork, acc.after, depth, r, rs, WithBranch(t, acc, r).after);
    assert all[0] == r && all[1..] == rs;
    assert Before(acc.after, all, |all|).store == Before(WithBranch(t, acc, r).after, rs, |rs|).store;
    assert RunBranches(s, kids, i, t, fork, acc, depth)
        == RunBranches(s, kids, i + 1, t, fork, WithBranch(t, acc, r), depth);
  }

  /** Of what went before, branches see the store and the step number. */
  lemma {:induction false} BranchesSame(s: Setup, kids: seq<Node>, i: nat, t: Task, fork: nat, a: Task, b: Task,
                                        depth: nat)
    requires i <= |kids| && a.store == b.store && a.next == b.next
    ensures BranchRuns(s, kids, i, t, fork, a, depth) == BranchRuns(s, kids, i, t, fork, b, depth)
  {
    hide RunNode;
  }

  lemma ForksNext(s: Setup, kids: seq<Node>, i: nat, t: Task, fork: nat, sofar: Task, depth: nat, r: Run, rs: seq<Run>,
                  next: Task)
    requires i < |kids| && r == RunNode(s, kids[i], Forked(t, fork, i, sofar), depth)
    requires next.store == r.after.store && next.next == r.after.next
    requires Forks(s, kids, i + 1, t, fork, next, depth, rs)
    ensures Forks(s, kids, i, t, fork, sofar, depth, [r] + rs)
  {
    hide RunNode, BranchStart;
    var all := [r] + rs;
    ForkedStart(t, fork, i, sofar);
    forall x: nat | x < |all|
      ensures all[x] == RunNode(s, kids[i + x], BranchStart(t, fork, i + x, Before(sofar, all, x)), depth)
    {
      if x > 0 {
        assert all[x] == rs[x - 1] && i + x == (i + 1) + (x - 1);
        SameStarts(t, fork, i + x, Before(sofar, all, x), Before(next, rs, x - 1));
      }
    }
  }

  lemma ForkedStart(t: Task, fork: nat, i: nat, sofar: Task)
    ensures Forked(t, fork, i, sofar) == BranchStart(t, fork, i, sofar)
  {
  }

  lemma SameStarts(t: Task, fork: nat, i: nat, a: Task, b: Task)
    requires a.store == b.store && a.next == b.next
    ensures BranchStart(t, fork, i, a) == BranchStart(t, fork, i, b)
  {
  }

  /** A parallel node runs every child once, each as a branch of its own; its flow is the worst of theirs, its events
      and starts are those of the branches in order, and it leaves the parent's locals. */
  lemma ParallelMeans(s: Setup, kids: seq<Node>, t: Task, depth: nat) returns (rs: seq<Run>)
    requires Opens(s, t)
    ensures var r := RunNode(s, Parallel(kids), t, depth);
      && Forks(s, kids, 0, t, t.next, Onward(t, 1), depth, rs)
      && WorstOf(r.flow, Continue, rs)
      && r.events == EventsOf(rs) && StartedIn(r.trace) == StartsOf(rs)
      && r.after.locals == t.locals && r.after.store == Before(t, rs, |rs|).store
  {
    hide StartedIn, WorstOf, RunBranches, BranchRuns;
    CheckMeans(s, t);
    ParallelTakesWorst(s, kids, t, depth);
    var entry := Check(s, t);
    BranchesFrom(s, kids, 0, entry.after, t.next, entry, depth);
    rs := BranchRuns(s, kids, 0, entry.after, t.next, entry.after, depth);
  }

  /// A macro without a workflow of its own

  /** A single action starts at most itself, and exactly itself if it continues outside a dry run. */
  lemma ActionStartsItself(s: Setup, a: ActionConfig, t: Task, depth: nat)
    ensures var r := RunNode(s, Action(a), t, depth);
      && (StartedIn(r.trace) == [] || StartedIn(r.trace) == [a])
      && (r.flow.Continue? && !s.dryRun ==> StartedIn(r.trace) == [a])
  {
    hide RunNode, StartedIn;
    if Opens(s, t) {
      ActionMeans(s, a, t, depth);
    } else {
      StoppedNodeDoesNothing(s, Action(a), t, depth);
    }
  }

  lemma {:induction false} RoundsOfActions(s: Setup, kids: seq<Node>, actions: seq<ActionConfig>, i: nat, t: Task,
                                           depth: nat, rs: seq<Run>)
    requires |kids| == |actions| && forall j :: 0 <= j < |kids| ==> kids[j] == Action(actions[j])
    requires i <= |kids| && !s.dryRun && Rounds(s, SeqPlan(kids), i, t, depth, rs)
    ensures StartsOf(rs) <= actions[i..]
    ensures LastFlow(rs).Continue? ==> StartsOf(rs) == actions[i..]
    decreases |rs|
  {
    hide RunNode, StartedIn;
    if rs != [] {
      var (r, rest) := (rs[0], rs[1..]);
      ActionStartsItself(s, actions[i], t, depth);
      assert Before(t, rs, 0) == t && r == RunNode(s, kids[i], t, depth);
      assert actions[i..] == [actions[i]] + actions[i + 1..];
      if rest != [] {
        RoundsRest(s, SeqPlan(kids), i, t, depth, rs);
        RoundsOfActions(s, kids, actions, i + 1, r.after, depth, rest);
      } else {
        assert r.flow.Continue? ==> SeqPlan(kids)(i + 0 + 1, r.after).None?;
      }
    }
  }

  lemma RoundsRest(s: Setup, plan: Plan, i: nat, t: Task, depth: nat, rs: seq<Run>)
    requires |rs| > 1 && Rounds(s, plan, i, t, depth, rs)
    ensures Rounds(s, plan, i + 1, rs[0].after, depth, rs[1..])
  {
    hide RunNode;
    var rest := rs[1..];
    assert plan(i + 0 + 1, rs[0].after).Some?;
    forall x: nat | x < |rest|
      ensures plan(i + 1 + x, Before(rs[0].after, rest, x)).Some?
      ensures var (n, start) := plan(i + 1 + x, Before(rs[0].after, rest, x)).value;
        rest[x] == RunNode(s, n, start, depth)
      ensures x + 1 < |rest| <==> rest[x].flow.Continue? && plan(i + 1 + x + 1, rest[x].after).Some?
    {
      assert rest[x] == rs[x + 1] && Before(rs[0].after, rest, x) == Before(t, rs, x + 1);
      assert i + (x + 1) == i + 1 + x;
    }
  }

  /** It runs its flat list of actions in order: outside a dry run it starts the first few of them, and all of them if
      it continues to its end. */
  lemma FlatListRunsInOrder(s: Setup, m: Macro, locals: Locals)
    requires m.workflow.None? && !s.dryRun
    ensures var r := RunWorkflow(s, m.RootWorkflow(), locals);
      StartedIn(r.trace) <= m.actions && (r.flow.Continue? ==> StartedIn(r.trace) == m.actions)
  {
    hide RunNode, StartedIn, Rounds;
    var (root, t) := (m.RootWorkflow(), Fresh(s, locals));
    if Opens(s, t) {
      var rs := SeqMeans(s, root.kids, t, 0);
      RoundsOfActions(s, root.kids, m.actions, 0, Onward(t, 1), 0, rs);
    } else {
      StoppedNodeDoesNothing(s, root, t, 0);
    }
  }
}
