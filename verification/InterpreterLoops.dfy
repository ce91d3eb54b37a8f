// The interpreter as the source writes it: one context updated in place, growing event lists, loops with early
// returns (crates/core/src/workflow.rs, crates/core/src/context.rs).
module InterpreterLoops {
  import opened Domain
  import opened Interpreter

  lemma Regroup(base: seq<Mark>, a: seq<Mark>, b: seq<Mark>)
    ensures (base + a) + b == base + (a + b)
  {
  }

  /** The part of `ExecContext` that a run changes. `token` is what this context has done to the shared token or seen of
      it, `here` and `next` name the branch and its next step; the trace is for the specification. */
  class ExecContext {
    const s: Setup
    const here: Branch
    var locals: Locals
    var store: Store
    var token: bool
    var next: nat
    ghost var trace: seq<Mark>

    constructor (s: Setup, t: Task)
      ensures this.s == s && Here() == t && trace == []
    {
      this.s, this.here, this.locals, this.store := s, t.here, t.locals, t.store;
      this.token, this.next, this.trace := t.token, t.next, [];
    }

    /** Where this context stands. */
    function Here(): Task
      reads this
    {
      Task(here, locals, store, token, next)
    }

    /** The context of branch `i` of a fork: everything is shared but the locals, which are copied. */
    method Fork(fork: nat, i: nat) returns (branch: ExecContext)
      ensures fresh(branch) && branch.s == s && branch.trace == []
      ensures branch.Here() == Forked(Here(), fork, i, Here())
    {
      branch := new ExecContext(s, Task(here + [(fork, i)], locals, store, token, next));
    }

    /** The context has done `r`, after a trace `base`. */
    ghost predicate At(base: seq<Mark>, r: Run, flow: Flow, events: seq<EngineEvent>)
      reads this
    {
      flow == r.flow && events == r.events && Here() == r.after && trace == base + r.trace
    }

    /** Look at the token: once set, it stays set. */
    method IsCancelled() returns (c: bool)
      modifies this
      ensures At(old(trace), Check(s, old(Here())), if c then Stop else Continue, [])
    {
      c := token || s.answer(next).cancelled;
      trace := trace + [Checked(Moment(next, here), c)];
      token := c;
      next := next + 1;
    }

    method EvalCondition(c: ConstraintExpr) returns (v: Verdict)
      modifies this`next
      ensures v == Condition(s, c, old(next)) && next == old(next) + 1
    {
      v := Condition(s, c, next);
      next := next + 1;
    }

    /** Waiting: some enclosing timeout may end meanwhile. */
    method Await(depth: nat) returns (e: Option<nat>)
      modifies this`next
      ensures e == Elapsed(s, old(next), depth) && next == old(next) + 1
    {
      e := Elapsed(s, next, depth);
      next := next + 1;
    }

    method DoAction(a: ActionConfig, depth: nat) returns (flow: Flow, events: seq<EngineEvent>)
      modifies this
      ensures At(old(trace), RunAction(s, a, old(Here()), depth), flow, events)
    {
      match s.build(a)
      case Unknown(e) =>
        return Failed, [Error(s.macroId, BuildFailed(e))];
      case Ready(required, resources) =>
        if s.dryRun {
          return Continue, [DryRunLog(s.macroId, a)];
        }
        var missing := FirstMissing(required, s.grant);
        if missing.Some? {
          trace := trace + [Denied(Moment(next, here), a, missing.value)];
          next := next + 1;
          return Failed, [Error(s.macroId, PermissionDenied(missing.value))];
        }
        var e := Await(depth);
        if resources != [] && e.Some? {
          return Dropped(e.value), [];
        }
        var k := next;
        trace := trace + [Started(Moment(k, here), a)];
        locals, store := s.answer(k).locals, s.answer(k).effect(store);
        e := Await(depth);
        if e.Some? {
          return Dropped(e.value), [];
        }
        match s.answer(k).outcome {
          case Proceed => return Continue, [];
          case Halt => return Stop, [];
          case Break(error) => return Failed, [Error(s.macroId, ActionFailed(error))];
        }
    }

    method DoNode(n: Node, depth: nat) returns (flow: Flow, events: seq<EngineEvent>)
      modifies this
      ensures At(old(trace), RunNode(s, n, old(Here()), depth), flow, events)
      decreases n
    {
      hide RunAction, RunSeq, RunBranches, RunIf, RunWhile, RunForEach, RunRetry, Limited, Elapsed;
      ghost var entry := Check(s, Here());
      var fork := next;
      var cancelled := IsCancelled();
      if cancelled {
        return Stop, [];
      }
      match n
      case Action(a) =>
        ghost var r := RunAction(s, a, Here(), depth);
        flow, events := DoAction(a, depth);
        Regroup(old(trace), entry.trace, r.trace);
        assert [] + r.events == r.events;
      case Seq(kids) =>
        flow, events := DoSeq(kids, depth, old(trace), entry);
      case Parallel(kids) =>
        flow, events := DoParallel(kids, fork, depth, old(trace), entry);
      case IfElse(_, _, _) =>
        flow, events := DoIf(n, depth, old(trace), entry);
      case While(_, _, _) =>
        flow, events := DoWhile(n, depth, old(trace), entry);
      case ForEach(_, _, _) =>
        flow, events := DoForEach(n, depth, old(trace), entry);
      case Retry(_, _, _) =>
        flow, events := DoRetry(n, depth, old(trace), entry);
      case Timeout(_, _) =>
        flow, events := DoTimeout(n, depth, old(trace), entry);
      case Wait(_) =>
        var e := Await(depth);
        return if e.Some? then Dropped(e.value) else Continue, [];
    }

    /** The run so far, since `base`, is `start`; it has brought no events yet. */
    ghost predicate Begun(base: seq<Mark>, start: Run)
      reads this
    {
      At(base, start, Continue, [])
    }

    method DoSeq(kids: seq<Node>, depth: nat, ghost base: seq<Mark>, ghost start: Run)
      returns (flow: Flow, events: seq<EngineEvent>)
      requires Begun(base, start)
      modifies this
      ensures At(base, RunSeq(s, kids, 0, start, depth), flow, events)
      decreases kids
    {
      hide RunNode;
      ghost var acc := start;
      events := [];
      for i := 0 to |kids|
        invariant At(base, acc, Continue, events)
        invariant RunSeq(s, kids, 0, start, depth) == RunSeq(s, kids, i, acc, depth)
      {
        ghost var r := RunNode(s, kids[i], Here(), depth);
        var evs;
        flow, evs := DoNode(kids[i], depth);
        Regroup(base, acc.trace, r.trace);
        acc := acc.Then(r);
        events := events + evs;
        if flow != Continue {
          return flow, events;
        }
      }
      flow := Continue;
    }

    /** Each branch runs in a fork of this context, all with the token as it was at the fork; its steps are numbered
        after those of the branches before it. `joined` is the token once the branches are joined. */
    method DoParallel(kids: seq<Node>, fork: nat, depth: nat, ghost base: seq<Mark>, ghost start: Run)
      returns (flow: Flow, events: seq<EngineEvent>)
      requires Begun(base, start)
      modifies this
      ensures At(base, RunBranches(s, kids, 0, start.after, fork, start, depth), flow, events)
      decreases kids
    {
      hide RunNode;
      ghost var acc := start;
      var joined := token;
      flow, events := Continue, [];
      for i := 0 to |kids|
        invariant flow == acc.flow && events == acc.events && trace == base + acc.trace
        invariant locals == start.after.locals && token == start.after.token && next == acc.after.next
        invariant acc.after == Task(here, locals, store, joined, next)
        invariant RunBranches(s, kids, 0, start.after, fork, start, depth)
               == RunBranches(s, kids, i, start.after, fork, acc, depth)
      {
        var branch := Fork(fork, i);
        ghost var r := RunNode(s, kids[i], branch.Here(), depth);
        var f, evs := branch.DoNode(kids[i], depth);
        assert branch.trace == r.trace;
        store, next := branch.store, branch.next;
        joined := joined || branch.token;
        trace := trace + branch.trace;
        Regroup(base, acc.trace, r.trace);
        acc := WithBranch(start.after, acc, r);
        events := events + evs;
        if flow.Dropped? || f.Dropped? {
          flow := Worse(flow, f);
        } else if f.Failed? {
          flow := Failed;
        } else if f.Stop? && flow != Failed {
          flow := Stop;
        }
      }
      token := joined;
    }

    method DoIf(n: Node, depth: nat, ghost base: seq<Mark>, ghost start: Run)
      returns (flow: Flow, events: seq<EngineEvent>)
      requires n.IfElse? && Begun(base, start)
      modifies this
      ensures At(base, RunIf(s, n, start, depth), flow, events)
      decreases n, 0
    {
      hide RunNode;
      var v := EvalCondition(n.cond);
      match v
      case Holds(b) =>
        if b {
          ghost var r := RunNode(s, n.thenNode, Here(), depth);
          flow, events := DoNode(n.thenNode, depth);
          Regroup(base, start.trace, r.trace);
        } else if n.otherwise.Some? {
          ghost var r := RunNode(s, n.otherwise.value, Here(), depth);
          flow, events := DoNode(n.otherwise.value, depth);
          Regroup(base, start.trace, r.trace);
        } else {
          flow, events := Continue, [];
        }
      case Fails(e) =>
        flow, events := Failed, [Error(s.macroId, ConditionFailed(e))];
    }

    method DoWhile(n: Node, depth: nat, ghost base: seq<Mark>, ghost start: Run)
      returns (flow: Flow, events: seq<EngineEvent>)
      requires n.While? && Begun(base, start)
      modifies this
      ensures At(base, RunWhile(s, n, 0, start, depth), flow, events)
      decreases n, 0
    {
      hide RunNode, Condition;
      ghost var acc := start;
      var iter := 0;
      events := [];
      while iter < n.maxIter
        invariant iter <= n.maxIter
        invariant At(base, acc, Continue, events)
        invariant RunWhile(s, n, 0, start, depth) == RunWhile(s, n, iter, acc, depth)
        decreases n.maxIter - iter
      {
        var cancelled := IsCancelled();
        Regroup(base, acc.trace, Check(s, acc.after).trace);
        acc := acc.Then(Check(s, acc.after));
        if cancelled {
          return Continue, events;
        }
        var v := EvalCondition(n.cond);
        match v {
          case Holds(b) =>
            if !b {
              return Continue, events;
            }
          case Fails(e) =>
            return Failed, events + [Error(s.macroId, ConditionFailed(e))];
        }
        ghost var r := RunNode(s, n.body, Here(), depth);
        var evs;
        flow, evs := DoNode(n.body, depth);
        Regroup(base, acc.trace, r.trace);
        acc := acc.Then(r);
        events := events + evs;
        if flow != Continue {
          return flow, events;
        }
        iter := iter + 1;
      }
      flow := Continue;
    }

    method DoForEach(n: Node, depth: nat, ghost base: seq<Mark>, ghost start: Run)
      returns (flow: Flow, events: seq<EngineEvent>)
      requires n.ForEach? && Begun(base, start)
      modifies this
      ensures At(base, RunForEach(s, n, 0, start, depth), flow, events)
      decreases n, 0
    {
      hide RunNode;
      ghost var acc := start;
      var list := Items(n.items);
      events := [];
      for i := 0 to |list|
        invariant At(base, acc, Continue, events)
        invariant RunForEach(s, n, 0, start, depth) == RunForEach(s, n, i, acc, depth)
      {
        var cancelled := IsCancelled();
        Regroup(base, acc.trace, Check(s, acc.after).trace);
        acc := acc.Then(Check(s, acc.after));
        if cancelled {
          return Continue, events;
        }
        locals := locals[n.varName := list[i]];
        ghost var r := RunNode(s, n.body, Here(), depth);
        var evs;
        flow, evs := DoNode(n.body, depth);
        Regroup(base, acc.trace, r.trace);
        acc := acc.Then(r);
        events := events + evs;
        if flow != Continue {
          return flow, events;
        }
      }
      flow := Continue;
    }

    method DoRetry(n: Node, depth: nat, ghost base: seq<Mark>, ghost start: Run)
      returns (flow: Flow, events: seq<EngineEvent>)
      requires n.Retry? && Begun(base, start)
      modifies this
      ensures At(base, RunRetry(s, n, 0, start, depth), flow, events)
      decreases n, 0
    {
      hide RunNode, Check, Elapsed;
      var attempts := Attempts(n.times);
      ghost var acc := start;
      events := [];
      for attempt := 0 to attempts
        invariant At(base, acc, acc.flow, events)
        invariant RunRetry(s, n, 0, start, depth) == RunRetry(s, n, attempt, acc, depth)
      {
        var cancelled := IsCancelled();
        Regroup(base, acc.trace, Check(s, acc.after).trace);
        ghost var acc1 := acc.Then(Check(s, acc.after));
        if cancelled {
          return Stop, events;
        }
        ghost var r := RunNode(s, n.body, Here(), depth);
        var evs;
        flow, evs := DoNode(n.body, depth);
        Regroup(base, acc1.trace, r.trace);
        acc := acc1.Then(r);
        events := events + evs;
        if flow != Failed {
          return flow, events;
        }
        if attempt + 1 < attempts && n.backoffMs > 0 {
          var e := Await(depth);
          assert events + [] == events && acc.trace + [] == acc.trace;
          if e.Some? {
            return Dropped(e.value), events;
          }
          acc := acc.Ends(Failed, []);
        }
      }
      flow := Failed;
    }

    method DoTimeout(n: Node, depth: nat, ghost base: seq<Mark>, ghost start: Run)
      returns (flow: Flow, events: seq<EngineEvent>)
      requires n.Timeout? && Begun(base, start)
      modifies this
      ensures At(base, start.Then(Limited(s, RunNode(s, n.body, start.after, depth + 1), n.millis)), flow, events)
      decreases n, 0
    {
      hide RunNode;
      ghost var r := RunNode(s, n.body, Here(), depth + 1);
      flow, events := DoNode(n.body, depth + 1);
      Regroup(base, start.trace, r.trace);
      assert [] + r.events == r.events;
      if flow.Dropped? {
        if flow.outer > 0 {
          flow := Dropped(flow.outer - 1);
        } else {
          ghost var mark := [TokenSet(Here().Now())];
          trace := trace + mark;
          Regroup(base + start.trace, r.trace, mark);
          Regroup(base, start.trace, r.trace + mark);
          token := true;
          next := next + 1;
          flow, events := Failed, [Error(s.macroId, TimedOut(n.millis))];
        }
      }
    }
  }
}
