// The workflow interpreter (crates/core/src/workflow.rs) as a function of what its surroundings answer.
module Interpreter {
  import opened Domain
  import ConstraintMeaning

  type Node = WorkflowNode
  type Locals = map<string, Value>
  type Store = map<string, Value>

  /// What a run meets

  /** What building an action yields. */
  datatype Built = Ready(required: seq<Permission>, resources: seq<string>) | Unknown(error: string)

  datatype Outcome = Proceed | Halt | Break(error: string)

  /** The answers of the surroundings at one step of a run. Every step reads the fields it needs. `cancelled` says that
      someone else, outside the run or in a sibling branch, has set the token by now; `elapsed` that an enclosing
      timeout ends while the task waits here: 0 is the innermost; `effect` what an action that executes here does to the
      global store. Other tasks, and what they write, are seen through these answers only. */
  datatype Answer = Answer(
    cancelled: bool,
    leaf: ConstraintConfig -> Verdict,
    elapsed: Option<nat>,
    outcome: Outcome,
    locals: Locals,
    effect: Store -> Store)

  datatype Setup = Setup(
    macroId: MacroId,
    build: ActionConfig -> Built,
    grant: seq<Permission>,
    dryRun: bool,
    store: Store,
    answer: nat -> Answer)

  /// What a run yields

  /** `Dropped(outer)` is no result of the source: the task is given up because the timeout `outer` levels further out
      has ended. */
  datatype Flow = Continue | Stop | Failed | Dropped(outer: nat)

  datatype Cause =
    | BuildFailed(error: string)
    | PermissionDenied(missing: Permission)
    | ActionFailed(error: string)
    | ConditionFailed(error: string)
    | TimedOut(millis: nat)

  datatype EngineEvent = Error(macroId: MacroId, cause: Cause) | DryRunLog(macroId: MacroId, action: ActionConfig)

  /** The parallel branches a task is in, outermost first: the step at which each was forked, and its index there. */
  type Branch = seq<(nat, nat)>

  /** A step of one branch. */
  datatype Moment = Moment(step: nat, branch: Branch)

  /** What happened. */
  datatype Mark =
    | Checked(at: Moment, cancelled: bool)
    | Started(at: Moment, action: ActionConfig)
    | Denied(at: Moment, action: ActionConfig, missing: Permission)
    | TokenSet(at: Moment)

  /** Where a task stands: its branch, its locals, the store as this run's actions have left it, its next step, and
      whether the shared token is set as far as this task has set it or seen it set. */
  datatype Task = Task(here: Branch, locals: Locals, store: Store, token: bool, next: nat)
  {
    function Now(): Moment {
      Moment(next, here)
    }

    function Later(): Task {
      this.(next := next + 1)
    }
  }

  datatype Run = Run(flow: Flow, events: seq<EngineEvent>, after: Task, trace: seq<Mark>)
  {
    /** This run, then `r`. */
    function Then(r: Run): Run {
      Run(r.flow, events + r.events, r.after, trace + r.trace)
    }

    /** This run, then one more step. */
    function Ends(f: Flow, evs: seq<EngineEvent>): Run {
      Then(Run(f, evs, after.Later(), []))
    }
  }

  /** Look at the token: it is set if this task knows so, or if someone else has set it by now. */
  function Check(s: Setup, t: Task): Run {
    var c := t.token || s.answer(t.next).cancelled;
    Run(if c then Stop else Continue, [], t.Later().(token := c), [Checked(t.Now(), c)])
  }

  /// Single actions

  function FirstMissing(required: seq<Permission>, grant: seq<Permission>): Option<Permission> {
    if required == [] then None
    else if required[0] !in grant then Some(required[0])
    else FirstMissing(required[1..], grant)
  }

  /** The timeout that ends while the task waits at step `k`, under `depth` enclosing timeouts. */
  function Elapsed(s: Setup, k: nat, depth: nat): Option<nat> {
    var e := s.answer(k).elapsed;
    if e.Some? && e.value < depth then e else None
  }

  /** Build, dry run, permission gate, locks, execution. One step waits for the locks, the next one executes. */
  function RunAction(s: Setup, a: ActionConfig, t: Task, depth: nat): Run {
    match s.build(a)
    case Unknown(e) => Run(Failed, [Error(s.macroId, BuildFailed(e))], t, [])
    case Ready(required, resources) =>
      var missing := FirstMissing(required, s.grant);
      if s.dryRun then Run(Continue, [DryRunLog(s.macroId, a)], t, [])
      else if missing.Some? then
        Run(Failed, [Error(s.macroId, PermissionDenied(missing.value))], t.Later(), [Denied(t.Now(), a, missing.value)])
      else if resources != [] && Elapsed(s, t.next, depth).Some? then
        Run(Dropped(Elapsed(s, t.next, depth).value), [], t.Later(), [])
      else Execute(s, a, t.Later(), depth)
  }

  function Execute(s: Setup, a: ActionConfig, t: Task, depth: nat): Run {
    var answer := s.answer(t.next);
    var (marks, after) := ([Started(t.Now(), a)], t.Later().(locals := answer.locals, store := answer.effect(t.store)));
    if Elapsed(s, t.next, depth).Some? then Run(Dropped(Elapsed(s, t.next, depth).value), [], after, marks)
    else
      match answer.outcome
      case Proceed => Run(Continue, [], after, marks)
      case Halt => Run(Stop, [], after, marks)
      case Break(e) => Run(Failed, [Error(s.macroId, ActionFailed(e))], after, marks)
  }

  /// Nodes

  function Condition(s: Setup, c: ConstraintExpr, k: nat): Verdict {
    ConstraintMeaning.Eval(c, s.answer(k).leaf)
  }

  function Items(v: Value): seq<Value> {
    if v.List? then v.elems else []
  }

  function Attempts(times: nat): nat {
    if times == 0 then 1 else times
  }

  /** The worse of two flows: the order of the branches does not matter. */
  function Worse(a: Flow, b: Flow): Flow {
    if a.Dropped? && b.Dropped? then (if a.outer < b.outer then b else a)
    else if a.Dropped? || b.Continue? then a
    else if b.Dropped? || a.Continue? then b
    else if a.Failed? then a else b
  }

  /** Interpret one node: an entry check of the token, then the node's own behaviour. */
  function RunNode(s: Setup, n: Node, t: Task, depth: nat): Run
    decreases n
  {
    var entry := Check(s, t);
    if entry.flow.Stop? then entry
    else
      match n
      case Action(a) => entry.Then(RunAction(s, a, entry.after, depth))
      case Seq(kids) => RunSeq(s, kids, 0, entry, depth)
      case Parallel(kids) => RunBranches(s, kids, 0, entry.after, t.next, entry, depth)
      case IfElse(_, _, _) => RunIf(s, n, entry, depth)
      case While(_, _, _) => RunWhile(s, n, 0, entry, depth)
      case ForEach(_, _, _) => RunForEach(s, n, 0, entry, depth)
      case Retry(_, _, _) => RunRetry(s, n, 0, entry, depth)
      case Timeout(b, ms) => entry.Then(Limited(s, RunNode(s, b, entry.after, depth + 1), ms))
      case Wait(_) =>
        var e := Elapsed(s, entry.after.next, depth);
        entry.Ends(if e.Some? then Dropped(e.value) else Continue, [])
  }

  /** A timeout around a run of its body: when it ends first, the body's events are lost and the shared token is set. */
  function Limited(s: Setup, body: Run, ms: nat): Run {
    if !body.flow.Dropped? then body
    else if body.flow.outer > 0 then body.(flow := Dropped(body.flow.outer - 1))
    else
      var t := body.after;
      Run(Failed, [Error(s.macroId, TimedOut(ms))], t.Later().(token := true), body.trace + [TokenSet(t.Now())])
  }

  /** The children from `i` on, after `acc`. */
  function RunSeq(s: Setup, kids: seq<Node>, i: nat, acc: Run, depth: nat): Run
    requires i <= |kids|
    decreases kids, |kids| - i
  {
    if i == |kids| then acc
    else
      var r := acc.Then(RunNode(s, kids[i], acc.after, depth));
      if r.flow.Continue? then RunSeq(s, kids, i + 1, r, depth) else r
  }

  /** Branch `i`'s task at its start: the parent's locals and token, and the number of the next free step. */
  function Forked(parent: Task, fork: nat, i: nat, sofar: Task): Task {
    Task(parent.here + [(fork, i)], parent.locals, sofar.store, parent.token, sofar.next)
  }

  /** A branch joins: the worse flow of the two, all events, the parent's locals, and the token if any branch set it or
      saw it set. */
  function WithBranch(parent: Task, acc: Run, r: Run): Run {
    Run(Worse(acc.flow, r.flow), acc.events + r.events,
        Task(parent.here, parent.locals, r.after.store, acc.after.token || r.after.token, r.after.next),
        acc.trace + r.trace)
  }

  /** The branches from `i` on. */
  function RunBranches(s: Setup, kids: seq<Node>, i: nat, parent: Task, fork: nat, acc: Run, depth: nat): Run
    requires i <= |kids|
    decreases kids, |kids| - i
  {
    if i == |kids| then acc
    else
      var r := RunNode(s, kids[i], Forked(parent, fork, i, acc.after), depth);
      RunBranches(s, kids, i + 1, parent, fork, WithBranch(parent, acc, r), depth)
  }

  function RunIf(s: Setup, n: Node, acc: Run, depth: nat): Run
    requires n.IfElse?
    decreases n, 0
  {
    var t := acc.after.Later();
    match Condition(s, n.cond, acc.after.next)
    case Holds(true) => acc.Then(RunNode(s, n.thenNode, t, depth))
    case Holds(false) =>
      if n.otherwise.Some? then acc.Then(RunNode(s, n.otherwise.value, t, depth)) else acc.Ends(Continue, [])
    case Fails(e) => acc.Ends(Failed, [Error(s.macroId, ConditionFailed(e))])
  }

  function RunWhile(s: Setup, n: Node, iter: nat, acc: Run, depth: nat): Run
    requires n.While? && iter <= n.maxIter
    decreases n, n.maxIter - iter
  {
    if iter == n.maxIter then acc
    else
      var acc1 := acc.Then(Check(s, acc.after));
      if acc1.flow.Stop? then acc1.(flow := Continue)
      else
        match Condition(s, n.cond, acc1.after.next)
        case Holds(false) => acc1.Ends(Continue, [])
        case Fails(e) => acc1.Ends(Failed, [Error(s.macroId, ConditionFailed(e))])
        case Holds(true) =>
          var r := acc1.Then(RunNode(s, n.body, acc1.after.Later(), depth));
          if r.flow.Continue? then RunWhile(s, n, iter + 1, r, depth) else r
  }

  function RunForEach(s: Setup, n: Node, i: nat, acc: Run, depth: nat): Run
    requires n.ForEach? && i <= |Items(n.items)|
    decreases n, |Items(n.items)| - i
  {
    if i == |Items(n.items)| then acc
    else
      var acc1 := acc.Then(Check(s, acc.after));
      if acc1.flow.Stop? then acc1.(flow := Continue)
      else
        var r := acc1.Then(RunNode(s, n.body, Bound(acc1.after, n.varName, Items(n.items)[i]), depth));
        if r.flow.Continue? then RunForEach(s, n, i + 1, r, depth) else r
  }

  function Bound(t: Task, name: string, v: Value): Task {
    t.(locals := t.locals[name := v])
  }

  function RunRetry(s: Setup, n: Node, attempt: nat, acc: Run, depth: nat): Run
    requires n.Retry? && attempt <= Attempts(n.times)
    decreases n, Attempts(n.times) - attempt
  {
    if attempt == Attempts(n.times) then acc.(flow := Failed)
    else
      var acc1 := acc.Then(Check(s, acc.after));
      if acc1.flow.Stop? then acc1
      else
        var r := acc1.Then(RunNode(s, n.body, acc1.after, depth));
        if !r.flow.Failed? then r
        else if attempt + 1 < Attempts(n.times) && n.backoffMs > 0 then
          var e := Elapsed(s, r.after.next, depth);
          if e.Some? then r.Ends(Dropped(e.value), []) else RunRetry(s, n, attempt + 1, r.Ends(Failed, []), depth)
        else RunRetry(s, n, attempt + 1, r, depth)
  }

  /** A task at its start: no branch, a fresh token. */
  function Fresh(s: Setup, locals: Locals): Task {
    Task([], locals, s.store, false, 0)
  }

  /** A whole run: no timeout encloses the root. */
  function RunWorkflow(s: Setup, root: Node, locals: Locals): Run {
    RunNode(s, root, Fresh(s, locals), 0)
  }
}
