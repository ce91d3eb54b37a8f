// What holds of every run of every workflow, whatever its surroundings answer.
module InterpreterSafety {
  import opened Domain
  import opened Interpreter
  import opened InterpreterToken
  import opened Permissions

  /// Bounds

  /** The most actions a run can start: loops multiply, a conditional takes its dearer branch. */
  function Cost(n: Node): nat {
    match n
    case Action(_) => 1
    case Seq(kids) => CostIn(kids, |kids|)
    case Parallel(kids) => CostIn(kids, |kids|)
    case IfElse(_, t, o) =>
      var e := if o.Some? then Cost(o.value) else 0;
      if Cost(t) > e then Cost(t) else e
    case While(_, b, max) => max * Cost(b)
    case ForEach(items, _, b) => |Items(items)| * Cost(b)
    case Retry(b, times, _) => Attempts(times) * Cost(b)
    case Timeout(b, _) => Cost(b)
    case Wait(_) => 0
  }

  function CostIn(kids: seq<Node>, m: nat): nat
    requires m <= |kids|
    decreases kids, m
  {
    if m == 0 then 0 else CostIn(kids, m - 1) + Cost(kids[m - 1])
  }

  /** The actions a trace starts, in order. */
  function StartedIn(trace: seq<Mark>): seq<ActionConfig> {
    if trace == [] then []
    else
      var last := trace[|trace| - 1];
      StartedIn(trace[..|trace| - 1]) + if last.Started? then [last.action] else []
  }

  lemma {:induction false} StartedBoth(a: seq<Mark>, b: seq<Mark>)
    ensures StartedIn(a + b) == StartedIn(a) + StartedIn(b)
  {
    if b == [] {
      assert a + b == a;
    } else {
      assert (a + b)[..|a + b| - 1] == a + b[..|b| - 1];
      StartedBoth(a, b[..|b| - 1]);
    }
  }

  function Starts(trace: seq<Mark>): nat {
    |StartedIn(trace)|
  }

  lemma StartsBoth(a: seq<Mark>, b: seq<Mark>)
    ensures Starts(a + b) == Starts(a) + Starts(b)
  {
    StartedBoth(a, b);
  }

  /** No node tries a failed body again. */
  predicate TriesOnce(n: Node) {
    match n
    case Action(_) => true
    case Seq(kids) => forall x <- kids :: TriesOnce(x)
    case Parallel(kids) => forall x <- kids :: TriesOnce(x)
    case IfElse(_, t, o) => TriesOnce(t) && (o.Some? ==> TriesOnce(o.value))
    case While(_, b, _) => TriesOnce(b)
    case ForEach(_, _, b) => TriesOnce(b)
    case Retry(b, times, _) => times <= 1 && TriesOnce(b)
    case Timeout(b, _) => TriesOnce(b)
    case Wait(_) => true
  }

  /// What every trace and every result satisfies

  predicate Granted(s: Setup, a: ActionConfig) {
    s.build(a).Ready? && forall p <- s.build(a).required :: p in s.grant
  }

  /** An action starts only outside a dry run, with all its permissions, right after the check that entered its node, in
      its branch, found the token unset; it is denied only for a permission it requires and does not have. */
  predicate MarkOk(s: Setup, acts: set<ActionConfig>, trace: seq<Mark>, i: nat)
    requires i < |trace|
  {
    match trace[i]
    case Checked(m, cancelled) => !cancelled ==> !s.answer(m.step).cancelled
    case Started(m, a) =>
      && a in acts && !s.dryRun && Granted(s, a)
      && i > 0 && m.step >= 2 && trace[i - 1] == Checked(Moment(m.step - 2, m.branch), false)
    case Denied(_, a, p) => a in acts && s.build(a).Ready? && p in s.build(a).required && p !in s.grant
    case TokenSet(_) => true
  }

  predicate TraceOk(s: Setup, acts: set<ActionConfig>, trace: seq<Mark>) {
    forall i :: 0 <= i < |trace| ==> MarkOk(s, acts, trace, i)
  }

  lemma TraceBoth(s: Setup, acts: set<ActionConfig>, a: seq<Mark>, b: seq<Mark>)
    requires TraceOk(s, acts, a) && TraceOk(s, acts, b)
    ensures TraceOk(s, acts, a + b)
  {
    forall i | 0 <= i < |a + b|
      ensures MarkOk(s, acts, a + b, i)
    {
      if i < |a| {
        assert MarkOk(s, acts, a, i);
      } else {
        assert MarkOk(s, acts, b, i - |a|);
      }
    }
  }

  predicate HasError(events: seq<EngineEvent>) {
    exists i :: 0 <= i < |events| && events[i].Error?
  }

  lemma ErrorBoth(a: seq<EngineEvent>, b: seq<EngineEvent>)
    ensures HasError(a + b) <==> HasError(a) || HasError(b)
  {
    if HasError(a) {
      var i :| 0 <= i < |a| && a[i].Error?;
      assert (a + b)[i].Error?;
    }
    if HasError(b) {
      var i :| 0 <= i < |b| && b[i].Error?;
      assert (a + b)[|a| + i].Error?;
    }
  }

  /** `clean` says that no retry can have swallowed a failure. */
  predicate Result(clean: bool, depth: nat, r: Run) {
    && (r.flow.Failed? ==> HasError(r.events))
    && (clean && HasError(r.events) ==> r.flow.Failed? || r.flow.Dropped?)
    && (r.flow.Dropped? ==> r.flow.outer < depth)
  }

  /** What a run of a task that started as `t` keeps. */
  ghost predicate Within(s: Setup, acts: set<ActionConfig>, clean: bool, budget: nat, depth: nat, t: Task, r: Run) {
    TraceOk(s, acts, r.trace) && Result(clean, depth, r) && Starts(r.trace) <= budget && Threaded(s, t, r)
  }

  lemma Widen(s: Setup, acts: set<ActionConfig>, acts': set<ActionConfig>, clean: bool, clean': bool,
              budget: nat, budget': nat, depth: nat, t: Task, r: Run)
    requires Within(s, acts, clean, budget, depth, t, r)
    requires acts <= acts' && (clean' ==> clean) && budget <= budget'
    ensures Within(s, acts', clean', budget', depth, t, r)
  {
    hide Threaded, Starts;
    forall i | 0 <= i < |r.trace|
      ensures MarkOk(s, acts', r.trace, i)
    {
      assert MarkOk(s, acts, r.trace, i);
    }
  }

  lemma ThenWithin(s: Setup, acts: set<ActionConfig>, clean: bool, b1: nat, b2: nat, depth: nat, t: Task, a: Run,
                   r: Run)
    requires Within(s, acts, clean, b1, depth, t, a) && Within(s, acts, clean, b2, depth, a.after, r)
    requires clean ==> a.flow.Continue?
    ensures Within(s, acts, clean, b1 + b2, depth, t, a.Then(r))
  {
    hide TraceOk, Starts, HasError, Threaded;
    TraceBoth(s, acts, a.trace, r.trace);
    StartsBoth(a.trace, r.trace);
    ErrorBoth(a.events, r.events);
    ThreadedThen(s, t, a, r);
  }

  lemma OneEvent(e: EngineEvent)
    ensures HasError([e]) <==> e.Error?
    ensures !HasError([])
  {
    assert e.Error? ==> [e][0].Error?;
  }

  lemma FewStarts(trace: seq<Mark>)
    requires |trace| <= 1
    ensures Starts(trace) <= 1
    ensures trace == [] || !trace[0].Started? ==> Starts(trace) == 0
  {
    if trace != [] {
      assert StartedIn(trace[..0]) == [];
    }
  }

  /** A check of the token. */
  lemma CheckWithin(s: Setup, acts: set<ActionConfig>, clean: bool, depth: nat, t: Task)
    ensures Within(s, acts, clean, 0, depth, t, Check(s, t))
    ensures Within(s, acts, clean, 0, depth, t, Check(s, t).(flow := Continue))
    ensures Check(s, t).flow.Continue? || Check(s, t).flow.Stop?
  {
    hide Threaded;
    CheckThreaded(s, t);
    SameMarks(s, t, Check(s, t), Continue, []);
    FewStarts(Check(s, t).trace);
  }

  /** A step that leaves no mark. */
  lemma EndsWithin(s: Setup, acts: set<ActionConfig>, clean: bool, budget: nat, depth: nat, t: Task, a: Run,
                   f: Flow, evs: seq<EngineEvent>)
    requires Within(s, acts, clean, budget, depth, t, a) && (clean ==> a.flow.Continue?)
    requires Result(clean, depth, Run(f, evs, a.after.Later(), []))
    ensures Within(s, acts, clean, budget, depth, t, a.Ends(f, evs))
  {
    var r := Run(f, evs, a.after.Later(), []);
    ThreadedStep(s, a.after, r);
    FewStarts(r.trace);
    hide TraceOk, Threaded, Starts;
    assert TraceOk(s, acts, []) by {
      NoMarks(s, acts);
    }
    ThenWithin(s, acts, clean, budget, 0, depth, t, a, r);
  }

  lemma NoMarks(s: Setup, acts: set<ActionConfig>)
    ensures TraceOk(s, acts, [])
  {
  }

  lemma PassWithin(s: Setup, acts: set<ActionConfig>, clean: bool, budget: nat, budget': nat, depth: nat, t: Task,
                   a: Run)
    requires Within(s, acts, clean, budget, depth, t, a) && (clean ==> a.flow.Continue?) && budget <= budget'
    ensures Within(s, acts, clean, budget', depth, t, a.Ends(Continue, []))
  {
    OneEvent(DryRunLog(s.macroId, Delay(0)));
    EndsWithin(s, acts, clean, budget, depth, t, a, Continue, []);
  }

  lemma FailWithin(s: Setup, acts: set<ActionConfig>, clean: bool, budget: nat, budget': nat, depth: nat, t: Task,
                   a: Run, cause: Cause)
    requires Within(s, acts, clean, budget, depth, t, a) && (clean ==> a.flow.Continue?) && budget <= budget'
    ensures Within(s, acts, clean, budget', depth, t, a.Ends(Failed, [Error(s.macroId, cause)]))
  {
    OneEvent(Error(s.macroId, cause));
    EndsWithin(s, acts, clean, budget, depth, t, a, Failed, [Error(s.macroId, cause)]);
  }

  lemma MoreBudget(s: Setup, acts: set<ActionConfig>, clean: bool, budget: nat, budget': nat, depth: nat, t: Task,
                   r: Run)
    requires Within(s, acts, clean, budget, depth, t, r) && budget <= budget'
    ensures Within(s, acts, clean, budget', depth, t, r)
  {
  }

  /// One induction over the interpreter

  lemma {:induction false} FirstMissingFacts(required: seq<Permission>, grant: seq<Permission>)
    ensures var m := FirstMissing(required, grant);
      if m.Some? then m.value in required && m.value !in grant else forall p <- required :: p in grant
  {
    if required != [] {
      FirstMissingFacts(required[1..], grant);
      assert required == [required[0]] + required[1..];
    }
  }

  lemma ActionResult(s: Setup, a: ActionConfig, t: Task, depth: nat)
    ensures var r := RunAction(s, a, t, depth);
      Result(true, depth, r) && |r.trace| <= 1
  {
    hide HasError, FirstMissing;
    var r := RunAction(s, a, t, depth);
    if r.events == [] {
      OneEvent(DryRunLog(s.macroId, a));
    } else {
      OneEvent(r.events[0]);
    }
  }

  lemma ActionThreaded(s: Setup, a: ActionConfig, t: Task, depth: nat)
    requires !t.token
    ensures Threaded(s, t, RunAction(s, a, t, depth))
  {
    hide FirstMissing, Threaded;
    ActionResult(s, a, t, depth);
    ThreadedStep(s, t, RunAction(s, a, t, depth));
  }

  lemma ActionTrace(s: Setup, a: ActionConfig, t: Task, depth: nat)
    requires Check(s, t).flow.Continue?
    ensures var (entry, r) := (Check(s, t), RunAction(s, a, Check(s, t).after, depth));
      TraceOk(s, {a}, entry.trace + r.trace)
  {
    if s.build(a).Ready? {
      FirstMissingFacts(s.build(a).required, s.grant);
    }
  }

  lemma ActionWithin(s: Setup, a: ActionConfig, t: Task, depth: nat)
    requires Check(s, t).flow.Continue?
    ensures Within(s, {a}, true, 1, depth, t, Check(s, t).Then(RunAction(s, a, Check(s, t).after, depth)))
  {
    var entry := Check(s, t);
    assert !entry.after.token && |entry.trace| == 1 && !entry.trace[0].Started? && entry.events == [];
    hide RunAction, TraceOk, Starts, Check, Threaded;
    var r := RunAction(s, a, entry.after, depth);
    ActionResult(s, a, entry.after, depth);
    ActionTrace(s, a, t, depth);
    CheckThreaded(s, t);
    ActionThreaded(s, a, entry.after, depth);
    ThreadedThen(s, t, entry, r);
    FewStarts(entry.trace);
    FewStarts(r.trace);
    StartsBoth(entry.trace, r.trace);
    assert [] + r.events == r.events;
  }

  /** Every run of `n` starts actions of `n` only, each after its own check and with its permissions, at most `Cost(n)`
      of them; it ends in failure only with an error event, and exactly then if nothing is tried again; it heeds the
      token. */
  ghost predicate Sound(s: Setup, n: Node, depth: nat, t: Task, r: Run) {
    Within(s, Actions(n), TriesOnce(n), Cost(n), depth, t, r)
  }

  lemma {:induction false} NodeSound(s: Setup, n: Node, t: Task, depth: nat)
    ensures Sound(s, n, depth, t, RunNode(s, n, t, depth))
    decreases n
  {
    hide Within;
    var entry := Check(s, t);
    CheckWithin(s, Actions(n), TriesOnce(n), depth, t);
    if entry.flow.Stop? {
      MoreBudget(s, Actions(n), TriesOnce(n), 0, Cost(n), depth, t, entry);
    } else {
      match n
      case Action(a) => ActionWithin(s, a, t, depth);
      case Seq(kids) => SeqSound(s, kids, 0, t, entry, depth);
      case Parallel(kids) => ParallelSound(s, kids, t, depth);
      case IfElse(_, _, _) => IfSound(s, n, t, entry, depth);
      case While(_, _, _) => WhileSound(s, n, 0, t, entry, depth);
      case ForEach(_, _, _) => ForEachSound(s, n, 0, t, entry, depth);
      case Retry(_, _, _) =>
        if n.times <= 1 {
          TryOnceSound(s, n, t, entry, depth);
        } else {
          RetrySound(s, n, 0, t, entry, depth);
        }
      case Timeout(_, _) => TimeoutSound(s, n, t, entry, depth);
      case Wait(_) => WaitSound(s, n, t, entry, depth);
    }
  }

  lemma WaitSound(s: Setup, n: Node, t: Task, entry: Run, depth: nat)
    requires n.Wait? && entry == Check(s, t) && entry.flow.Continue? && Within(s, {}, true, 0, depth, t, entry)
    ensures Sound(s, n, depth, t, RunNode(s, n, t, depth))
  {
    hide Within;
    var e := Elapsed(s, entry.after.next, depth);
    OneEvent(DryRunLog(s.macroId, Delay(0)));
    EndsWithin(s, {}, true, 0, depth, t, entry, if e.Some? then Dropped(e.value) else Continue, []);
  }

  lemma {:induction false} ActionsOfKid(kids: seq<Node>, i: nat)
    requires i < |kids|
    ensures Actions(kids[i]) <= ActionsIn(kids)
  {
    if i < |kids| - 1 {
      ActionsOfKid(kids[..|kids| - 1], i);
    }
  }

  lemma {:induction false} CostGrows(kids: seq<Node>, m: nat, m': nat)
    requires m <= m' <= |kids|
    ensures CostIn(kids, m) <= CostIn(kids, m')
    decreases m'
  {
    if m < m' {
      CostGrows(kids, m, m' - 1);
    }
  }

  predicate AllTryOnce(kids: seq<Node>) {
    forall x <- kids :: TriesOnce(x)
  }

  /** Running a part after `acc` adds at most the part's cost. */
  lemma PartWithin(s: Setup, acts: set<ActionConfig>, clean: bool, budget: nat, depth: nat, t: Task, acc: Run,
                   n: Node, r: Run)
    requires Within(s, acts, clean, budget, depth, t, acc) && Sound(s, n, depth, acc.after, r)
    requires Actions(n) <= acts && (clean ==> TriesOnce(n) && acc.flow.Continue?)
    ensures Within(s, acts, clean, budget + Cost(n), depth, t, acc.Then(r))
  {
    hide Within, Actions, Cost, TriesOnce;
    Widen(s, Actions(n), acts, TriesOnce(n), clean, Cost(n), Cost(n), depth, acc.after, r);
    ThenWithin(s, acts, clean, budget, Cost(n), depth, t, acc, r);
  }

  lemma {:induction false} SeqSound(s: Setup, kids: seq<Node>, i: nat, t: Task, acc: Run, depth: nat)
    requires i <= |kids| && acc.flow.Continue?
    requires Within(s, ActionsIn(kids), AllTryOnce(kids), CostIn(kids, i), depth, t, acc)
    ensures Within(s, ActionsIn(kids), AllTryOnce(kids), CostIn(kids, |kids|), depth, t,
                   RunSeq(s, kids, i, acc, depth))
    decreases kids, |kids| - i
  {
    hide Within, ActionsIn, Actions, RunNode, Cost, TriesOnce;
    if i < |kids| {
      var (acts, clean) := (ActionsIn(kids), AllTryOnce(kids));
      var r := RunNode(s, kids[i], acc.after, depth);
      NodeSound(s, kids[i], acc.after, depth);
      ActionsOfKid(kids, i);
      PartWithin(s, acts, clean, CostIn(kids, i), depth, t, acc, kids[i], r);
      CostGrows(kids, i + 1, |kids|);
      MoreBudget(s, acts, clean, CostIn(kids, i + 1), CostIn(kids, |kids|), depth, t, acc.Then(r));
      if r.flow.Continue? {
        SeqSound(s, kids, i + 1, t, acc.Then(r), depth);
      }
    }
  }

  /** Joining a branch: the worse flow of the two, all events. */
  lemma JoinWithin(s: Setup, acts: set<ActionConfig>, clean: bool, b1: nat, n: Node, depth: nat,
                   t: Task, parent: Task, fork: nat, i: nat, acc: Run, r: Run)
    requires Within(s, acts, clean, b1, depth, t, acc) && FromBranches(acc.trace, t.here, fork, i)
    requires Sound(s, n, depth, Forked(parent, fork, i, acc.after), r)
    requires parent.here == t.here && !t.token && !parent.token
    requires Actions(n) <= acts && (clean ==> TriesOnce(n))
    ensures Within(s, acts, clean, b1 + Cost(n), depth, t, WithBranch(parent, acc, r))
    ensures FromBranches(WithBranch(parent, acc, r).trace, t.here, fork, i + 1)
  {
    hide TraceOk, Starts, HasError, Actions, TriesOnce, Cost, Threaded, FromBranches;
    Widen(s, Actions(n), acts, TriesOnce(n), clean, Cost(n), Cost(n), depth, Forked(parent, fork, i, acc.after), r);
    TraceBoth(s, acts, acc.trace, r.trace);
    StartsBoth(acc.trace, r.trace);
    ErrorBoth(acc.events, r.events);
    JoinThreaded(s, t, parent, fork, i, acc, r);
  }

  lemma ParallelSound(s: Setup, kids: seq<Node>, t: Task, depth: nat)
    requires Check(s, t).flow.Continue?
    ensures Sound(s, Parallel(kids), depth, t, RunNode(s, Parallel(kids), t, depth))
    decreases kids, |kids| + 1
  {
    var entry := Check(s, t);
    assert FromBranches(entry.trace, t.here, t.next, 0);
    hide Within, RunBranches;
    CheckWithin(s, ActionsIn(kids), AllTryOnce(kids), depth, t);
    BranchesSound(s, kids, 0, t, entry.after, t.next, entry, depth);
  }

  lemma {:induction false} BranchesSound(s: Setup, kids: seq<Node>, i: nat, t: Task, parent: Task, fork: nat, acc: Run,
                                         depth: nat)
    requires i <= |kids| && parent.here == t.here && !t.token && !parent.token
    requires Within(s, ActionsIn(kids), AllTryOnce(kids), CostIn(kids, i), depth, t, acc)
    requires FromBranches(acc.trace, t.here, fork, i)
    ensures Within(s, ActionsIn(kids), AllTryOnce(kids), CostIn(kids, |kids|), depth, t,
                   RunBranches(s, kids, i, parent, fork, acc, depth))
    decreases kids, |kids| - i
  {
    hide Within, ActionsIn, Actions, RunNode, Cost, TriesOnce, WithBranch, FromBranches;
    if i < |kids| {
      var start := Forked(parent, fork, i, acc.after);
      var r := RunNode(s, kids[i], start, depth);
      NodeSound(s, kids[i], start, depth);
      ActionsOfKid(kids, i);
      JoinWithin(s, ActionsIn(kids), AllTryOnce(kids), CostIn(kids, i), kids[i], depth, t, parent, fork, i, acc, r);
      BranchesSound(s, kids, i + 1, t, parent, fork, WithBranch(parent, acc, r), depth);
    }
  }

  /** Looking at a condition takes a step without a mark. */
  lemma LaterWithin(s: Setup, acts: set<ActionConfig>, clean: bool, budget: nat, depth: nat, t: Task, a: Run, r: Run)
    requires Within(s, acts, clean, budget, depth, t, a) && (clean ==> a.flow.Continue?)
    ensures Within(s, acts, clean, budget, depth, t, a.Ends(a.flow, []))
    ensures a.Ends(a.flow, []).Then(r) == a.Then(r)
  {
    hide Within;
    assert a.events + [] == a.events && a.trace + [] == a.trace;
    OneEvent(DryRunLog(s.macroId, Delay(0)));
    LaterSame(s, acts, clean, budget, depth, t, a);
  }

  lemma LaterSame(s: Setup, acts: set<ActionConfig>, clean: bool, budget: nat, depth: nat, t: Task, a: Run)
    requires Within(s, acts, clean, budget, depth, t, a)
    ensures Within(s, acts, clean, budget, depth, t, a.Ends(a.flow, []))
  {
    hide TraceOk, HasError, Starts, Threaded;
    assert a.events + [] == a.events && a.trace + [] == a.trace;
    ThreadedStep(s, a.after, Run(a.flow, [], a.after.Later(), []));
    ThreadedThen(s, t, a, Run(a.flow, [], a.after.Later(), []));
  }

  lemma {:induction false} IfSound(s: Setup, n: Node, t: Task, acc: Run, depth: nat)
    requires n.IfElse? && acc.flow.Continue?
    requires Within(s, Actions(n), TriesOnce(n), 0, depth, t, acc)
    ensures Within(s, Actions(n), TriesOnce(n), Cost(n), depth, t, RunIf(s, n, acc, depth))
    decreases n, 1
  {
    var (acts, clean) := (Actions(n), TriesOnce(n));
    hide Within, Condition;
    match Condition(s, n.cond, acc.after.next)
    case Holds(true) => BranchSound(s, n, n.thenNode, t, acc, depth);
    case Holds(false) =>
      if n.otherwise.Some? {
        BranchSound(s, n, n.otherwise.value, t, acc, depth);
      } else {
        PassWithin(s, acts, clean, 0, Cost(n), depth, t, acc);
      }
    case Fails(e) => FailWithin(s, acts, clean, 0, Cost(n), depth, t, acc, ConditionFailed(e));
  }

  lemma {:induction false} BranchSound(s: Setup, n: Node, b: Node, t: Task, acc: Run, depth: nat)
    requires n.IfElse? && (b == n.thenNode || n.otherwise == Some(b)) && acc.flow.Continue?
    requires Within(s, Actions(n), TriesOnce(n), 0, depth, t, acc)
    ensures Within(s, Actions(n), TriesOnce(n), Cost(n), depth, t, acc.Then(RunNode(s, b, acc.after.Later(), depth)))
    decreases n, 0
  {
    var (acts, clean, look) := (Actions(n), TriesOnce(n), acc.Ends(acc.flow, []));
    var r := RunNode(s, b, acc.after.Later(), depth);
    hide Within, RunNode;
    NodeSound(s, b, acc.after.Later(), depth);
    LaterWithin(s, acts, clean, 0, depth, t, acc, r);
    PartWithin(s, acts, clean, 0, depth, t, look, b, r);
    MoreBudget(s, acts, clean, Cost(b), Cost(n), depth, t, acc.Then(r));
  }

  lemma {:induction false} Multiply(i: nat, m: nat, c: nat)
    requires i < m
    ensures (i + 1) * c == i * c + c
    ensures i * c <= (i + 1) * c <= m * c
    decreases m
  {
    OneMore(i, c);
    OneMore(m - 1, c);
    if i + 1 < m {
      Multiply(i, m - 1, c);
    }
  }

  lemma OneMore(n: nat, c: nat)
    ensures (n + 1) * c == n * c + c
  {
  }

  /** A check at the head of a loop. */
  lemma HeadWithin(s: Setup, acts: set<ActionConfig>, clean: bool, budget: nat, budget': nat, depth: nat, t: Task,
                   acc: Run)
    requires Within(s, acts, clean, budget, depth, t, acc) && (clean ==> acc.flow.Continue?) && budget <= budget'
    ensures var acc1 := acc.Then(Check(s, acc.after));
      && (acc1.flow.Continue? || acc1.flow.Stop?)
      && Within(s, acts, clean, budget, depth, t, acc1) && Within(s, acts, clean, budget', depth, t, acc1)
      && Within(s, acts, clean, budget', depth, t, acc1.(flow := Continue))
  {
    hide Within, Check;
    var c := Check(s, acc.after);
    CheckWithin(s, acts, clean, depth, acc.after);
    ThenWithin(s, acts, clean, budget, 0, depth, t, acc, c);
    ThenWithin(s, acts, clean, budget, 0, depth, t, acc, c.(flow := Continue));
    MoreBudget(s, acts, clean, budget, budget', depth, t, acc.Then(c));
    MoreBudget(s, acts, clean, budget, budget', depth, t, acc.Then(c.(flow := Continue)));
  }

  lemma {:induction false} WhileSound(s: Setup, n: Node, iter: nat, t: Task, acc: Run, depth: nat)
    requires n.While? && iter <= n.maxIter && acc.flow.Continue?
    requires Within(s, Actions(n), TriesOnce(n), iter * Cost(n.body), depth, t, acc)
    ensures Within(s, Actions(n), TriesOnce(n), n.maxIter * Cost(n.body), depth, t, RunWhile(s, n, iter, acc, depth))
    decreases n, n.maxIter - iter
  {
    hide Within, RunNode, Condition, Cost, Check;
    if iter < n.maxIter {
      var (acts, clean, c) := (Actions(n), TriesOnce(n), Cost(n.body));
      Multiply(iter, n.maxIter, c);
      HeadWithin(s, acts, clean, iter * c, n.maxIter * c, depth, t, acc);
      var acc1 := acc.Then(Check(s, acc.after));
      if acc1.flow.Continue? {
        match Condition(s, n.cond, acc1.after.next)
        case Holds(false) => PassWithin(s, acts, clean, iter * c, n.maxIter * c, depth, t, acc1);
        case Fails(e) => FailWithin(s, acts, clean, iter * c, n.maxIter * c, depth, t, acc1, ConditionFailed(e));
        case Holds(true) =>
          var r := RunNode(s, n.body, acc1.after.Later(), depth);
          NodeSound(s, n.body, acc1.after.Later(), depth);
          LaterWithin(s, acts, clean, iter * c, depth, t, acc1, r);
          PartWithin(s, acts, clean, iter * c, depth, t, acc1.Ends(acc1.flow, []), n.body, r);
          if r.flow.Continue? {
            WhileSound(s, n, iter + 1, t, acc1.Then(r), depth);
          } else {
            MoreBudget(s, acts, clean, (iter + 1) * c, n.maxIter * c, depth, t, acc1.Then(r));
          }
      }
    }
  }

  lemma BoundSame(s: Setup, t: Task, name: string, v: Value, r: Run)
    requires Threaded(s, Bound(t, name, v), r)
    ensures Threaded(s, t, r)
  {
  }

  lemma {:induction false} ForEachSound(s: Setup, n: Node, i: nat, t: Task, acc: Run, depth: nat)
    requires n.ForEach? && i <= |Items(n.items)| && acc.flow.Continue?
    requires Within(s, Actions(n), TriesOnce(n), i * Cost(n.body), depth, t, acc)
    ensures Within(s, Actions(n), TriesOnce(n), |Items(n.items)| * Cost(n.body), depth, t,
                   RunForEach(s, n, i, acc, depth))
    decreases n, |Items(n.items)| - i
  {
    hide Within, RunNode, Cost, Check, Threaded, Bound;
    var m := |Items(n.items)|;
    if i < m {
      var (acts, clean, c) := (Actions(n), TriesOnce(n), Cost(n.body));
      Multiply(i, m, c);
      HeadWithin(s, acts, clean, i * c, m * c, depth, t, acc);
      var acc1 := acc.Then(Check(s, acc.after));
      if acc1.flow.Continue? {
        var start := Bound(acc1.after, n.varName, Items(n.items)[i]);
        var r := RunNode(s, n.body, start, depth);
        NodeSound(s, n.body, start, depth);
        BoundSound(s, n.body, depth, acc1.after, n.varName, Items(n.items)[i], r);
        PartWithin(s, acts, clean, i * c, depth, t, acc1, n.body, r);
        if r.flow.Continue? {
          ForEachSound(s, n, i + 1, t, acc1.Then(r), depth);
        } else {
          MoreBudget(s, acts, clean, (i + 1) * c, m * c, depth, t, acc1.Then(r));
        }
      }
    }
  }

  lemma BoundSound(s: Setup, n: Node, depth: nat, t: Task, name: string, v: Value, r: Run)
    requires Sound(s, n, depth, Bound(t, name, v), r)
    ensures Sound(s, n, depth, t, r)
  {
    hide TraceOk, Starts, HasError, Threaded, Bound;
    BoundSame(s, t, name, v, r);
  }

  lemma {:induction false} RetrySound(s: Setup, n: Node, attempt: nat, t: Task, acc: Run, depth: nat)
    requires n.Retry? && attempt <= Attempts(n.times) && (attempt > 0 ==> HasError(acc.events))
    requires Within(s, Actions(n), false, attempt * Cost(n.body), depth, t, acc)
    ensures Within(s, Actions(n), false, Attempts(n.times) * Cost(n.body), depth, t,
                   RunRetry(s, n, attempt, acc, depth))
    decreases n, Attempts(n.times) - attempt
  {
    hide TraceOk, Starts, HasError, RunNode, Cost, Elapsed, Check, Threaded;
    var (m, acts, c) := (Attempts(n.times), Actions(n), Cost(n.body));
    if attempt == m {
      SameMarks(s, t, acc, Failed, acc.events);
    } else {
      Multiply(attempt, m, c);
      HeadWithin(s, acts, false, attempt * c, m * c, depth, t, acc);
      if acc.Then(Check(s, acc.after)).flow.Continue? {
        RetryOnce(s, n, attempt, t, acc, depth);
      }
    }
  }

  lemma {:induction false} RetryOnce(s: Setup, n: Node, attempt: nat, t: Task, acc: Run, depth: nat)
    requires n.Retry? && attempt < Attempts(n.times)
    requires var acc1 := acc.Then(Check(s, acc.after));
      acc1.flow.Continue? && Within(s, Actions(n), false, attempt * Cost(n.body), depth, t, acc1)
    ensures Within(s, Actions(n), false, Attempts(n.times) * Cost(n.body), depth, t,
                   RunRetry(s, n, attempt, acc, depth))
    decreases n, Attempts(n.times) - attempt, 0
  {
    hide TraceOk, Starts, HasError, RunNode, Cost, Check, Threaded;
    var (m, acts, c) := (Attempts(n.times), Actions(n), Cost(n.body));
    var acc1 := acc.Then(Check(s, acc.after));
    var r := RunNode(s, n.body, acc1.after, depth);
    var both := acc1.Then(r);
    Multiply(attempt, m, c);
    NodeSound(s, n.body, acc1.after, depth);
    PartWithin(s, acts, false, attempt * c, depth, t, acc1, n.body, r);
    MoreBudget(s, acts, false, (attempt + 1) * c, m * c, depth, t, both);
    if r.flow.Failed? {
      if attempt + 1 < m && n.backoffMs > 0 {
        PauseWithin(s, acts, (attempt + 1) * c, m * c, depth, t, both);
        if Elapsed(s, both.after.next, depth).None? {
          RetrySound(s, n, attempt + 1, t, both.Ends(Failed, []), depth);
        }
      } else {
        RetrySound(s, n, attempt + 1, t, both, depth);
      }
    }
  }

  lemma PauseWithin(s: Setup, acts: set<ActionConfig>, budget: nat, budget': nat, depth: nat, t: Task, a: Run)
    requires Within(s, acts, false, budget, depth, t, a) && a.flow.Failed? && budget <= budget'
    ensures Within(s, acts, false, budget, depth, t, a.Ends(Failed, []))
    ensures var e := Elapsed(s, a.after.next, depth);
      e.Some? ==> Within(s, acts, false, budget', depth, t, a.Ends(Dropped(e.value), []))
    ensures HasError(a.Ends(Failed, []).events)
  {
    hide Threaded, TraceOk, Starts, HasError;
    var r := a.Ends(Failed, []);
    LaterSame(s, acts, false, budget, depth, t, a);
    var e := Elapsed(s, a.after.next, depth);
    if e.Some? {
      SameMarks(s, t, r, Dropped(e.value), r.events);
    }
    assert a.events + [] == a.events;
  }

  /** With one attempt a failure is not swallowed. */
  lemma {:induction false} TryOnceSound(s: Setup, n: Node, t: Task, entry: Run, depth: nat)
    requires n.Retry? && n.times <= 1 && entry.flow.Continue?
    requires Within(s, Actions(n), TriesOnce(n), 0, depth, t, entry)
    ensures Within(s, Actions(n), TriesOnce(n), Cost(n), depth, t, RunRetry(s, n, 0, entry, depth))
    decreases n, 0
  {
    hide Within, RunNode, Check;
    var (acts, clean, c) := (Actions(n), TriesOnce(n), Cost(n.body));
    assert Cost(n) == c;
    HeadWithin(s, acts, clean, 0, c, depth, t, entry);
    var acc1 := entry.Then(Check(s, entry.after));
    if acc1.flow.Continue? {
      var r := RunNode(s, n.body, acc1.after, depth);
      NodeSound(s, n.body, acc1.after, depth);
      PartWithin(s, acts, clean, 0, depth, t, acc1, n.body, r);
      assert acc1.Then(r).flow.Failed? ==> RunRetry(s, n, 1, acc1.Then(r), depth) == acc1.Then(r);
    }
  }

  lemma {:induction false} TimeoutSound(s: Setup, n: Node, t: Task, entry: Run, depth: nat)
    requires n.Timeout? && entry.flow.Continue? && Within(s, Actions(n), TriesOnce(n), 0, depth, t, entry)
    ensures Within(s, Actions(n), TriesOnce(n), Cost(n), depth, t,
                   entry.Then(Limited(s, RunNode(s, n.body, entry.after, depth + 1), n.millis)))
    decreases n, 0
  {
    hide Within, Limited, RunNode;
    var body := RunNode(s, n.body, entry.after, depth + 1);
    NodeSound(s, n.body, entry.after, depth + 1);
    LimitWithin(s, Actions(n), TriesOnce(n), Cost(n), depth, entry.after, body, n.millis);
    ThenWithin(s, Actions(n), TriesOnce(n), 0, Cost(n), depth, t, entry, Limited(s, body, n.millis));
  }

  lemma LimitWithin(s: Setup, acts: set<ActionConfig>, clean: bool, budget: nat, depth: nat, t: Task, body: Run,
                    ms: nat)
    requires Within(s, acts, clean, budget, depth + 1, t, body)
    ensures Within(s, acts, clean, budget, depth, t, Limited(s, body, ms))
  {
    hide TraceOk, Starts, HasError, Threaded;
    OneEvent(Error(s.macroId, TimedOut(ms)));
    if body.flow.Dropped? && body.flow.outer == 0 {
      var last := Run(Failed, [], body.after.Later().(token := true), [TokenSet(body.after.Now())]);
      TokenSetOk(s, acts, body.after);
      StartsBoth(body.trace, last.trace);
      TraceBoth(s, acts, body.trace, last.trace);
      ThreadedThen(s, t, body, last);
      SameMarks(s, t, body.Then(last), Failed, [Error(s.macroId, TimedOut(ms))]);
    } else if body.flow.Dropped? {
      SameMarks(s, t, body, Dropped(body.flow.outer - 1), body.events);
    }
  }

  lemma TokenSetOk(s: Setup, acts: set<ActionConfig>, t: Task)
    ensures TraceOk(s, acts, [TokenSet(t.Now())]) && Starts([TokenSet(t.Now())]) == 0
    ensures Threaded(s, t, Run(Failed, [], t.Later().(token := true), [TokenSet(t.Now())]))
  {
    FewStarts([TokenSet(t.Now())]);
    ThreadedStep(s, t, Run(Failed, [], t.Later().(token := true), [TokenSet(t.Now())]));
  }

  lemma {:induction false} NoStarts(trace: seq<Mark>)
    requires forall i :: 0 <= i < |trace| ==> !trace[i].Started?
    ensures StartedIn(trace) == []
  {
    if trace != [] {
      NoStarts(trace[..|trace| - 1]);
    }
  }

  /// Results

  /** No action ever starts without all its required permissions, in a dry run, or unless the check that entered its
      node, two steps earlier in the same branch, found the token unset. */
  lemma StartsAreAllowed(s: Setup, root: Node, locals: Locals, i: nat)
    requires var trace := RunWorkflow(s, root, locals).trace; i < |trace| && trace[i].Started?
    ensures var trace := RunWorkflow(s, root, locals).trace;
      && trace[i].action in Actions(root) && Granted(s, trace[i].action) && !s.dryRun
      && i > 0 && trace[i].at.step >= 2
      && trace[i - 1] == Checked(Moment(trace[i].at.step - 2, trace[i].at.branch), false)
  {
    NodeSound(s, root, Fresh(s, locals), 0);
    assert MarkOk(s, Actions(root), RunWorkflow(s, root, locals).trace, i);
  }

  /** Every run starts at most `Cost(root)` actions, and a dry run none. */
  lemma StartsAreBounded(s: Setup, root: Node, locals: Locals)
    ensures Starts(RunWorkflow(s, root, locals).trace) <= if s.dryRun then 0 else Cost(root)
  {
    NodeSound(s, root, Fresh(s, locals), 0);
    if s.dryRun {
      var trace := RunWorkflow(s, root, locals).trace;
      forall i | 0 <= i < |trace|
        ensures !trace[i].Started?
      {
        assert MarkOk(s, Actions(root), trace, i);
      }
      NoStarts(trace);
    }
  }

  lemma {:induction false} AppliedNone(s: Setup, trace: seq<Mark>, store: Store)
    requires StartedIn(trace) == []
    ensures Applied(s, trace, store) == store
  {
    if trace != [] {
      AppliedNone(s, trace[..|trace| - 1], store);
    }
  }

  /** Only actions that start write to the store, each once and in the order of the trace: a run that starts none,
      such as a dry run, leaves it as it was. */
  lemma OnlyActionsWrite(s: Setup, root: Node, locals: Locals)
    ensures var r := RunWorkflow(s, root, locals);
      && r.after.store == Applied(s, r.trace, s.store)
      && (s.dryRun || StartedIn(r.trace) == [] ==> r.after.store == s.store)
  {
    NodeSound(s, root, Fresh(s, locals), 0);
    StartsAreBounded(s, root, locals);
    var r := RunWorkflow(s, root, locals);
    if s.dryRun || StartedIn(r.trace) == [] {
      AppliedNone(s, r.trace, s.store);
    }
  }

  /** A run that ends in failure carries an error; unless something is tried again it carries one only then. */
  lemma FailureHasError(s: Setup, root: Node, locals: Locals)
    ensures var r := RunWorkflow(s, root, locals);
      && !r.flow.Dropped?
      && (r.flow.Failed? ==> HasError(r.events))
      && (TriesOnce(root) && HasError(r.events) ==> r.flow.Failed?)
  {
    NodeSound(s, root, Fresh(s, locals), 0);
  }

  /** With the permissions aggregated from the tree itself, and actions that require only what aggregation lists for
      them, no action is ever denied. */
  lemma AggregateNeverDenies(s: Setup, root: Node, locals: Locals, i: nat)
    requires ToSet(s.grant) == NeedsOf(Actions(root))
    requires forall a <- Actions(root) :: s.build(a).Ready? ==> ToSet(s.build(a).required) <= ToSet(Needs(a))
    requires i < |RunWorkflow(s, root, locals).trace|
    ensures !RunWorkflow(s, root, locals).trace[i].Denied?
  {
    NodeSound(s, root, Fresh(s, locals), 0);
    var trace := RunWorkflow(s, root, locals).trace;
    assert MarkOk(s, Actions(root), trace, i);
    forall a, p | a in Actions(root) && s.build(a).Ready? && p in s.build(a).required
      ensures p in s.grant
    {
      assert p in ToSet(s.build(a).required) && p in NeedsOf(Actions(root)) && p in ToSet(s.grant);
    }
  }

  /** So the actions that ship are never denied under the aggregate of their own workflow. */
  lemma ShippedActionsAreGranted(s: Setup, root: Node, locals: Locals, i: nat)
    requires ToSet(s.grant) == NeedsOf(Actions(root))
    requires forall a <- Actions(root) :: s.build(a).Ready? ==> AskedBy(a) == Some(ToSet(s.build(a).required))
    requires i < |RunWorkflow(s, root, locals).trace|
    ensures !RunWorkflow(s, root, locals).trace[i].Denied?
  {
    forall a | a in Actions(root) && s.build(a).Ready?
      ensures ToSet(s.build(a).required) <= ToSet(Needs(a))
    {
      NeedsAreAsked(a);
    }
    AggregateNeverDenies(s, root, locals, i);
  }

  /// Parallel branches

  /** The runs of the branches from `i` on. */
  function BranchRuns(s: Setup, kids: seq<Node>, i: nat, parent: Task, fork: nat, sofar: Task, depth: nat): seq<Run>
    requires i <= |kids|
    decreases |kids| - i
  {
    if i == |kids| then []
    else
      var r := RunNode(s, kids[i], Forked(parent, fork, i, sofar), depth);
      [r] + BranchRuns(s, kids, i + 1, parent, fork, r.after, depth)
  }

  predicate SomeFlow(rs: seq<Run>, f: Flow) {
    exists i :: 0 <= i < |rs| && rs[i].flow == f
  }

  predicate SomeDropped(rs: seq<Run>) {
    exists i :: 0 <= i < |rs| && rs[i].flow.Dropped?
  }

  /** The worst of a flow and those of `rs`, in no particular order: failure before stop before continuing. */
  ghost predicate WorstOf(f: Flow, first: Flow, rs: seq<Run>) {
    && (f.Dropped? <==> first.Dropped? || SomeDropped(rs))
    && (!f.Dropped? ==>
         && (f.Failed? <==> first.Failed? || SomeFlow(rs, Failed))
         && (f.Stop? <==> !f.Failed? && (first.Stop? || SomeFlow(rs, Stop))))
  }

  lemma WorstNext(f: Flow, first: Flow, r: Run, rs: seq<Run>)
    requires WorstOf(f, Worse(first, r.flow), rs)
    ensures WorstOf(f, first, [r] + rs)
  {
    var all := [r] + rs;
    assert all[0] == r && forall i :: 0 <= i < |rs| ==> all[i + 1] == rs[i];
    assert forall i :: 0 < i < |all| ==> all[i] == rs[i - 1];
  }

  lemma {:induction false} BranchesTakeWorst(s: Setup, kids: seq<Node>, i: nat, parent: Task, fork: nat, acc: Run,
                                             depth: nat)
    requires i <= |kids| && acc.after.locals == parent.locals
    ensures var r := RunBranches(s, kids, i, parent, fork, acc, depth);
      && r.after.locals == parent.locals
      && WorstOf(r.flow, acc.flow, BranchRuns(s, kids, i, parent, fork, acc.after, depth))
    decreases |kids| - i
  {
    hide RunNode, Worse, WorstOf;
    if i == |kids| {
      WorstOfNone(acc.flow);
    } else {
      var r := RunNode(s, kids[i], Forked(parent, fork, i, acc.after), depth);
      BranchesTakeWorst(s, kids, i + 1, parent, fork, WithBranch(parent, acc, r), depth);
      WorstNext(RunBranches(s, kids, i, parent, fork, acc, depth).flow, acc.flow, r,
                BranchRuns(s, kids, i + 1, parent, fork, r.after, depth));
    }
  }

  lemma WorstOfNone(f: Flow)
    ensures WorstOf(f, f, [])
  {
  }

  /** A parallel node fails if any branch fails, stops if none fails and any stops, and continues otherwise; it leaves
      the parent's locals as they were. */
  lemma ParallelTakesWorst(s: Setup, kids: seq<Node>, t: Task, depth: nat)
    requires Check(s, t).flow.Continue?
    ensures var (r, parent) := (RunNode(s, Parallel(kids), t, depth), Check(s, t).after);
      && r.after.locals == t.locals
      && WorstOf(r.flow, Continue, BranchRuns(s, kids, 0, parent, t.next, parent, depth))
  {
    var entry := Check(s, t);
    BranchesTakeWorst(s, kids, 0, entry.after, t.next, entry, depth);
  }
}
