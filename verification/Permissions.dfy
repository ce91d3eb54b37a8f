// Static aggregation of the permissions a workflow needs (crates/core/src/permission.rs).
module Permissions {
  import opened Domain

  type Node = WorkflowNode

  /** What one action configuration is known to require, in the order in which it is added. */
  function Needs(a: ActionConfig): seq<Permission> {
    match a
    case RunCommand(_, _, _) => [RunCommandPermission]
    case SimulateInput(_) => [InputSimulation]
    case RunScript(_) => [ScriptExecution]
    case HttpRequest(_, _) => [Network]
    case Interact(target, _, fallback) =>
      [if target.BrowserTab? then BrowserControl else WindowInteraction]
        + if fallback.Degrade? then [ForegroundTakeover] else []
    case _ => []
  }

  /** What an action asks for when it runs, by its own code; HTTP requests and custom actions have none here. */
  function AskedBy(a: ActionConfig): Option<set<Permission>> {
    match a
    case RunCommand(_, _, _) => Some({RunCommandPermission})
    case Notify(_, _) => Some({})
    case SimulateInput(_) => Some({InputSimulation})
    case HttpRequest(_, _) => None
    case SetVariable(_, _, _) => Some({})
    case Delay(_) => Some({})
    case RunScript(_) => Some({ScriptExecution})
    case Interact(target, _, fallback) =>
      var surface := match target case BrowserTab(_) => BrowserControl case _ => WindowInteraction;
      Some(if fallback == Degrade then {surface, ForegroundTakeover} else {surface})
    case CustomAction(_, _) => None
  }

  /** Aggregation lists for each action exactly what it will ask for. */
  lemma NeedsAreAsked(a: ActionConfig)
    requires AskedBy(a).Some?
    ensures ToSet(Needs(a)) == AskedBy(a).value
  {
  }

  /** The actions of a tree: every one in any branch or body. */
  function Actions(n: Node): set<ActionConfig> {
    match n
    case Action(a) => {a}
    case Seq(kids) => ActionsIn(kids)
    case Parallel(kids) => ActionsIn(kids)
    case IfElse(_, t, o) => Actions(t) + (match o case Some(e) => Actions(e) case None => {})
    case While(_, b, _) => Actions(b)
    case ForEach(_, _, b) => Actions(b)
    case Retry(b, _, _) => Actions(b)
    case Timeout(b, _) => Actions(b)
    case Wait(_) => {}
  }

  function ActionsIn(kids: seq<Node>): set<ActionConfig> {
    if kids == [] then {} else ActionsIn(kids[..|kids| - 1]) + Actions(kids[|kids| - 1])
  }

  function NeedsOf(actions: set<ActionConfig>): set<Permission> {
    set a, p | a in actions && p in Needs(a) :: p
  }

  lemma NeedsOfBoth(a: set<ActionConfig>, b: set<ActionConfig>)
    ensures NeedsOf(a + b) == NeedsOf(a) + NeedsOf(b)
  {
  }

  function ToSet<T>(xs: seq<T>): set<T> {
    set x | x in xs
  }

  predicate Distinct<T(==)>(xs: seq<T>) {
    forall i, j :: 0 <= i < j < |xs| ==> xs[i] != xs[j]
  }

  function WithOne(perms: seq<Permission>, p: Permission): seq<Permission> {
    if p in perms then perms else perms + [p]
  }

  /** Each of `more`, in order, unless it is there already. */
  function Joined(perms: seq<Permission>, more: seq<Permission>): seq<Permission>
    decreases more
  {
    if more == [] then perms else WithOne(Joined(perms, more[..|more| - 1]), more[|more| - 1])
  }

  lemma {:induction false} JoinedUnion(perms: seq<Permission>, more: seq<Permission>)
    ensures ToSet(Joined(perms, more)) == ToSet(perms) + ToSet(more)
    ensures Distinct(perms) ==> Distinct(Joined(perms, more))
    ensures perms <= Joined(perms, more)
    decreases more
  {
    if more != [] {
      var (front, p) := (more[..|more| - 1], more[|more| - 1]);
      JoinedUnion(perms, front);
      assert more == front + [p];
      assert ToSet(WithOne(Joined(perms, front), p)) == ToSet(Joined(perms, front)) + {p};
    }
  }

  lemma JoinedFew(perms: seq<Permission>, p: Permission, q: Permission)
    ensures Joined(perms, [p]) == WithOne(perms, p)
    ensures Joined(perms, [p, q]) == WithOne(WithOne(perms, p), q)
  {
    assert [p][..0] == [] && [p, q][..1] == [p];
  }

  method AddActionPerms(action: ActionConfig, perms: seq<Permission>) returns (out: seq<Permission>)
    ensures out == Joined(perms, Needs(action))
  {
    out := perms;
    if Needs(action) != [] {
      JoinedFew(perms, Needs(action)[0], ForegroundTakeover);
    }
    match action
    case RunCommand(_, _, _) => out := AddOne(RunCommandPermission, out);
    case SimulateInput(_) => out := AddOne(InputSimulation, out);
    case RunScript(_) => out := AddOne(ScriptExecution, out);
    case HttpRequest(_, _) => out := AddOne(Network, out);
    case Interact(target, _, fallback) =>
      match target {
        case BrowserTab(_) => out := AddOne(BrowserControl, out);
        case _ => out := AddOne(WindowInteraction, out);
      }
      if fallback.Degrade? {
        out := AddOne(ForegroundTakeover, out);
      }
    case _ =>
  }

  method AddOne(p: Permission, perms: seq<Permission>) returns (out: seq<Permission>)
    ensures out == WithOne(perms, p)
  {
    out := perms;
    if p !in perms {
      out := perms + [p];
    }
  }

  /** The walk only appends, brings in no duplicate and adds exactly what the tree's actions need. */
  method CollectWorkflowPerms(node: Node, perms: seq<Permission>) returns (out: seq<Permission>)
    ensures perms <= out && (Distinct(perms) ==> Distinct(out))
    ensures ToSet(out) == ToSet(perms) + NeedsOf(Actions(node))
    decreases node
  {
    out := perms;
    match node
    case Action(a) =>
      out := AddActionPerms(a, out);
      JoinedUnion(perms, Needs(a));
      assert NeedsOf({a}) == ToSet(Needs(a));
    case Seq(kids) =>
      out := CollectEach(kids, out);
    case Parallel(kids) =>
      out := CollectEach(kids, out);
    case IfElse(_, t, otherwise) =>
      out := CollectWorkflowPerms(t, out);
      if otherwise.Some? {
        out := CollectWorkflowPerms(otherwise.value, out);
        NeedsOfBoth(Actions(t), Actions(otherwise.value));
      } else {
        assert Actions(node) == Actions(t);
      }
    case While(_, b, _) =>
      out := CollectWorkflowPerms(b, out);
    case ForEach(_, _, b) =>
      out := CollectWorkflowPerms(b, out);
    case Retry(b, _, _) =>
      out := CollectWorkflowPerms(b, out);
    case Timeout(b, _) =>
      out := CollectWorkflowPerms(b, out);
    case Wait(_) =>
      assert NeedsOf({}) == {};
  }

  method CollectEach(kids: seq<Node>, perms: seq<Permission>) returns (out: seq<Permission>)
    ensures perms <= out && (Distinct(perms) ==> Distinct(out))
    ensures ToSet(out) == ToSet(perms) + NeedsOf(ActionsIn(kids))
    decreases kids
  {
    out := perms;
    assert NeedsOf({}) == {};
    for i := 0 to |kids|
      invariant perms <= out && (Distinct(perms) ==> Distinct(out))
      invariant ToSet(out) == ToSet(perms) + NeedsOf(ActionsIn(kids[..i]))
    {
      out := CollectWorkflowPerms(kids[i], out);
      assert kids[..i + 1][..i] == kids[..i];
      NeedsOfBoth(ActionsIn(kids[..i]), Actions(kids[i]));
    }
    assert kids[..|kids|] == kids;
  }

  /** The aggregate of a whole tree: exactly the union, without duplicates. */
  method AggregateFromWorkflow(root: Node) returns (perms: seq<Permission>)
    ensures Distinct(perms)
    ensures ToSet(perms) == NeedsOf(Actions(root))
  {
    perms := CollectWorkflowPerms(root, []);
  }

  /** The flat counterpart looks at an action list only. */
  method AggregateFromConfigs(actions: seq<ActionConfig>) returns (perms: seq<Permission>)
    ensures Distinct(perms)
    ensures ToSet(perms) == NeedsOf(ToSet(actions))
  {
    perms := [];
    for i := 0 to |actions|
      invariant Distinct(perms)
      invariant ToSet(perms) == NeedsOf(ToSet(actions[..i]))
    {
      JoinedUnion(perms, Needs(actions[i]));
      perms := AddActionPerms(actions[i], perms);
      assert ToSet(actions[..i + 1]) == ToSet(actions[..i]) + {actions[i]} by {
        assert actions[..i + 1] == actions[..i] + [actions[i]];
      }
      assert NeedsOf(ToSet(actions[..i + 1])) == NeedsOf(ToSet(actions[..i])) + ToSet(Needs(actions[i]));
    }
    assert actions[..|actions|] == actions;
  }

  lemma {:induction false} ActionsOfList(kids: seq<Node>, actions: seq<ActionConfig>)
    requires |kids| == |actions| && forall i :: 0 <= i < |kids| ==> kids[i] == Action(actions[i])
    ensures ActionsIn(kids) == ToSet(actions)
  {
    if kids != [] {
      var n := |kids| - 1;
      ActionsOfList(kids[..n], actions[..n]);
      assert actions == actions[..n] + [actions[n]];
    }
  }

  /** For a macro without a workflow of its own, looking at the action list alone misses nothing; with one it can. */
  lemma FlatListSuffices(m: Macro)
    requires m.workflow.None?
    ensures Actions(m.RootWorkflow()) == ToSet(m.actions)
  {
    ActionsOfList(m.RootWorkflow().kids, m.actions);
  }
}
