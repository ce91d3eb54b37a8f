// The serializable entities of crates/core/src/domain.rs, value.rs, permission.rs and engine.rs.
module Domain {

  datatype Option<+T> = None | Some(value: T)

  type MacroId = nat

  /// Values and configurations

  datatype Value =
    | Null
    | Bool(b: bool)
    | Int(i: int)
    | Float(f: real)
    | Str(s: string)
    | List(elems: seq<Value>)
    | Map(entries: map<string, Value>)

  datatype CompareOp = Eq | Ne | Lt | Gt | Le | Ge

  datatype ConstraintConfig =
    | ActiveWindow(titlePattern: string, regex: bool)
    | TimeRange(from: string, to: string)
    | VarCompare(key: string, op: CompareOp, value: Value)
    | Expression(dsl: string)
    | CustomConstraint(provider: string, params: string)

  datatype TargetSelector =
    | Foreground
    | Window(titlePattern: string, regex: bool)
    | ProcessNamed(name: string)
    | BrowserTab(urlPattern: string)
    | CustomTarget(provider: string, params: string)

  datatype OnNoBackground = Degrade | Fail | QueueUntilReachable

  datatype ActionConfig =
    | RunCommand(program: string, args: seq<string>, capture: bool)
    | Notify(title: string, message: string)
    | SimulateInput(steps: seq<string>)
    | HttpRequest(httpMethod: string, url: string)
    | SetVariable(global: bool, key: string, value: Value)
    | Delay(millis: nat)
    | RunScript(source: string)
    | Interact(target: TargetSelector, uiOp: string, onNoBackground: OnNoBackground)
    | CustomAction(provider: string, params: string)

  datatype KeyCombo = KeyCombo(modifiers: seq<string>, key: string)

  datatype TriggerConfig =
    | Hotkey(keys: seq<KeyCombo>)
    | WindowFocus(titlePattern: string, regex: bool)
    | ProcessTrigger(name: string, started: bool)
    | Schedule(cron: string)
    | FileChange(path: string, change: string)
    | Manual
    | CustomTrigger(provider: string, params: string)

  datatype EventKind =
    | HotkeyEvent
    | WindowFocusEvent
    | ProcessEvent
    | TimerEvent
    | FileChangeEvent
    | ManualEvent
    | CustomEvent

  datatype Permission =
    | InputSimulation
    | FileRead(scope: string)
    | FileWrite(scope: string)
    | Network
    | RunCommandPermission
    | ScriptExecution
    | ClipboardRead
    | ClipboardWrite
    | WindowInteraction
    | BrowserControl
    | ForegroundTakeover

  /// The two recursive trees

  /** The constraint leg of a macro. */
  datatype ConstraintExpr =
    | Always
    | Leaf(config: ConstraintConfig)
    | Not(inner: ConstraintExpr)
    | All(exprs: seq<ConstraintExpr>)
    | Any(exprs: seq<ConstraintExpr>)

  /** The action leg of a macro. `IfElse` is the source's `If`. */
  datatype WorkflowNode =
    | Action(action: ActionConfig)
    | Seq(kids: seq<WorkflowNode>)
    | Parallel(kids: seq<WorkflowNode>)
    | IfElse(cond: ConstraintExpr, thenNode: WorkflowNode, otherwise: Option<WorkflowNode>)
    | While(cond: ConstraintExpr, body: WorkflowNode, maxIter: nat)
    | ForEach(items: Value, varName: string, body: WorkflowNode)
    | Retry(body: WorkflowNode, times: nat, backoffMs: nat)
    | Timeout(body: WorkflowNode, millis: nat)
    | Wait(waitMs: nat)
  {
    /** The nodes that own exactly one body. */
    predicate IsWrapper() {
      While? || ForEach? || Retry? || Timeout?
    }
  }

  /** Outcome of evaluating a constraint: a truth value, or the error of the first leaf that failed. */
  datatype Verdict = Holds(b: bool) | Fails(error: string)

  datatype Policy =
    | RunParallel
    | Queue(max: nat)
    | DropIfRunning
    | RestartIfRunning
    | Debounce(ms: nat)
    | Throttle(ms: nat)

  datatype Macro = Macro(
    id: MacroId,
    name: string,
    enabled: bool,
    triggers: seq<TriggerConfig>,
    constraints: ConstraintExpr,
    actions: seq<ActionConfig>,
    workflow: Option<WorkflowNode>,
    grantedPermissions: seq<Permission>,
    priority: int,
    concurrency: Policy)
  {
    /** An explicit workflow wins; otherwise the flat action list runs as a sequence. */
    function RootWorkflow(): WorkflowNode {
      match workflow
      case Some(w) => w
      case None => Seq(seq(|actions|, i requires 0 <= i < |actions| => Action(actions[i])))
    }
  }
}
