# KoRkuma in Dafny

KoRkuma is a macro engine. An event goes through a router, which finds the macros it may fire; through a scheduler,
which decides under a concurrency policy when a fired macro runs; and through an interpreter, which runs the macro's
workflow tree. An editor shows constraint trees and workflow trees as flat lists and edits them by row number, and a
file watcher turns a reloaded macro list into commands for the router. This project models these five parts and proves
what they keep, over all trees, all histories of commands and all interleavings.

Run `dafny verify dfyconfig.toml` to check everything.

## How the project is organised

| files | what they hold |
|---|---|
| `Domain` | the serialised entities: macros, triggers, actions, permissions, the two trees |
| `MacroState`, `SchedulerRuns` | the scheduler's lock sections, in place and as functions; the step machine of all its tasks; counting and draining |
| `SchedulerSteps` | what each lock section does to a trigger |
| `SchedulerConservation` | no work is lost and none runs twice, under any mix of policies |
| `SchedulerQueue`, `SchedulerRestart`, `SchedulerDebounce`, `SchedulerThrottle` | runs under one fixed policy |
| `Blocks`, `Outlines`, `OutlineMoves` | flat lists: a tree of labelled rows, its edits by row number, moves among siblings |
| `ConstraintTree`, `ConstraintRows`, `ConstraintMoves`, `ConstraintShape`, `ConstraintMeaning`, `ConstraintTruth`, `ConstraintMoveMeaning`, `ConstraintDeleteMeaning`, `ConstraintEditor` | the constraint tree: edits as functions of a row, their effect on rows and on meaning, and the editor's own walks |
| `WorkflowTree`, `WorkflowRows`, `WorkflowEdits`, `WorkflowActions`, `WorkflowNumbering`, `WorkflowCounting`, `WorkflowEditor` | the same for the workflow tree, what a delete does to its actions, and the rows its update and delete walks really reach |
| `Triggers` | which events the shipped trigger specs match |
| `Router`, `Reload` | the event index against a full scan; reload diffs and their replay |
| `Permissions` | static aggregation of permissions |
| `Interpreter`, `InterpreterLoops` | the workflow interpreter as a function, and the same interpreter as loops over one context |
| `InterpreterToken`, `InterpreterSafety` | what holds of all runs, in one induction |
| `InterpreterMeaning` | what each kind of node does, in terms of the runs of its parts |
| `InterpreterCancel`, `InterpreterRetry` | the shared token across branches, and retries |
| `InterpreterAlike` | workflows that run alike, among them a workflow and what a delete's simplification makes of it |
| `Locks` | the pool of resource locks and tasks that take them |

The walks and loops of these parts are methods here, with the source's counters, accumulators and early returns. Each is
proved equal to a function of its inputs, and the results are lemmas about that function.

The scheduler is a machine whose steps are the lock-protected sections; cancel calls, the timer check and the workflow
itself happen between sections, and a run is any interleaving.

The interpreter is a function of what its surroundings answer at each step: whether someone else has set the token by
now, what a leaf of a condition yields, what an action returns and does to the store, and whether an enclosing timeout
ends while the task waits. Since the answers are arbitrary, they stand for any behaviour of other tasks, of the store
and of the other branches of a parallel node. What a task itself knows of the token is state: a timeout that ends sets
it, a check that finds it set keeps it, a fork hands it on, and a join takes it over from any branch. Marks carry
their step and their branch; the steps of a parallel node are numbered one branch after another, and where the time of
a step matters it is given by a clock. A timeout that ends drops its body at a point where it waits; what the body did
before stays done.

## Where the code departs from its own description

- The update and the delete walk of the workflow editor do not know `ForEach`: they count it as one row and do not
  enter its body, though docs/app/tree_model.md line 82 says that they count as the flattening does. The proofs say
  which row they reach: the chosen one exactly when no `ForEach` row stands above it.
- A delete simplifies every group it walks over, not only around the deleted node, and an empty OR, which is false,
  becomes `Always`. Trees that the editor builds hold no empty OR, and without one a delete that hits nothing is
  harmless; in other trees the proofs say exactly when it is.
- Adding a macro under a registered id does not clear its old index entries, though the source calls it replaced
  (crates/core/src/router.rs line 46): it then fires more than once per event. So does a macro with two triggers of
  one kind.
- docs/core/domain.md line 48 says that a debounce keeps the last trigger. A trigger that lands between another's
  timer check and its commit can lose its token to that commit, and then two triggers execute. The proofs give the
  exact rule, when it differs, a run in which it does, and the documented rule for runs without that interleaving.
- crates/hooks/src/trigger_spec.rs lines 21 and 22 call the comparison of modifiers one of sets. It compares lengths and
  inclusion: the same for combinations without a repeated modifier, and more for others.
- docs/core/workflow.md line 25 lists timeouts among the failures that a retry repeats. An elapsed timeout sets the
  shared token, so the retry around it stops instead. The proofs say exactly when an attempt is followed by another, and
  give the run in which a timeout is not.

## Model

| member | source | states |
|---|---|---|
| `MacroState.MacroState.EnterSection` | crates/core/src/scheduler.rs:171-276 | the first lock section of a trigger, for all six policies: new state, decision and the timer token it cancels |
| `MacroState.MacroState.CommitSection` | crates/core/src/scheduler.rs:249-254 | the section in which an uncancelled debounce timer commits |
| `MacroState.MacroState.CompleteSection` | crates/core/src/scheduler.rs:310-322 | the section after a finished workflow: one fewer running, stale tokens gone, the queue's head next |
| `MacroState.MacroState.RetainLive` | crates/core/src/scheduler.rs:314 | keeps exactly the tokens that are not cancelled, in order |
| `SchedulerSteps.FirstSectionMeans` | crates/core/src/scheduler.rs:170-276 | in any interleaving and policy mix: a parallel trigger executes; the others start, wait in the queue, cancel the older ones, sleep for their debounce or are dropped, by what is in flight and by the clock |
| `SchedulerSteps.WakeMeans` | crates/core/src/scheduler.rs:243-247 | a timer that has run out goes on exactly if its token is unset |
| `SchedulerSteps.CommitMeans` | crates/core/src/scheduler.rs:249-255 | a commit clears whatever timer is stored and executes the trigger |
| `SchedulerSteps.CancelMeans` | crates/core/src/scheduler.rs:225-228 | a restart cancels the older instances in order and executes behind the last |
| `SchedulerSteps.CompletionMeans` | crates/core/src/scheduler.rs:303-335 | a completion records the work, forgets set tokens, and goes on with the queue's head or leaves one fewer running |
| `SchedulerRuns.RunningCountsLoops` | crates/core/src/scheduler.rs:170-276 | under any mix of policies and any interleaving, `running` is the number of execute loops in flight, and a queue that is not empty has one |
| `SchedulerRuns.DecrementNeverSaturates` | crates/core/src/scheduler.rs:313 | the saturating decrement never meets zero |
| `SchedulerRuns.DrainsExactly` | crates/core/src/scheduler.rs:303-335 | each completion lowers running plus queued by one: that many completions make the macro idle, and no fewer |
| `SchedulerRuns.OutstandingWorkCanStep` | crates/core/src/scheduler.rs:303-335 | while work is outstanding some task can step without new triggers and without the clock |
| `SchedulerConservation.WorkIsConserved` | crates/core/src/scheduler.rs:170-335 | under any mix of policies a trigger that was started, queued or committed is in exactly one place, once: completed, in the hands of one task, or queued; any other is nowhere |
| `SchedulerConservation.IdleMeansDone` | crates/core/src/scheduler.rs:303-335 | when the macro is idle, the completed triggers are exactly those, each once |
| `SchedulerQueue.QueueIsFifo` | crates/core/src/scheduler.rs:194-214 | at most one runs, the queue stays within its bound, and completed, running and queued work is the accepted triggers in lock order |
| `SchedulerQueue.QueueDropsOnlyWhenFull` | crates/core/src/scheduler.rs:200-208 | a trigger starts exactly when nothing is unfinished and is dropped exactly when one runs and the queue is full |
| `SchedulerQueue.DropIsQueueWithoutRoom` | crates/core/src/scheduler.rs:177-192 | a run under `DropIfRunning` is step for step a run under a queue without room |
| `SchedulerRestart.RestartKeepsOnlyTheLatest` | crates/core/src/scheduler.rs:216-229 | at most one live instance is neither cancelled nor about to be; it is the last to have taken the lock, and one token at most is held |
| `SchedulerRestart.OlderInstancesAreCancelled` | crates/core/src/scheduler.rs:225-227 | once no cancel call is pending, every live instance but the latest is cancelled |
| `SchedulerDebounce.DebounceDecides` | crates/core/src/scheduler.rs:231-256 | a timer check fails exactly when the next section that overwrote the stored token was a later trigger's |
| `SchedulerDebounce.RulesDifferForOrphans` | crates/core/src/scheduler.rs:245-254 | that rule and the documented one differ exactly for timers whose token a commit has overwritten before a later trigger |
| `SchedulerDebounce.DebounceRuleFailsExactlyForOrphans` | crates/core/src/scheduler.rs:245-254 | so a decision breaks the documented rule exactly for such a trigger |
| `SchedulerDebounce.DebounceRace` | crates/core/src/scheduler.rs:245-254 | a run in which a trigger executes though a later one took the lock before its check |
| `SchedulerDebounce.DebounceRunsOnlyTheLast` | crates/core/src/scheduler.rs:231-256 | with check and commit uninterrupted, one uncancelled timer at most sleeps, the stored one, and a trigger executes exactly when no later one took the lock |
| `SchedulerThrottle.ThrottleRateBound` | crates/core/src/scheduler.rs:258-276 | starts are at least `ms` apart, and a window of W holds at most W / ms + 1 |
| `SchedulerThrottle.ThrottleIsMaximal` | crates/core/src/scheduler.rs:258-276 | no other choice of triggers with the same distance starts more |
| `ConstraintEditor.FlattenConstraintRec` | crates/app/src/tree_model.rs:42-92 | appends exactly the rows of the tree |
| `ConstraintEditor.UpdateConstraintLeaf` | crates/app/src/tree_model.rs:174-184 | the update at a row, or the same tree when the text does not parse |
| `ConstraintEditor.ReplaceLeafRec` | crates/app/src/tree_model.rs:186-225 | the walk with a running counter updates the row relative to its start, says whether that row shows a leaf, and advances by the subtree's size |
| `ConstraintEditor.DeleteConstraintAt` | crates/app/src/tree_model.rs:232-235 | the collapse of what is left when the subtree of a row is erased |
| `ConstraintEditor.DeleteConstraintRec` | crates/app/src/tree_model.rs:237-272 | result, found flag and counter of the delete walk |
| `ConstraintEditor.DeleteGroupChildren` | crates/app/src/tree_model.rs:274-289 | the children that survive, in order, and whether one of their rows was hit |
| `ConstraintEditor.SkipCount` | crates/app/src/tree_model.rs:308-321 | advances the counter by the subtree's size less one |
| `ConstraintEditor.WrapConstraintAt` | crates/app/src/tree_model.rs:880-884 | wraps the node of a row, by default the root |
| `ConstraintEditor.WrapConstraintRec` | crates/app/src/tree_model.rs:830-856 | the wrap walk, whose counter stops where the node is found |
| `ConstraintEditor.WrapConstraintChildren` | crates/app/src/tree_model.rs:858-876 | children behind the hit are kept as they are |
| `ConstraintEditor.MoveConstraintNode` | crates/app/src/tree_model.rs:963-966 | swaps the node of a row with the sibling before or behind it |
| `ConstraintEditor.TryMoveConstraint` | crates/app/src/tree_model.rs:939-960 | the move relative to a start row; found exactly if the row is a child of a group |
| `ConstraintEditor.MoveConstraintChildren` | crates/app/src/tree_model.rs:898-937 | finds the child by summed sizes, swaps it, or descends into the child that holds the row, and reports whether it found it |
| `ConstraintEditor.AddConstraintLeaf` | crates/app/src/tree_model.rs:158-169 | replaces `Always`, joins an AND, or is ANDed to the rest |
| `ConstraintRows.NodeOwnsRows` | crates/app/src/tree_model.rs:36-92 | the subtree at row `k` owns the rows from `k` on, as many as its size, and they are its own rows |
| `ConstraintRows.RowShowsNode` | crates/app/src/tree_model.rs:42-92 | a row shows the kind of the node that stands there, and a leaf's configuration |
| `ConstraintRows.UpdateChangesOneRow` | crates/app/src/tree_model.rs:171-225 | an update replaces row `k` alone when it shows a leaf and is the identity at any other row number |
| `ConstraintRows.WrapInsertsOneRow` | crates/app/src/tree_model.rs:809-884 | a wrap puts one row above the subtree's rows and indents them; a group of that kind stays |
| `ConstraintShape.WrapPutsAbove` | crates/app/src/tree_model.rs:809-884 | what stands at the row afterwards: an AND or OR over the old node, unless it was one, or its negation |
| `ConstraintShape.AddAppendsRow` | crates/app/src/tree_model.rs:154-169 | an added leaf shows last: alone, in an AND at the root, or under a new AND |
| `ConstraintShape.CollapseKeepsLeaves` | crates/app/src/tree_model.rs:291-305 | the simplification of a delete drops no leaf and keeps their order |
| `ConstraintRows.EraseRemovesRows` | crates/app/src/tree_model.rs:227-272 | erasing removes exactly the subtree's rows; a negation that loses its operand becomes one `Always` row |
| `ConstraintMoves.MoveWithoutSibling` | crates/app/src/tree_model.rs:911-923 | without a sibling on that side the tree stays as it is |
| `ConstraintMoves.SiblingOfChild` | crates/app/src/tree_model.rs:898-925 | which siblings those are: the members of the group right before and behind |
| `ConstraintMoves.MoveUpThenDown` | crates/app/src/tree_model.rs:888-966 | up and then, from the new row, down restores the tree |
| `ConstraintMoves.MoveDownThenUp` | crates/app/src/tree_model.rs:888-966 | down and then up restores it as well |
| `ConstraintMoves.MoveExchangesRows` | crates/app/src/tree_model.rs:898-966 | a move exchanges exactly two adjacent blocks of rows |
| `ConstraintMeaning.Evaluate` | crates/core/src/domain.rs:334-360 | the early-returning loops compute left-to-right conjunction and disjunction that stop at the first error or deciding value |
| `ConstraintTruth.EvalIsTruth` | crates/core/src/domain.rs:334-360 | a tree none of whose leaves errs evaluates to its truth value, with NOT, AND and OR as in logic |
| `ConstraintTruth.FirstError` | crates/core/src/domain.rs:343-357 | a group errs exactly with its first error that no member before decides |
| `ConstraintTruth.DeMorgan` | crates/core/src/domain.rs:334-360 | De Morgan's laws and double negation, errors included |
| `ConstraintMeaning.WrapKeepsMeaning` | crates/app/src/tree_model.rs:809-884 | wrapping any node of any tree in AND or OR changes no verdict and no error |
| `ConstraintMeaning.AddLeafIsConjunction` | crates/app/src/tree_model.rs:154-169 | adding a leaf to any tree means the old tree AND the leaf, errors included |
| `ConstraintMeaning.CollapseMeaning` | crates/app/src/tree_model.rs:291-305 | a collapsed tree means the tree with every empty OR read as true |
| `ConstraintMeaning.DeleteMeaning` | crates/app/src/tree_model.rs:232-305 | what a delete leaves means the erased tree, so read |
| `ConstraintMeaning.MissedDeleteChangesEmptyAny` | crates/app/src/tree_model.rs:299-305 | a delete that hits nothing turns an empty OR from false into true |
| `ConstraintMeaning.CollapseNormalises` | crates/app/src/tree_model.rs:227-305 | after a delete every group has two members at least; a tree like that is left alone |
| `ConstraintMeaning.MissedDeleteKeepsMeaning` | crates/app/src/tree_model.rs:232-305 | on any tree without an empty OR a delete that hits nothing changes no verdict and no error |
| `ConstraintDeleteMeaning.EmptyOrShowsExactly` | crates/core/src/domain.rs:334-360 | exactly when reading every empty OR as true changes a tree's verdict: one shows along the path to the root |
| `ConstraintDeleteMeaning.DeleteChangesMeaningExactly` | crates/app/src/tree_model.rs:232-305 | the simplification of a delete changes what is left of the tree, or the whole tree if it hits nothing, exactly then |
| `ConstraintMoveMeaning.SwapShowsExactly` | crates/core/src/domain.rs:340-357 | exchanging two neighbours changes a group's verdict exactly if no earlier member decides it, both of them do, and differently; one of them errs then |
| `ConstraintMoveMeaning.ReachesExactly` | crates/core/src/domain.rs:334-360 | exactly when two verdicts of a subtree give the whole tree different verdicts: no group on the way is decided before, or goes on to the same end |
| `ConstraintMoveMeaning.MoveTrades` | crates/app/src/tree_model.rs:892-966 | a move exchanges two neighbours of the group that holds the node, or changes nothing |
| `ConstraintMoveMeaning.MoveChangesMeaningExactly` | crates/app/src/tree_model.rs:898-966 | a move changes what the tree means exactly if the exchange shows in its group and reaches the root |
| `ConstraintMoveMeaning.MoveKeepsMeaning` | crates/app/src/tree_model.rs:898-966 | a move keeps the meaning when neither of the two nodes it exchanges errs |
| `ConstraintMoveMeaning.MoveCanExposeAnError` | crates/app/src/tree_model.rs:898-966 | with an erring leaf a move can turn a verdict into an error |
| `ConstraintMeaning.ReachedHasNoEmptyGroup` | crates/app/src/tree_model.rs:158-305 | no sequence of edits on a new macro produces an empty group |
| `ConstraintMeaning.MissedDeleteKeepsReachedMeaning` | crates/app/src/tree_model.rs:232-305 | on such trees a delete that hits nothing changes no verdict and no error |
| `WorkflowEditor.FlattenWorkflowRec` | crates/app/src/tree_model.rs:350-467 | appends exactly the rows of the tree, labels of branches included |
| `WorkflowEditor.UpdateWorkflowAction` | crates/app/src/tree_model.rs:605-611 | the update at the row the walk reaches, or the same tree when the text does not parse |
| `WorkflowEditor.ReplaceActionRec` | crates/app/src/tree_model.rs:613-669 | the walk updates the row on screen that its counter really names and advances by the rows it counts; found exactly if an action stands there outside every else-branch, whose reports it drops |
| `WorkflowEditor.ReplaceChildren` | crates/app/src/tree_model.rs:671-685 | the loop over the children of a list; found if any child reports it |
| `WorkflowEditor.DeleteWorkflowAt` | crates/app/src/tree_model.rs:688-691 | the collapse of what is left when the subtree at the row reached is erased |
| `WorkflowEditor.DeleteWorkflowRec` | crates/app/src/tree_model.rs:693-761 | the delete walk; once past the target its counter stays past it; found exactly if a node stands at the row reached, outside every else-branch |
| `WorkflowEditor.DeleteWorkflowChildren` | crates/app/src/tree_model.rs:763-778 | the children that survive, in order, and whether any child reports the target |
| `WorkflowEditor.SkipWorkflowCount` | crates/app/src/tree_model.rs:780-805 | advances the counter by the subtree's size less one, bodies of `ForEach` included |
| `WorkflowEditor.MoveWorkflowNode` | crates/app/src/tree_model.rs:1091-1094 | swaps the node of a row with a sibling in its sequence or parallel block |
| `WorkflowEditor.TryMoveInSeq` | crates/app/src/tree_model.rs:1029-1088 | the move relative to a start row, through every kind of node; found exactly if the row is a child of a list |
| `WorkflowEditor.MoveInChildren` | crates/app/src/tree_model.rs:988-1027 | finds the child by summed sizes, swaps it, or descends, and reports whether it found it |
| `WorkflowEditor.AddWorkflowAction` | crates/app/src/tree_model.rs:562-571 | appends an action |
| `WorkflowEditor.AddWorkflowIf` | crates/app/src/tree_model.rs:574-587 | appends an empty conditional |
| `WorkflowEditor.AddWorkflowParallel` | crates/app/src/tree_model.rs:590-602 | appends two empty parallel branches |
| `WorkflowEdits.NodeOwnsRows` | crates/app/src/tree_model.rs:344-467 | a row that is no label starts the rows of the node that stands there |
| `WorkflowEdits.RowShowsNode` | crates/app/src/tree_model.rs:350-467 | a row that is no label shows its node's kind and all it holds besides subtrees |
| `WorkflowEdits.ConditionalRows` | crates/app/src/tree_model.rs:350-467 | a conditional shows its branches under labels, one level further in |
| `WorkflowEdits.UpdateChangesOneRow` | crates/app/src/tree_model.rs:605-685 | an update at a row changes that row alone when it shows an action and nothing at any other row number |
| `WorkflowEdits.EraseRemovesRows` | crates/app/src/tree_model.rs:693-761 | erasing removes exactly the subtree's rows; a lost body leaves an empty sequence, a lost else-branch takes its label along |
| `WorkflowEdits.LabelsAreKept` | crates/app/src/tree_model.rs:632-650 | a then or else label is no node: erasing, updating and moving it leave the tree as it is, and a delete there is the bare simplification of the tree |
| `WorkflowEdits.AddAppendsRows` | crates/app/src/tree_model.rs:560-602 | an added node shows last, under the old sequence or under a new one |
| `WorkflowEdits.MoveWithoutSibling` | crates/app/src/tree_model.rs:1001-1013 | without a sibling on that side the tree stays as it is |
| `WorkflowEdits.SiblingOfChild` | crates/app/src/tree_model.rs:988-1013 | which siblings those are: the children of the sequence or parallel block right before and behind |
| `WorkflowEdits.MoveUpThenDown` | crates/app/src/tree_model.rs:970-1094 | up and then down restores the tree, with and without `ForEach` |
| `WorkflowEdits.MoveDownThenUp` | crates/app/src/tree_model.rs:970-1094 | down and then up restores it as well |
| `WorkflowEdits.MoveExchangesRows` | crates/app/src/tree_model.rs:988-1094 | a move exchanges exactly two adjacent blocks of rows; labels never move |
| `WorkflowActions.CollapseKeepsActions` | crates/app/src/tree_model.rs:707-761 | the simplification that comes with a delete drops no action and keeps their order |
| `WorkflowActions.CollapseNormalises` | crates/app/src/tree_model.rs:707-761 | it leaves no sequence of one child outside loops over items, and changes nothing else |
| `WorkflowActions.DeleteRemovesShownActions` | crates/app/src/tree_model.rs:688-761 | a delete removes the actions that the erased rows show; all others stay, in order |
| `WorkflowNumbering.NumbersAgree` | crates/app/src/tree_model.rs:613-761 | update and delete reach the chosen row exactly when no `ForEach` row stands above it, and otherwise a row further down |
| `WorkflowCounting.WalksCountRowsOutsideLoops` | crates/app/src/tree_model.rs:613-761 | what they number `p` is the row outside bodies of `ForEach` with `p` such rows before it |
| `WorkflowNumbering.UpdateIsRight` | crates/app/src/tree_model.rs:605-669 | an update of an action does what the screen says exactly when no `ForEach` row stands above |
| `WorkflowNumbering.DeleteCanMiss` | crates/app/src/tree_model.rs:693-761 | a tree in which deleting the row of a loop's body leaves the loop with its body and takes the node behind it |
| `Router.EventRouter.RegisterMacro` | crates/core/src/router.rs:72-77 | pushes the id once per trigger and stores the macro |
| `Router.EventRouter.RemoveMacro` | crates/core/src/router.rs:92-99 | removes the macro and its id from the buckets of its triggers |
| `Router.EventRouter.Enable` | crates/core/src/router.rs:132-136 | sets the flag and touches nothing else |
| `Router.EventRouter.Handle` | crates/core/src/engine_loop.rs:171-183 | the four commands that change the router |
| `Router.EventRouter.Evaluated` | crates/core/src/router.rs:214-244 | the loop over candidates: errors in bucket order, and the ids that fire |
| `Router.EventRouter.DispatchScheduled` | crates/core/src/router.rs:200-271 | errors first, then one announcement per firing entry, with its name, scheduled in descending priority |
| `Router.DispatchMeans` | crates/core/src/router.rs:200-271 | after any history and with the shipped specs: a macro is scheduled exactly if it is registered, enabled, matched by a trigger and its constraints hold, and reported exactly if they err |
| `Router.RegistrationMeans` | crates/core/src/engine_loop.rs:171-180 | adding, updating and deleting change the macro of one id and no other |
| `Router.SetEnabledMeans` | crates/core/src/router.rs:132-136 | the flag is what was asked for; other fields, macros and buckets stay |
| `Router.DisabledIsQuiet` | crates/core/src/router.rs:132-136 | a macro switched off is neither scheduled nor reported until it is switched on or registered anew |
| `Router.FiledWhereItFits` | crates/core/src/router.rs:463-473 | the index files a trigger under the kind of event it is written for |
| `Triggers.SpecsKeepTheirKind` | crates/hooks/src/trigger_spec.rs:46-193 | the shipped specs match events of their own kind only |
| `Triggers.ModifiersMatchAsSets` | crates/hooks/src/trigger_spec.rs:75-81 | a combination without repeats matches exactly its modifiers, in any order and case |
| `Triggers.RepeatedModifierMatchesMore` | crates/hooks/src/trigger_spec.rs:75-81 | one with a repeated modifier also matches others |
| `Router.SortByPriority` | crates/core/src/router.rs:247 | a permutation in descending priority |
| `Router.IndexAgreesWithScan` | crates/core/src/router.rs:200-271 | after any history of commands the indexed dispatch fires and reports exactly what a scan over all macros does |
| `Router.AddKeepsCountsWhenNew` | crates/core/src/router.rs:72-77 | adding keeps one index entry per trigger exactly when the id is new, or was registered without triggers |
| `Router.FiresOncePerTrigger` | crates/core/src/router.rs:72-99 | when ids are only added while unregistered, a firing macro fires once per trigger of the event's kind |
| `Router.TwoHotkeysFireTwice` | crates/core/src/router.rs:73-75 | two triggers of one kind fire the macro twice |
| `Router.ReAddedFiresTwice` | crates/core/src/router.rs:73-76 | so does adding a macro twice |
| `Reload.Reloaded` | crates/app/src/watcher.rs:53-70 | the commands of a reload: updates and additions in list order, deletes in any order |
| `Reload.ReloadConverges` | crates/app/src/watcher.rs:53-70 | replaying them leaves the macros of the new list, whatever it holds, exactly when the router knew no others |
| `Reload.ReloadConvergesIndex` | crates/core/src/engine_loop.rs:171-180 | with unique ids the buckets, too, are those of a fresh start, up to order |
| `Reload.ReloadsConverge` | crates/app/src/watcher.rs:53-70 | so it stays over any number of reloads |
| `Permissions.AddActionPerms` | crates/core/src/permission.rs:266-288 | appends what an action needs, without repeating an entry |
| `Permissions.NeedsAreAsked` | crates/core/src/permission.rs:266-288 | for every shipped action, exactly what its own code asks for |
| `Permissions.CollectWorkflowPerms` | crates/core/src/permission.rs:244-262 | appends only, brings in no duplicate and adds exactly what the tree's actions need |
| `Permissions.AggregateFromWorkflow` | crates/core/src/permission.rs:237-241 | exactly the union over the tree, without duplicates |
| `Permissions.AggregateFromConfigs` | crates/core/src/permission.rs:204-210 | exactly the union over a list, without duplicates |
| `Permissions.FlatListSuffices` | crates/core/src/domain.rs:644-655 | for a macro without a workflow the flat list names every action of the tree that runs |
| `InterpreterMeaning.FlatListRunsInOrder` | crates/core/src/domain.rs:644-655 | it starts that list's actions in order: the first few, and all if it continues to the end |
| `InterpreterLoops.ExecContext.DoNode` | crates/core/src/workflow.rs:125-305 | the recursive interpreter over one context, its entry check included, does what the function says |
| `InterpreterLoops.ExecContext.DoAction` | crates/core/src/workflow.rs:331-382 | build, dry run, permission gate, locks, execution, in this order |
| `InterpreterLoops.ExecContext.DoSeq` | crates/core/src/workflow.rs:139-150 | halts at the first child that does not continue and keeps the events so far |
| `InterpreterLoops.ExecContext.DoParallel` | crates/core/src/workflow.rs:152-174 | joins forked branches: worst flow, all events, the parent's locals, and the token if any branch set it or found it set |
| `InterpreterLoops.ExecContext.DoIf` | crates/core/src/workflow.rs:176-201 | runs the branch the condition chooses, or fails with it |
| `InterpreterLoops.ExecContext.DoWhile` | crates/core/src/workflow.rs:203-231 | token, condition and bound are looked at before every round |
| `InterpreterLoops.ExecContext.DoForEach` | crates/core/src/workflow.rs:233-252 | binds each item of a list and runs the body |
| `InterpreterLoops.ExecContext.DoRetry` | crates/core/src/workflow.rs:254-275 | tries at least once, sleeps between attempts, repeats failures only |
| `InterpreterLoops.ExecContext.DoTimeout` | crates/core/src/workflow.rs:277-293 | passes the body's result on, or drops it, sets the shared token and fails |
| `InterpreterLoops.ExecContext.Fork` | crates/core/src/context.rs:225-237 | copies the locals into a new context, which shares the token as this one knows it |
| `InterpreterMeaning.StoppedNodeDoesNothing` | crates/core/src/workflow.rs:132-134 | a node entered with the token set does nothing and stops |
| `InterpreterMeaning.ActionMeans` | crates/core/src/workflow.rs:331-382 | an action that cannot be built fails, is logged in a dry run, fails with the first missing permission, or starts once and ends as its outcome says |
| `InterpreterMeaning.IfMeans` | crates/core/src/workflow.rs:176-201 | does what the branch of its condition does, nothing without one, and fails without a start if the condition errs |
| `InterpreterMeaning.SeqMeans` | crates/core/src/workflow.rs:139-150 | runs its children in order, each where the one before left off, up to the first that does not continue |
| `InterpreterMeaning.WhileMeans` | crates/core/src/workflow.rs:203-231 | each round follows an unset token and a condition that holds; when it ends, and how |
| `InterpreterMeaning.ForEachMeans` | crates/core/src/workflow.rs:233-252 | round `i` runs with item `i` bound, in order, up to a round that does not continue or a set token |
| `InterpreterMeaning.ParallelMeans` | crates/core/src/workflow.rs:152-174 | runs every child once as a branch from the parent's locals; worst flow, all events and starts |
| `InterpreterMeaning.TimeoutMeans` | crates/core/src/workflow.rs:277-293 | does as its body, or fails, loses the body's events, keeps its starts and sets the token |
| `InterpreterMeaning.WaitMeans` | crates/core/src/workflow.rs:296-303 | starts nothing and continues, unless a timeout ends meanwhile |
| `InterpreterSafety.StartsAreAllowed` | crates/core/src/workflow.rs:342-363 | in every run an action starts only with all its permissions, outside dry runs, right after its node's entry check found the token unset |
| `InterpreterSafety.StartsAreBounded` | crates/core/src/workflow.rs:203-275 | every run ends and starts at most the tree's cost in actions, a dry run none |
| `InterpreterSafety.OnlyActionsWrite` | crates/core/src/workflow.rs:331-382 | the store is what the started actions make of it, in order; a dry run leaves it as it was |
| `InterpreterSafety.FailureHasError` | crates/core/src/workflow.rs:108-115 | a failed run carries an error event, and where no failed body is tried again a run that carries one has failed |
| `InterpreterSafety.AggregateNeverDenies` | crates/core/src/workflow.rs:354-363 | with the permissions aggregated from the tree itself no action is ever denied |
| `InterpreterSafety.ShippedActionsAreGranted` | crates/core/src/workflow.rs:354-363 | so the actions that ship are never denied under their workflow's own aggregate |
| `InterpreterSafety.ParallelTakesWorst` | crates/core/src/workflow.rs:152-174 | failed if any branch fails, stopped if none fails and any stops; the parent's locals stay |
| `InterpreterCancel.TokenIsHeeded` | crates/core/src/workflow.rs:125-174 | whatever the answers: behind a mark that the token was set or found set, no check finds it unset and no action starts, in the same task, its later branches or after the join |
| `InterpreterCancel.TokenIsKept` | crates/core/src/context.rs:225-237 | at its end a task knows that the token is set exactly if it knew before, or it or a branch of its own set it or found it set |
| `InterpreterCancel.NothingStartsOnceCancelled` | crates/core/src/workflow.rs:132-134 | in any branch: an action starts only if its node was entered before the token was set, by a timeout in any branch or from outside, as by a restart |
| `InterpreterCancel.AtMostOneStartPerBranch` | crates/core/src/workflow.rs:125-174 | any two actions that start after the token was set, by a timeout or from outside, do so in branches forked together |
| `InterpreterCancel.SequentialRunsAreShared` | crates/core/src/context.rs:225-237 | in runs with no two branches forked together, the order of the steps is such a clock, whether someone outside sets the token or nobody does |
| `InterpreterCancel.SiblingStops` | crates/core/src/workflow.rs:152-174 | a run in which a timeout in one branch keeps the other from its action |
| `InterpreterRetry.RetryRepeatsExactly` | crates/core/src/workflow.rs:254-275 | at every depth: an attempt is followed by another exactly if it failed, attempts are left, no timeout ends the pause and the next check finds the token unset; flow, events and started actions are those of the attempts |
| `InterpreterRetry.AttemptsAreUsedUp` | crates/core/src/workflow.rs:254-275 | at most `times` attempts, one at least; fewer only by success, a timeout or the token |
| `InterpreterRetry.TimeoutEndsRetry` | crates/core/src/workflow.rs:254-293 | an attempt in which a timeout ended is the last; if it failed with attempts left, the retry stops or is dropped |
| `InterpreterRetry.TimeoutIsNotRetried` | crates/core/src/workflow.rs:254-293 | a run in which a retry of several attempts makes one, since it times out |
| `InterpreterRetry.RetryHidesFailure` | crates/core/src/workflow.rs:254-275 | a run with a retry that carries an error and succeeds |
| `InterpreterAlike.SameRunsAlike` | crates/core/src/workflow.rs:126-150 | trees that differ only in sequences of one node can do the same: for all answers to the one, the other, given the same answers in the same order, has the same flow, events, locals, store, token and started actions |
| `InterpreterAlike.CollapseRunsAlike` | crates/app/src/tree_model.rs:707-761 | so the simplification that comes with a delete keeps what a workflow does, and brings in nothing |
| `InterpreterAlike.TokenStaysSet` | crates/core/src/context.rs:225-237 | such an order of answers keeps a token set that was set before |
| `Locks.ResourcePool.GetLock` | crates/core/src/context.rs:47-53 | one mutex per name: the same at every request, shared by no other name |
| `Locks.MutualExclusion` | crates/core/src/workflow.rs:365-380 | in every interleaving no two actions that name one resource execute at once |
| `Locks.LocksAreTakenInOrder` | crates/core/src/workflow.rs:365-380 | a waiting task holds exactly the first of its locks, an executing one all, any other none |
| `Locks.DeadlockFree` | crates/core/src/workflow.rs:365-380 | with lists that follow one order without repeats, some unfinished task can always step |
| `Locks.OppositeOrdersDeadlock` | crates/core/src/workflow.rs:368-373 | two tasks with opposite orders can block each other for good |
| `Locks.RepeatDeadlocks` | crates/core/src/workflow.rs:368-373 | a list with a repeat blocks its own task |
| `Locks.GivingUpUnblocks` | crates/core/src/workflow.rs:365-380 | in every reachable state, a task that is dropped unblocks exactly the tasks that wait for a lock it had taken |
| `Locks.GivingUpEndsDeadlock` | crates/core/src/workflow.rs:365-380 | dropping either of two deadlocked tasks lets the other step |

## Left out

- SchedulerRuns.OutstandingWorkCanStep: progress is that a step is enabled and that completions are counted; that the runtime eventually takes the step is not modelled.
- SchedulerQueue.QueueIsFifo: like the results for the other policies it is for one fixed policy per macro; an update of the macro can change its policy in between.
- WorkflowNumbering.DeleteCanMiss: below a `ForEach` a delete is not wrong for every tree, since two equal neighbours may trade roles; exact is the row that is reached, which `WalksCountRowsOutsideLoops` gives.
- InterpreterSafety.OnlyActionsWrite: effects of parallel branches are applied one branch after another, and what other tasks write meanwhile shows in the answers only; so do the values that conditions read.
- InterpreterLoops.ExecContext.DoParallel: branches run one after another here; what they see of each other meanwhile is in the answers, which are arbitrary, and which of them fit a shared token is said by a clock in the results of `InterpreterCancel`.
- InterpreterLoops.ExecContext.Fork: hands on what its context knows of the token; that siblings share one flag from then on is said by the clock as well.
- InterpreterCancel.NothingStartsOnceCancelled: the clock gives an instant to each step, and a check sees all that was written before it; weaker memory orders are not modelled.
- Router.IndexAgreesWithScan: leaves of constraints give the same answers throughout one dispatch; a workflow that writes to the store meanwhile is not modelled.
- Locks.DeadlockFree: the lists of resources are those that actions declare; no built-in action declares more than the default empty list.
- Row summaries, JSON text, default configurations and `is_container`: presentation. Parsing the edited JSON is an optional parsed configuration.
- Inline dispatch, manual triggers and dry runs through the router: they use the same matching and the same interpreter, with a lock pool of their own, so the lock results do not reach across them.
- The map from macro ids to scheduler states: macros do not share state, so the runs are those of one macro.
- Triggers.SpecsKeepTheirKind: lower-casing and comparing keys are parameters; schedules, file changes and custom triggers have no spec here and match nothing.
- Permissions.NeedsAreAsked: HTTP requests and custom actions have no action here whose code could ask.
- Panics of actions and the integer width of `running`.
- Hooks, UI automation, scripts, process spawning, the file watcher's events and file access: foreign calls.
