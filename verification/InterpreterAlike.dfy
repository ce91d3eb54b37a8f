// Workflows that run alike: a sequence of one node, wherever it stands, does what the node does.
module InterpreterAlike {
  import opened Domain
  import opened Interpreter
  import opened InterpreterSafety
  import WorkflowTree

  type Answers = nat -> Answer

  function With(s: Setup, f: Answers): Setup {
    s.(answer := f)
  }

  /// A run depends only on the answers to its own steps

  ghost predicate Agree(f: Answers, g: Answers, from: nat, to: nat) {
    forall k: nat :: from <= k < to ==> f(k) == g(k)
  }

  /** `r` comes from steps numbered `from` and on, and `r'` is the same if its answers are. */
  ghost predicate Local(s: Setup, from: nat, r: Run, g: Answers, r': Run) {
    from <= r.after.next && (Agree(s.answer, g, from, r.after.next) ==> r' == r)
  }

  lemma CheckLocal(s: Setup, t: Task, g: Answers)
    ensures Check(s, t).after.next == t.next + 1
    ensures s.answer(t.next) == g(t.next) ==> Check(With(s, g), t) == Check(s, t)
  {
  }

  lemma ActionLocal(s: Setup, a: ActionConfig, t: Task, depth: nat, g: Answers)
    ensures Local(s, t.next, RunAction(s, a, t, depth), g, RunAction(With(s, g), a, t, depth))
  {
    var r := RunAction(s, a, t, depth);
    if Agree(s.answer, g, t.next, r.after.next) {
      assert r.after.next > t.next ==> g(t.next) == s.answer(t.next);
      assert r.after.next > t.next + 1 ==> g(t.next + 1) == s.answer(t.next + 1);
    }
  }

  lemma {:induction false} NodeLocal(s: Setup, n: Node, t: Task, depth: nat, g: Answers)
    ensures Local(s, t.next, RunNode(s, n, t, depth), g, RunNode(With(s, g), n, t, depth))
    ensures t.next < RunNode(s, n, t, depth).after.next
    decreases n
  {
    hide RunAction, RunSeq, RunBranches, RunIf, RunWhile, RunForEach, RunRetry;
    CheckLocal(s, t, g);
    var entry := Check(s, t);
    if entry.flow.Continue? {
      match n
      case Action(a) => ActionLocal(s, a, entry.after, depth, g);
      case Seq(kids) => SeqLocal(s, kids, 0, entry, depth, g);
      case Parallel(kids) => BranchesLocal(s, kids, 0, entry.after, t.next, entry, depth, g);
      case IfElse(_, _, _) => IfLocal(s, n, entry, depth, g);
      case While(_, _, _) => WhileLocal(s, n, 0, entry, depth, g);
      case ForEach(_, _, _) => ForEachLocal(s, n, 0, entry, depth, g);
      case Retry(_, _, _) => RetryLocal(s, n, 0, entry, depth, g);
      case Timeout(b, _) => NodeLocal(s, b, entry.after, depth + 1, g);
      case Wait(_) =>
    }
  }

  lemma {:induction false} SeqLocal(s: Setup, kids: seq<Node>, i: nat, acc: Run, depth: nat, g: Answers)
    requires i <= |kids|
    ensures Local(s, acc.after.next, RunSeq(s, kids, i, acc, depth), g, RunSeq(With(s, g), kids, i, acc, depth))
    decreases kids, |kids| - i
  {
    hide RunNode;
    if i < |kids| {
      var r := acc.Then(RunNode(s, kids[i], acc.after, depth));
      NodeLocal(s, kids[i], acc.after, depth, g);
      if r.flow.Continue? {
        SeqLocal(s, kids, i + 1, r, depth, g);
      }
    }
  }

  lemma {:induction false} BranchesLocal(s: Setup, kids: seq<Node>, i: nat, parent: Task, fork: nat, acc: Run,
                                         depth: nat, g: Answers)
    requires i <= |kids|
    ensures Local(s, acc.after.next, RunBranches(s, kids, i, parent, fork, acc, depth), g,
                  RunBranches(With(s, g), kids, i, parent, fork, acc, depth))
    decreases kids, |kids| - i
  {
    hide RunNode;
    if i < |kids| {
      var t := Forked(parent, fork, i, acc.after);
      NodeLocal(s, kids[i], t, depth, g);
      BranchesLocal(s, kids, i + 1, parent, fork, WithBranch(parent, acc, RunNode(s, kids[i], t, depth)), depth, g);
    }
  }

  lemma {:induction false} IfLocal(s: Setup, n: Node, acc: Run, depth: nat, g: Answers)
    requires n.IfElse?
    ensures Local(s, acc.after.next, RunIf(s, n, acc, depth), g, RunIf(With(s, g), n, acc, depth))
    decreases n, 0
  {
    hide RunNode;
    NodeLocal(s, n.thenNode, acc.after.Later(), depth, g);
    if n.otherwise.Some? {
      NodeLocal(s, n.otherwise.value, acc.after.Later(), depth, g);
    }
  }

  lemma {:induction false} WhileLocal(s: Setup, n: Node, iter: nat, acc: Run, depth: nat, g: Answers)
    requires n.While? && iter <= n.maxIter
    ensures Local(s, acc.after.next, RunWhile(s, n, iter, acc, depth), g, RunWhile(With(s, g), n, iter, acc, depth))
    decreases n, n.maxIter - iter
  {
    hide RunNode;
    if iter < n.maxIter {
      CheckLocal(s, acc.after, g);
      var acc1 := acc.Then(Check(s, acc.after));
      NodeLocal(s, n.body, acc1.after.Later(), depth, g);
      var r := acc1.Then(RunNode(s, n.body, acc1.after.Later(), depth));
      if r.flow.Continue? {
        WhileLocal(s, n, iter + 1, r, depth, g);
      }
    }
  }

  lemma {:induction false} ForEachLocal(s: Setup, n: Node, i: nat, acc: Run, depth: nat, g: Answers)
    requires n.ForEach? && i <= |Items(n.items)|
    ensures Local(s, acc.after.next, RunForEach(s, n, i, acc, depth), g, RunForEach(With(s, g), n, i, acc, depth))
    decreases n, |Items(n.items)| - i
  {
    hide RunNode;
    if i < |Items(n.items)| {
      CheckLocal(s, acc.after, g);
      var acc1 := acc.Then(Check(s, acc.after));
      var t := Bound(acc1.after, n.varName, Items(n.items)[i]);
      NodeLocal(s, n.body, t, depth, g);
      var r := acc1.Then(RunNode(s, n.body, t, depth));
      if r.flow.Continue? {
        ForEachLocal(s, n, i + 1, r, depth, g);
      }
    }
  }

  lemma {:induction false} RetryLocal(s: Setup, n: Node, attempt: nat, acc: Run, depth: nat, g: Answers)
    requires n.Retry? && attempt <= Attempts(n.times)
    ensures Local(s, acc.after.next, RunRetry(s, n, attempt, acc, depth), g,
                  RunRetry(With(s, g), n, attempt, acc, depth))
    decreases n, Attempts(n.times) - attempt
  {
    hide RunNode;
    if attempt < Attempts(n.times) {
      CheckLocal(s, acc.after, g);
      var acc1 := acc.Then(Check(s, acc.after));
      NodeLocal(s, n.body, acc1.after, depth, g);
      var r := acc1.Then(RunNode(s, n.body, acc1.after, depth));
      if r.flow.Failed? {
        if attempt + 1 < Attempts(n.times) && n.backoffMs > 0 {
          RetryLocal(s, n, attempt + 1, r.Ends(Failed, []), depth, g);
        } else {
          RetryLocal(s, n, attempt + 1, r, depth, g);
        }
      }
    }
  }

  /// Trees that differ in sequences of one node

  /** `a` and `b` are the same tree but for sequences of one node. */
  predicate Same(a: Node, b: Node)
    decreases a, b
  {
    || (a.Seq? && |a.kids| == 1 && Same(a.kids[0], b))
    || (b.Seq? && |b.kids| == 1 && Same(a, b.kids[0]))
    || SameRoot(a, b)
  }

  predicate SameRoot(a: Node, b: Node)
    decreases a, b, 0
  {
    match a
    case Action(_) => a == b
    case Wait(_) => a == b
    case Seq(kids) => b.Seq? && SameEach(kids, b.kids)
    case Parallel(kids) => b.Parallel? && SameEach(kids, b.kids)
    case IfElse(c, t, o) =>
      && b.IfElse? && c == b.cond && Same(t, b.thenNode)
      && (if o.Some? then b.otherwise.Some? && Same(o.value, b.otherwise.value) else b.otherwise.None?)
    case While(c, x, max) => b.While? && c == b.cond && max == b.maxIter && Same(x, b.body)
    case ForEach(items, v, x) => b.ForEach? && items == b.items && v == b.varName && Same(x, b.body)
    case Retry(x, times, backoff) => b.Retry? && times == b.times && backoff == b.backoffMs && Same(x, b.body)
    case Timeout(x, ms) => b.Timeout? && ms == b.millis && Same(x, b.body)
  }

  predicate SameEach(xs: seq<Node>, ys: seq<Node>)
    decreases xs, ys, 0
  {
    |xs| == |ys| && forall i :: 0 <= i < |xs| ==> Same(xs[i], ys[i])
  }

  lemma {:induction false} SameItself(n: Node)
    ensures Same(n, n)
  {
    match n
    case Seq(kids) => SameItselfEach(kids);
    case Parallel(kids) => SameItselfEach(kids);
    case IfElse(_, t, o) =>
      SameItself(t);
      if o.Some? {
        SameItself(o.value);
      }
    case While(_, b, _) => SameItself(b);
    case ForEach(_, _, b) => SameItself(b);
    case Retry(b, _, _) => SameItself(b);
    case Timeout(b, _) => SameItself(b);
    case _ =>
  }

  lemma {:induction false} SameItselfEach(kids: seq<Node>)
    ensures SameEach(kids, kids)
  {
    forall i | 0 <= i < |kids|
      ensures Same(kids[i], kids[i])
    {
      SameItself(kids[i]);
    }
  }

  /** Collapsing removes sequences of one node and nothing else. */
  lemma {:induction false} CollapseSame(n: Node)
    ensures Same(n, WorkflowTree.Collapse(n)) && Same(WorkflowTree.Collapse(n), n)
  {
    match n
    case Seq(kids) =>
      CollapseSameEach(kids);
      var kept := WorkflowTree.CollapseEach(kids);
      if |kids| == 1 {
        assert Same(kids[0], kept[0]) && Same(kept[0], kids[0]);
      }
    case Parallel(kids) => CollapseSameEach(kids);
    case IfElse(_, t, o) =>
      CollapseSame(t);
      if o.Some? {
        CollapseSame(o.value);
      }
    case While(_, b, _) => CollapseSame(b);
    case ForEach(_, _, b) => SameItself(n);
    case Retry(b, _, _) => CollapseSame(b);
    case Timeout(b, _) => CollapseSame(b);
    case _ =>
  }

  lemma {:induction false} CollapseSameEach(kids: seq<Node>)
    ensures var kept := WorkflowTree.CollapseEach(kids);
      SameEach(kids, kept) && SameEach(kept, kids)
  {
    forall i | 0 <= i < |kids|
      ensures var x := WorkflowTree.Collapse(kids[i]);
        Same(kids[i], x) && Same(x, kids[i])
    {
      CollapseSame(kids[i]);
    }
  }

  /// Runs that are alike

  /** The tasks stand alike: same locals, same store, same knowledge of the token. */
  predicate Level(t: Task, t': Task) {
    t.locals == t'.locals && t.store == t'.store && t.token == t'.token
  }

  /** The runs differ at most in the numbers of their steps and the checks between them. */
  predicate Alike(r: Run, r': Run) {
    r.flow == r'.flow && r.events == r'.events && Level(r.after, r'.after) && StartedIn(r.trace) == StartedIn(r'.trace)
  }

  lemma ThenAlike(a: Run, a': Run, r: Run, r': Run)
    requires Alike(a, a') && Alike(r, r')
    ensures Alike(a.Then(r), a'.Then(r'))
  {
    StartedBoth(a.trace, r.trace);
    StartedBoth(a'.trace, r'.trace);
  }

  /** For each step of one run, the step of the other whose answer it gets. */
  type Steps = nat -> nat

  /** The surroundings of `s`, answering in the order that `h` gives. */
  function Via(s: Setup, h: Steps): Setup {
    With(s, (k: nat) => s.answer(h(k)))
  }

  function Copied(pre: Steps, k: nat, j: nat): Steps {
    (x: nat) => if x == k then j else pre(x)
  }

  /** `h` is `pre` before step `from`. */
  ghost predicate Extends(pre: Steps, h: Steps, from: nat) {
    forall k: nat :: k < from ==> h(k) == pre(k)
  }

  /** `h` extends `pre` with the steps `from'` to `to'`: they get answers that are given between `from` and `to`, and in
      that order. */
  ghost predicate Piece(pre: Steps, h: Steps, from: nat, from': nat, to: nat, to': nat) {
    && from <= to && from' <= to' && Extends(pre, h, from')
    && (forall k: nat :: from' <= k < to' ==> from <= h(k) < to)
    && (forall k: nat, l: nat :: from' <= k <= l < to' ==> h(k) <= h(l))
  }

  /** The run from `t'` gets its answers in the order of the run from `t`, and is like it. */
  ghost predicate Matched(pre: Steps, h: Steps, t: Task, t': Task, r: Run, r': Run) {
    && Alike(r, r')
    && Extends(pre, h, t'.next) && Piece(pre, h, t.next, t'.next, r.after.next, r'.after.next)
  }

  lemma CopyPiece(pre: Steps, t: Task, t': Task)
    ensures Piece(pre, Copied(pre, t'.next, t.next), t.next, t'.next, t.next + 1, t'.next + 1)
    ensures Extends(pre, Copied(pre, t'.next, t.next), t'.next)
  {
  }

  lemma PieceBoth(pre: Steps, p: Steps, h: Steps, a: nat, a': nat, b: nat, b': nat, c: nat, c': nat)
    requires Piece(pre, p, a, a', b, b') && Piece(p, h, b, b', c, c')
    ensures Piece(pre, h, a, a', c, c') && Extends(pre, h, a')
  {
  }

  lemma PieceNone(p: Steps, a: nat, a': nat)
    ensures Piece(p, p, a, a', a, a') && Extends(p, p, a')
  {
  }

  lemma PieceFrom(pre: Steps, h: Steps, a: nat, a': nat, c: nat, c': nat)
    requires Piece(pre, h, a + 1, a', c, c')
    ensures Piece(pre, h, a, a', c, c')
  {
  }

  lemma ExtendsAt(pre: Steps, h: Steps, from: nat, k: nat)
    requires Extends(pre, h, from) && k < from
    ensures h(k) == pre(k)
  {
  }

  /** A first answer that is given to the next step as well. */
  lemma PieceAgain(pre: Steps, p: Steps, h: Steps, a: nat, a': nat, c: nat, c': nat)
    requires Piece(pre, p, a, a', a + 1, a' + 1) && Piece(p, h, a, a' + 1, c, c') && a < c
    ensures Piece(pre, h, a, a', c, c') && Extends(pre, h, a')
  {
  }

  /** What `s` and its rearrangement have in common. */
  lemma ViaSame(s: Setup, h: Steps)
    ensures Via(s, h).macroId == s.macroId && Via(s, h).store == s.store
    ensures forall k: nat, c: ConstraintExpr :: Condition(Via(s, h), c, k) == Condition(s, c, h(k))
    ensures forall k: nat, depth: nat :: Elapsed(Via(s, h), k, depth) == Elapsed(s, h(k), depth)
  {
  }

  lemma CopiedAt(pre: Steps, k: nat, j: nat)
    ensures Copied(pre, k, j)(k) == j
  {
  }

  /** The same run, if the steps it takes get the same answers. */
  lemma SameSteps(s: Setup, n: Node, t: Task, depth: nat, g: Steps, h: Steps)
    requires Extends(g, h, RunNode(Via(s, g), n, t, depth).after.next)
    ensures RunNode(Via(s, h), n, t, depth) == RunNode(Via(s, g), n, t, depth)
    ensures t.next < RunNode(Via(s, g), n, t, depth).after.next
  {
    hide RunNode;
    NodeLocal(Via(s, g), n, t, depth, Via(s, h).answer);
  }

  /// One induction over both trees

  /** A check that gets the other's answer. */
  lemma CheckAlike(s: Setup, t: Task, t': Task, h: Steps)
    requires Level(t, t') && h(t'.next) == t.next
    ensures Alike(Check(s, t), Check(Via(s, h), t'))
    ensures Check(s, t).after.next == t.next + 1 && Check(Via(s, h), t').after.next == t'.next + 1
    ensures StartedIn(Check(s, t).trace) == [] && Check(s, t).events == []
    ensures Check(s, t).flow.Continue? || Check(s, t).flow.Stop?
  {
    NoStarts(Check(s, t).trace);
    NoStarts(Check(Via(s, h), t').trace);
  }

  lemma CheckThenAlike(s: Setup, acc: Run, acc': Run, h: Steps)
    requires Alike(acc, acc') && h(acc'.after.next) == acc.after.next
    ensures Alike(acc.Then(Check(s, acc.after)), acc'.Then(Check(Via(s, h), acc'.after)))
  {
    CheckAlike(s, acc.after, acc'.after, h);
    ThenAlike(acc, acc', Check(s, acc.after), Check(Via(s, h), acc'.after));
  }

  lemma EndsAlike(a: Run, a': Run, flow: Flow, evs: seq<EngineEvent>)
    requires Alike(a, a')
    ensures Alike(a.Ends(flow, evs), a'.Ends(flow, evs))
  {
    ThenAlike(a, a', Run(flow, evs, a.after.Later(), []), Run(flow, evs, a'.after.Later(), []));
  }

  lemma ActionAlike(s: Setup, a: ActionConfig, t: Task, t': Task, depth: nat, pre: Steps) returns (h: Steps)
    requires Level(t, t')
    ensures Matched(pre, h, t, t', RunAction(s, a, t, depth), RunAction(Via(s, h), a, t', depth))
  {
    hide RunAction, Piece, Extends, Via, With, Copied;
    h := Copied(Copied(pre, t'.next, t.next), t'.next + 1, t.next + 1);
    TwoPieces(pre, t, t', 2);
    ActionSame(s, a, t, t', depth, h);
    TwoPieces(pre, t, t', RunAction(s, a, t, depth).after.next - t.next);
  }

  lemma TwoPieces(pre: Steps, t: Task, t': Task, n: nat)
    requires n <= 2
    ensures var h := Copied(Copied(pre, t'.next, t.next), t'.next + 1, t.next + 1);
      && Extends(pre, h, t'.next) && Piece(pre, h, t.next, t'.next, t.next + n, t'.next + n)
      && h(t'.next) == t.next && h(t'.next + 1) == t.next + 1
  {
  }

  lemma ActionSame(s: Setup, a: ActionConfig, t: Task, t': Task, depth: nat, h: Steps)
    requires Level(t, t') && h(t'.next) == t.next && h(t'.next + 1) == t.next + 1
    ensures var (r, r') := (RunAction(s, a, t, depth), RunAction(Via(s, h), a, t', depth));
      Alike(r, r') && t.next <= r.after.next <= t.next + 2 && r'.after.next - t'.next == r.after.next - t.next
  {
    hide StartedIn, FirstMissing, Execute;
    DeniedNone(t.Now(), t'.Now(), a);
    ExecuteSame(s, a, t.Later(), t'.Later(), depth, h);
  }

  lemma ExecuteSame(s: Setup, a: ActionConfig, t: Task, t': Task, depth: nat, h: Steps)
    requires Level(t, t') && h(t'.next) == t.next
    ensures Alike(Execute(s, a, t, depth), Execute(Via(s, h), a, t', depth))
    ensures Execute(s, a, t, depth).after.next == t.next + 1
    ensures Execute(Via(s, h), a, t', depth).after.next == t'.next + 1
  {
    hide StartedIn;
    OneStarted(t.Now(), t'.Now(), a);
  }

  lemma OneStarted(m: Moment, m': Moment, a: ActionConfig)
    ensures StartedIn([Started(m, a)]) == StartedIn([Started(m', a)])
  {
    assert [Started(m, a)][..0] == [Started(m', a)][..0];
  }

  lemma DeniedNone(m: Moment, m': Moment, a: ActionConfig)
    ensures forall p :: StartedIn([Denied(m, a, p)]) == StartedIn([Denied(m', a, p)])
  {
    forall p
      ensures StartedIn([Denied(m, a, p)]) == StartedIn([Denied(m', a, p)])
    {
      assert [Denied(m, a, p)][..0] == [Denied(m', a, p)][..0];
    }
  }

  /** A sequence of one node is a check and then the node. */
  lemma RunSeqOne(s: Setup, n: Node, t: Task, depth: nat)
    requires n.Seq? && |n.kids| == 1
    ensures var entry := Check(s, t);
      RunNode(s, n, t, depth)
        == if entry.flow.Stop? then entry else entry.Then(RunNode(s, n.kids[0], entry.after, depth))
  {
    var entry := Check(s, t);
    if entry.flow.Continue? {
      var r := entry.Then(RunNode(s, n.kids[0], entry.after, depth));
      assert RunSeq(s, n.kids, 0, entry, depth) == if r.flow.Continue? then RunSeq(s, n.kids, 1, r, depth) else r;
    }
  }

  lemma StopsAtOnce(s: Setup, n: Node, t: Task, depth: nat)
    requires Check(s, t).flow.Stop?
    ensures RunNode(s, n, t, depth) == Check(s, t)
  {
  }

  lemma {:induction false} UnwrapLeft(s: Setup, a: Node, b: Node, t: Task, t': Task, depth: nat, pre: Steps)
    returns (h: Steps)
    requires a.Seq? && |a.kids| == 1 && Same(a.kids[0], b) && Level(t, t')
    ensures Matched(pre, h, t, t', RunNode(s, a, t, depth), RunNode(Via(s, h), b, t', depth))
    decreases a, b, 0
  {
    hide RunNode, StartedIn, Piece, Extends, Via, With, Copied;
    h := Copied(pre, t'.next, t.next);
    CopyPiece(pre, t, t');
    CopiedAt(pre, t'.next, t.next);
    CheckAlike(s, t, t', h);
    var entry := Check(s, t);
    if entry.flow.Stop? {
      StopsAtOnce(s, a, t, depth);
      StopsAtOnce(Via(s, h), b, t', depth);
    } else {
      RunSeqOne(s, a, t, depth);
      h := NodeAlike(s, a.kids[0], b, entry.after, t', depth, pre);
      var r := RunNode(s, a.kids[0], entry.after, depth);
      PieceFrom(pre, h, t.next, t'.next, r.after.next, RunNode(Via(s, h), b, t', depth).after.next);
      StartedBoth(entry.trace, r.trace);
      assert [] + r.events == r.events && [] + StartedIn(r.trace) == StartedIn(r.trace);
    }
  }

  lemma {:induction false} UnwrapRight(s: Setup, a: Node, b: Node, t: Task, t': Task, depth: nat, pre: Steps)
    returns (h: Steps)
    requires b.Seq? && |b.kids| == 1 && Same(a, b.kids[0]) && Level(t, t')
    ensures Matched(pre, h, t, t', RunNode(s, a, t, depth), RunNode(Via(s, h), b, t', depth))
    decreases a, b, 0
  {
    hide RunNode, StartedIn, Piece, Extends, Via, With, Copied;
    var p := Copied(pre, t'.next, t.next);
    CopyPiece(pre, t, t');
    CopiedAt(pre, t'.next, t.next);
    CheckAlike(s, t, t', p);
    var entry' := Check(Via(s, p), t');
    if entry'.flow.Stop? {
      h := p;
      StopsAtOnce(s, a, t, depth);
      StopsAtOnce(Via(s, h), b, t', depth);
    } else {
      h := NodeAlike(s, a, b.kids[0], t, entry'.after, depth, p);
      NodeLocal(s, a, t, depth, s.answer);
      var inner := RunNode(Via(s, h), b.kids[0], entry'.after, depth);
      PieceAgain(pre, p, h, t.next, t'.next, RunNode(s, a, t, depth).after.next, inner.after.next);
      SameCheck(s, p, h, t');
      RunSeqOne(Via(s, h), b, t', depth);
      NoStarts(entry'.trace);
      StartedBoth(entry'.trace, inner.trace);
      assert [] + inner.events == inner.events && [] + StartedIn(inner.trace) == StartedIn(inner.trace);
    }
  }

  /** Whatever a run of `a` does, a run of `b` does with some of the same answers. */
  lemma {:induction false} NodeAlike(s: Setup, a: Node, b: Node, t: Task, t': Task, depth: nat, pre: Steps)
    returns (h: Steps)
    requires Same(a, b) && Level(t, t')
    ensures Matched(pre, h, t, t', RunNode(s, a, t, depth), RunNode(Via(s, h), b, t', depth))
    decreases a, b
  {
    hide RunAction, RunSeq, RunBranches, RunIf, RunWhile, RunForEach, RunRetry, Limited, Elapsed, StartedIn, Check,
         Piece, Extends, Via, With, Copied;
    if !SameRoot(a, b) {
      if a.Seq? && |a.kids| == 1 && Same(a.kids[0], b) {
        h := UnwrapLeft(s, a, b, t, t', depth, pre);
      } else {
        h := UnwrapRight(s, a, b, t, t', depth, pre);
      }
      return;
    }
    var p := Copied(pre, t'.next, t.next);
    CopyPiece(pre, t, t');
    CopiedAt(pre, t'.next, t.next);
    CheckAlike(s, t, t', p);
    var (entry, entry') := (Check(s, t), Check(Via(s, p), t'));
    h := p;
    PieceNone(p, t.next + 1, t'.next + 1);
    if entry.flow.Continue? {
      match a {
        case Action(x) => h := ActionAlike(s, x, entry.after, entry'.after, depth, p);
          ThenAlike(entry, entry', RunAction(s, x, entry.after, depth), RunAction(Via(s, h), x, entry'.after, depth));
        case Seq(kids) => h := SeqAlike(s, kids, b.kids, 0, entry, entry', depth, p);
        case Parallel(kids) =>
          h := BranchesAlike(s, kids, b.kids, 0, entry.after, entry'.after, t.next, t'.next, entry, entry', depth, p);
        case IfElse(_, _, _) => h := IfAlike(s, a, b, entry, entry', depth, p);
        case While(_, _, _) => h := WhileAlike(s, a, b, 0, entry, entry', depth, p);
        case ForEach(_, _, _) => h := ForEachAlike(s, a, b, 0, entry, entry', depth, p);
        case Retry(_, _, _) => h := RetryAlike(s, a, b, 0, entry, entry', depth, p);
        case Timeout(_, _) => h := TimeoutAlike(s, a, b, entry, entry', depth, p);
        case Wait(_) => h := WaitAlike(s, entry, entry', depth, p);
      }
    }
    SameCheck(s, p, h, t');
    assert Piece(p, h, t.next + 1, t'.next + 1,
                 RunNode(s, a, t, depth).after.next, RunNode(Via(s, h), b, t', depth).after.next);
    PieceBoth(pre, p, h, t.next, t'.next, t.next + 1, t'.next + 1,
              RunNode(s, a, t, depth).after.next, RunNode(Via(s, h), b, t', depth).after.next);
  }

  lemma SameCheck(s: Setup, p: Steps, h: Steps, t: Task)
    requires Extends(p, h, t.next + 1)
    ensures Check(Via(s, h), t) == Check(Via(s, p), t)
  {
    hide Via, With, Extends;
    ExtendsAt(p, h, t.next + 1, t.next);
    ViaAt(s, p, t.next);
    ViaAt(s, h, t.next);
  }

  lemma ViaAt(s: Setup, h: Steps, k: nat)
    ensures Via(s, h).answer(k) == s.answer(h(k))
  {
  }

  lemma {:induction false} WaitAlike(s: Setup, acc: Run, acc': Run, depth: nat, pre: Steps) returns (h: Steps)
    requires Alike(acc, acc')
    ensures var (e, e') := (Elapsed(s, acc.after.next, depth), Elapsed(Via(s, h), acc'.after.next, depth));
      Matched(pre, h, acc.after, acc'.after, acc.Ends(if e.Some? then Dropped(e.value) else Continue, []),
              acc'.Ends(if e'.Some? then Dropped(e'.value) else Continue, []))
  {
    h := Copied(pre, acc'.after.next, acc.after.next);
    CopyPiece(pre, acc.after, acc'.after);
    CopiedAt(pre, acc'.after.next, acc.after.next);
    var e := Elapsed(s, acc.after.next, depth);
    EndsAlike(acc, acc', if e.Some? then Dropped(e.value) else Continue, []);
  }

  lemma {:induction false} TimeoutAlike(s: Setup, a: Node, b: Node, acc: Run, acc': Run, depth: nat, pre: Steps)
    returns (h: Steps)
    requires a.Timeout? && SameRoot(a, b) && Alike(acc, acc')
    ensures Matched(pre, h, acc.after, acc'.after,
                    acc.Then(Limited(s, RunNode(s, a.body, acc.after, depth + 1), a.millis)),
                    acc'.Then(Limited(Via(s, h), RunNode(Via(s, h), b.body, acc'.after, depth + 1), b.millis)))
    decreases a, b, 0
  {
    hide RunNode, Limited, StartedIn, Piece, Extends, Via, With, Copied;
    var g := NodeAlike(s, a.body, b.body, acc.after, acc'.after, depth + 1, pre);
    var (r, r') := (RunNode(s, a.body, acc.after, depth + 1), RunNode(Via(s, g), b.body, acc'.after, depth + 1));
    h := g;
    if r.flow == Dropped(0) {
      h := Copied(g, r'.after.next, r.after.next);
      CopyPiece(g, r.after, r'.after);
      SameSteps(s, b.body, acc'.after, depth + 1, g, h);
      PieceBoth(pre, g, h, acc.after.next, acc'.after.next, r.after.next, r'.after.next,
                r.after.next + 1, r'.after.next + 1);
    }
    LimitedAlike(s, h, r, r', a.millis);
    ThenAlike(acc, acc', Limited(s, r, a.millis), Limited(Via(s, h), r', a.millis));
  }

  lemma LimitedAlike(s: Setup, h: Steps, r: Run, r': Run, ms: nat)
    requires Alike(r, r')
    ensures Alike(Limited(s, r, ms), Limited(Via(s, h), r', ms))
    ensures Limited(s, r, ms).after.next == r.after.next + if r.flow == Dropped(0) then 1 else 0
    ensures Limited(Via(s, h), r', ms).after.next == r'.after.next + if r.flow == Dropped(0) then 1 else 0
  {
    hide StartedIn;
    StartedBoth(r.trace, [TokenSet(r.after.Now())]);
    StartedBoth(r'.trace, [TokenSet(r'.after.Now())]);
    NoStarts([TokenSet(r.after.Now())]);
    NoStarts([TokenSet(r'.after.Now())]);
  }

  lemma {:induction false} SeqAlike(s: Setup, xs: seq<Node>, ys: seq<Node>, i: nat, acc: Run, acc': Run, depth: nat,
                                    pre: Steps)
    returns (h: Steps)
    requires i <= |xs| && SameEach(xs, ys) && Alike(acc, acc')
    ensures Matched(pre, h, acc.after, acc'.after, RunSeq(s, xs, i, acc, depth), RunSeq(Via(s, h), ys, i, acc', depth))
    decreases xs, ys, |xs| - i
  {
    hide RunNode, StartedIn, Piece, Extends, Via, With, Copied;
    h := pre;
    PieceNone(pre, acc.after.next, acc'.after.next);
    if i < |xs| {
      h := NodeAlike(s, xs[i], ys[i], acc.after, acc'.after, depth, pre);
      var (r, r') := (RunNode(s, xs[i], acc.after, depth), RunNode(Via(s, h), ys[i], acc'.after, depth));
      ThenAlike(acc, acc', r, r');
      if r.flow.Continue? {
        var g := h;
        h := SeqAlike(s, xs, ys, i + 1, acc.Then(r), acc'.Then(r'), depth, g);
        SameSteps(s, ys[i], acc'.after, depth, g, h);
        PieceBoth(pre, g, h, acc.after.next, acc'.after.next, r.after.next, r'.after.next,
                  RunSeq(s, xs, i, acc, depth).after.next, RunSeq(Via(s, h), ys, i, acc', depth).after.next);
      }
    }
  }

  lemma {:induction false} BranchesAlike(s: Setup, xs: seq<Node>, ys: seq<Node>, i: nat, parent: Task, parent': Task,
                                         fork: nat, fork': nat, acc: Run, acc': Run, depth: nat, pre: Steps)
    returns (h: Steps)
    requires i <= |xs| && SameEach(xs, ys) && Alike(acc, acc') && Level(parent, parent')
    ensures Matched(pre, h, acc.after, acc'.after, RunBranches(s, xs, i, parent, fork, acc, depth),
                    RunBranches(Via(s, h), ys, i, parent', fork', acc', depth))
    decreases xs, ys, |xs| - i
  {
    hide RunNode, StartedIn, Worse, Piece, Extends, Via, With, Copied;
    h := pre;
    PieceNone(pre, acc.after.next, acc'.after.next);
    if i < |xs| {
      var (t, t') := (Forked(parent, fork, i, acc.after), Forked(parent', fork', i, acc'.after));
      h := NodeAlike(s, xs[i], ys[i], t, t', depth, pre);
      var (r, r', g) := (RunNode(s, xs[i], t, depth), RunNode(Via(s, h), ys[i], t', depth), h);
      StartedBoth(acc.trace, r.trace);
      StartedBoth(acc'.trace, r'.trace);
      h := BranchesAlike(s, xs, ys, i + 1, parent, parent', fork, fork', WithBranch(parent, acc, r),
                         WithBranch(parent', acc', r'), depth, g);
      SameSteps(s, ys[i], t', depth, g, h);
      PieceBoth(pre, g, h, t.next, t'.next, r.after.next, r'.after.next,
                RunBranches(s, xs, i, parent, fork, acc, depth).after.next,
                RunBranches(Via(s, h), ys, i, parent', fork', acc', depth).after.next);
    }
  }

  lemma {:induction false} IfAlike(s: Setup, a: Node, b: Node, acc: Run, acc': Run, depth: nat, pre: Steps)
    returns (h: Steps)
    requires a.IfElse? && SameRoot(a, b) && Alike(acc, acc')
    ensures Matched(pre, h, acc.after, acc'.after, RunIf(s, a, acc, depth), RunIf(Via(s, h), b, acc', depth))
    decreases a, b, 0
  {
    hide RunNode, StartedIn, Piece, Extends, Via, With, Copied;
    var p := Copied(pre, acc'.after.next, acc.after.next);
    CopyPiece(pre, acc.after, acc'.after);
    CopiedAt(pre, acc'.after.next, acc.after.next);
    h := p;
    var v := Condition(s, a.cond, acc.after.next);
    var (t, t') := (acc.after.Later(), acc'.after.Later());
    PieceNone(p, t.next, t'.next);
    if v == Holds(true) {
      h := NodeAlike(s, a.thenNode, b.thenNode, t, t', depth, p);
      ThenAlike(acc, acc', RunNode(s, a.thenNode, t, depth), RunNode(Via(s, h), b.thenNode, t', depth));
    } else if v == Holds(false) && a.otherwise.Some? {
      h := NodeAlike(s, a.otherwise.value, b.otherwise.value, t, t', depth, p);
      ThenAlike(acc, acc', RunNode(s, a.otherwise.value, t, depth), RunNode(Via(s, h), b.otherwise.value, t', depth));
    } else if v.Holds? {
      EndsAlike(acc, acc', Continue, []);
    } else {
      EndsAlike(acc, acc', Failed, [Error(s.macroId, ConditionFailed(v.error))]);
    }
    ExtendsAt(p, h, t'.next, acc'.after.next);
    ViaSame(s, h);
    PieceBoth(pre, p, h, acc.after.next, acc'.after.next, t.next, t'.next,
              RunIf(s, a, acc, depth).after.next, RunIf(Via(s, h), b, acc', depth).after.next);
  }

  lemma {:induction false} ForEachAlike(s: Setup, a: Node, b: Node, i: nat, acc: Run, acc': Run, depth: nat, pre: Steps)
    returns (h: Steps)
    requires a.ForEach? && SameRoot(a, b) && i <= |Items(a.items)| && Alike(acc, acc')
    ensures Matched(pre, h, acc.after, acc'.after, RunForEach(s, a, i, acc, depth),
                    RunForEach(Via(s, h), b, i, acc', depth))
    decreases a, b, |Items(a.items)| - i
  {
    hide RunNode, StartedIn, Check, Piece, Extends, Via, With, Copied;
    h := pre;
    PieceNone(pre, acc.after.next, acc'.after.next);
    if i < |Items(a.items)| {
      var p, acc1, acc1' := HeadAlike(s, acc, acc', pre);
      h := p;
      PieceNone(p, acc1.after.next, acc1'.after.next);
      if acc1.flow.Continue? {
        var item := Items(a.items)[i];
        var (t, t') := (Bound(acc1.after, a.varName, item), Bound(acc1'.after, b.varName, item));
        var g := NodeAlike(s, a.body, b.body, t, t', depth, p);
        var (r, r') := (RunNode(s, a.body, t, depth), RunNode(Via(s, g), b.body, t', depth));
        ThenAlike(acc1, acc1', r, r');
        h := g;
        if r.flow.Continue? {
          h := ForEachAlike(s, a, b, i + 1, acc1.Then(r), acc1'.Then(r'), depth, g);
          SameSteps(s, b.body, t', depth, g, h);
          PieceBoth(p, g, h, t.next, t'.next, r.after.next, r'.after.next,
                    RunForEach(s, a, i + 1, acc1.Then(r), depth).after.next,
                    RunForEach(Via(s, h), b, i + 1, acc1'.Then(r'), depth).after.next);
        }
      }
      SameCheck(s, p, h, acc'.after);
      PieceBoth(pre, p, h, acc.after.next, acc'.after.next, acc1.after.next, acc1'.after.next,
                RunForEach(s, a, i, acc, depth).after.next, RunForEach(Via(s, h), b, i, acc', depth).after.next);
    }
  }

  /** The check at the head of a round. */
  lemma HeadAlike(s: Setup, acc: Run, acc': Run, pre: Steps) returns (p: Steps, acc1: Run, acc1': Run)
    requires Alike(acc, acc')
    ensures acc1 == acc.Then(Check(s, acc.after)) && acc1' == acc'.Then(Check(Via(s, p), acc'.after))
    ensures Matched(pre, p, acc.after, acc'.after, acc1, acc1')
    ensures acc1.after.next == acc.after.next + 1 && acc1'.after.next == acc'.after.next + 1
    ensures acc1.flow.Continue? || acc1.flow.Stop?
  {
    hide StartedIn, Piece, Extends, Via, With;
    p := Copied(pre, acc'.after.next, acc.after.next);
    CopyPiece(pre, acc.after, acc'.after);
    CopiedAt(pre, acc'.after.next, acc.after.next);
    CheckThenAlike(s, acc, acc', p);
    acc1, acc1' := acc.Then(Check(s, acc.after)), acc'.Then(Check(Via(s, p), acc'.after));
  }

  lemma {:induction false} WhileAlike(s: Setup, a: Node, b: Node, iter: nat, acc: Run, acc': Run, depth: nat,
                                      pre: Steps)
    returns (h: Steps)
    requires a.While? && SameRoot(a, b) && iter <= a.maxIter && Alike(acc, acc')
    ensures Matched(pre, h, acc.after, acc'.after, RunWhile(s, a, iter, acc, depth),
                    RunWhile(Via(s, h), b, iter, acc', depth))
    decreases a, b, a.maxIter - iter
  {
    hide RunNode, StartedIn, Check, Piece, Extends, Via, With, Copied;
    h := pre;
    PieceNone(pre, acc.after.next, acc'.after.next);
    if iter < a.maxIter {
      var p, acc1, acc1' := HeadAlike(s, acc, acc', pre);
      h := p;
      PieceNone(p, acc1.after.next, acc1'.after.next);
      if acc1.flow.Continue? {
        h := RoundAlike(s, a, b, iter, acc1, acc1', depth, p);
      }
      SameCheck(s, p, h, acc'.after);
      PieceBoth(pre, p, h, acc.after.next, acc'.after.next, acc1.after.next, acc1'.after.next,
                RunWhile(s, a, iter, acc, depth).after.next, RunWhile(Via(s, h), b, iter, acc', depth).after.next);
    }
  }

  /** What a round does behind its check. */
  function Round(s: Setup, n: Node, iter: nat, acc1: Run, depth: nat): Run
    requires n.While? && iter < n.maxIter
  {
    match Condition(s, n.cond, acc1.after.next)
    case Holds(false) => acc1.Ends(Continue, [])
    case Fails(e) => acc1.Ends(Failed, [Error(s.macroId, ConditionFailed(e))])
    case Holds(true) => BodyRound(s, n, iter, acc1, depth)
  }

  function BodyRound(s: Setup, n: Node, iter: nat, acc1: Run, depth: nat): Run
    requires n.While? && iter < n.maxIter
  {
    var r := acc1.Then(RunNode(s, n.body, acc1.after.Later(), depth));
    if r.flow.Continue? then RunWhile(s, n, iter + 1, r, depth) else r
  }

  lemma {:induction false} BodyAlike(s: Setup, a: Node, b: Node, iter: nat, acc1: Run, acc1': Run, depth: nat, p: Steps)
    returns (h: Steps)
    requires a.While? && SameRoot(a, b) && iter < a.maxIter && Alike(acc1, acc1')
    ensures Matched(p, h, acc1.after.Later(), acc1'.after.Later(), BodyRound(s, a, iter, acc1, depth),
                    BodyRound(Via(s, h), b, iter, acc1', depth))
    decreases a, b, a.maxIter - iter, 0
  {
    hide RunNode, RunWhile, StartedIn, Piece, Extends, Via, With, Copied;
    var (t, t') := (acc1.after.Later(), acc1'.after.Later());
    var g := NodeAlike(s, a.body, b.body, t, t', depth, p);
    var (r, r') := (RunNode(s, a.body, t, depth), RunNode(Via(s, g), b.body, t', depth));
    ThenAlike(acc1, acc1', r, r');
    h := g;
    if r.flow.Continue? {
      h := WhileAlike(s, a, b, iter + 1, acc1.Then(r), acc1'.Then(r'), depth, g);
      SameSteps(s, b.body, t', depth, g, h);
      PieceBoth(p, g, h, t.next, t'.next, r.after.next, r'.after.next,
                RunWhile(s, a, iter + 1, acc1.Then(r), depth).after.next,
                RunWhile(Via(s, h), b, iter + 1, acc1'.Then(r'), depth).after.next);
    }
  }

  lemma {:induction false} RoundAlike(s: Setup, a: Node, b: Node, iter: nat, acc1: Run, acc1': Run, depth: nat,
                                      pre: Steps)
    returns (h: Steps)
    requires a.While? && SameRoot(a, b) && iter < a.maxIter && Alike(acc1, acc1')
    ensures Matched(pre, h, acc1.after, acc1'.after, Round(s, a, iter, acc1, depth),
                    Round(Via(s, h), b, iter, acc1', depth))
    decreases a, b, a.maxIter - iter, 1
  {
    hide BodyRound, StartedIn, Condition, Piece, Extends, Via, With, Copied;
    var p := Copied(pre, acc1'.after.next, acc1.after.next);
    CopyPiece(pre, acc1.after, acc1'.after);
    CopiedAt(pre, acc1'.after.next, acc1.after.next);
    h := p;
    PieceNone(p, acc1.after.next + 1, acc1'.after.next + 1);
    var v := Condition(s, a.cond, acc1.after.next);
    if v == Holds(true) {
      h := BodyAlike(s, a, b, iter, acc1, acc1', depth, p);
    } else if v.Holds? {
      EndsAlike(acc1, acc1', Continue, []);
    } else {
      EndsAlike(acc1, acc1', Failed, [Error(s.macroId, ConditionFailed(v.error))]);
    }
    ExtendsAt(p, h, acc1'.after.next + 1, acc1'.after.next);
    ViaSame(s, h);
    PieceBoth(pre, p, h, acc1.after.next, acc1'.after.next, acc1.after.next + 1, acc1'.after.next + 1,
              Round(s, a, iter, acc1, depth).after.next, Round(Via(s, h), b, iter, acc1', depth).after.next);
  }

  lemma {:induction false} RetryAlike(s: Setup, a: Node, b: Node, attempt: nat, acc: Run, acc': Run, depth: nat,
                                      pre: Steps)
    returns (h: Steps)
    requires a.Retry? && SameRoot(a, b) && attempt <= Attempts(a.times) && Alike(acc, acc')
    ensures Matched(pre, h, acc.after, acc'.after, RunRetry(s, a, attempt, acc, depth),
                    RunRetry(Via(s, h), b, attempt, acc', depth))
    decreases a, b, Attempts(a.times) - attempt
  {
    hide RunNode, StartedIn, Check, Elapsed, Piece, Extends, Via, With, Copied;
    h := pre;
    PieceNone(pre, acc.after.next, acc'.after.next);
    if attempt < Attempts(a.times) {
      var p, acc1, acc1' := HeadAlike(s, acc, acc', pre);
      h := p;
      PieceNone(p, acc1.after.next, acc1'.after.next);
      if acc1.flow.Continue? {
        h := AttemptAlike(s, a, b, attempt, acc1, acc1', depth, p);
      }
      SameCheck(s, p, h, acc'.after);
      PieceBoth(pre, p, h, acc.after.next, acc'.after.next, acc1.after.next, acc1'.after.next,
                RunRetry(s, a, attempt, acc, depth).after.next,
                RunRetry(Via(s, h), b, attempt, acc', depth).after.next);
    }
  }

  /** What an attempt does behind its check. */
  function Attempt(s: Setup, n: Node, attempt: nat, acc1: Run, depth: nat): Run
    requires n.Retry? && attempt < Attempts(n.times)
  {
    var r := acc1.Then(RunNode(s, n.body, acc1.after, depth));
    if !r.flow.Failed? then r else AfterFailure(s, n, attempt, r, depth)
  }

  function AfterFailure(s: Setup, n: Node, attempt: nat, r: Run, depth: nat): Run
    requires n.Retry? && attempt < Attempts(n.times)
  {
    if attempt + 1 < Attempts(n.times) && n.backoffMs > 0 then
      var e := Elapsed(s, r.after.next, depth);
      if e.Some? then r.Ends(Dropped(e.value), []) else RunRetry(s, n, attempt + 1, r.Ends(Failed, []), depth)
    else RunRetry(s, n, attempt + 1, r, depth)
  }

  lemma {:induction false} AttemptAlike(s: Setup, a: Node, b: Node, attempt: nat, acc1: Run, acc1': Run, depth: nat,
                                        pre: Steps)
    returns (h: Steps)
    requires a.Retry? && SameRoot(a, b) && attempt < Attempts(a.times) && Alike(acc1, acc1')
    ensures Matched(pre, h, acc1.after, acc1'.after, Attempt(s, a, attempt, acc1, depth),
                    Attempt(Via(s, h), b, attempt, acc1', depth))
    decreases a, b, Attempts(a.times) - attempt, 1
  {
    hide RunNode, RunRetry, StartedIn, Elapsed, AfterFailure, Piece, Extends, Via, With, Copied;
    var (t, t') := (acc1.after, acc1'.after);
    var g := NodeAlike(s, a.body, b.body, t, t', depth, pre);
    var (r, r') := (RunNode(s, a.body, t, depth), RunNode(Via(s, g), b.body, t', depth));
    ThenAlike(acc1, acc1', r, r');
    h := g;
    if r.flow.Failed? {
      h := FailureAlike(s, a, b, attempt, acc1.Then(r), acc1'.Then(r'), depth, g);
      SameSteps(s, b.body, t', depth, g, h);
      PieceBoth(pre, g, h, t.next, t'.next, r.after.next, r'.after.next,
                AfterFailure(s, a, attempt, acc1.Then(r), depth).after.next,
                AfterFailure(Via(s, h), b, attempt, acc1'.Then(r'), depth).after.next);
    }
  }

  lemma {:induction false} FailureAlike(s: Setup, a: Node, b: Node, attempt: nat, r: Run, r': Run, depth: nat,
                                        pre: Steps)
    returns (h: Steps)
    requires a.Retry? && SameRoot(a, b) && attempt < Attempts(a.times) && Alike(r, r')
    ensures Matched(pre, h, r.after, r'.after, AfterFailure(s, a, attempt, r, depth),
                    AfterFailure(Via(s, h), b, attempt, r', depth))
    decreases a, b, Attempts(a.times) - attempt, 0
  {
    hide RunRetry, StartedIn, Piece, Extends, Via, With, Copied;
    if attempt + 1 < Attempts(a.times) && a.backoffMs > 0 {
      var p := Copied(pre, r'.after.next, r.after.next);
      CopyPiece(pre, r.after, r'.after);
      CopiedAt(pre, r'.after.next, r.after.next);
      h := p;
      PieceNone(p, r.after.next + 1, r'.after.next + 1);
      var e := Elapsed(s, r.after.next, depth);
      if e.Some? {
        EndsAlike(r, r', Dropped(e.value), []);
      } else {
        EndsAlike(r, r', Failed, []);
        h := RetryAlike(s, a, b, attempt + 1, r.Ends(Failed, []), r'.Ends(Failed, []), depth, p);
      }
      ExtendsAt(p, h, r'.after.next + 1, r'.after.next);
      ViaSame(s, h);
      PieceBoth(pre, p, h, r.after.next, r'.after.next, r.after.next + 1, r'.after.next + 1,
                AfterFailure(s, a, attempt, r, depth).after.next,
                AfterFailure(Via(s, h), b, attempt, r', depth).after.next);
    } else {
      h := RetryAlike(s, a, b, attempt + 1, r, r', depth, pre);
    }
  }

  /// Results

  /** The order of answers is kept. */
  ghost predicate InOrder(h: Steps) {
    forall k: nat, l: nat :: k <= l ==> h(k) <= h(l)
  }

  /** `h` up to step `to'`, and then on step by step. */
  function Onward(h: Steps, to: nat, to': nat): Steps {
    (k: nat) => if k < to' then h(k) else to + (k - to')
  }

  lemma GoesOn(pre: Steps, h: Steps, to: nat, to': nat)
    requires Piece(pre, h, 0, 0, to, to')
    ensures InOrder(Onward(h, to, to')) && Extends(h, Onward(h, to, to'), to')
  {
  }

  /** Workflows that differ only in sequences of one node can do the same: whatever the surroundings answer to the
      one, there is a run of the other that gets the same answers in the same order, some of them again or not at all,
      and has the same flow, events, locals, store, token and started actions. */
  lemma SameRunsAlike(s: Setup, a: Node, b: Node, locals: Locals)
    requires Same(a, b)
    ensures exists h :: InOrder(h) && Alike(RunWorkflow(s, a, locals), RunWorkflow(Via(s, h), b, locals))
  {
    hide RunNode, Alike, Piece, Extends, Via, With, Copied;
    var t := Fresh(s, locals);
    var pre: Steps := k => k;
    var g := NodeAlike(s, a, b, t, t, 0, pre);
    var (r, r') := (RunNode(s, a, t, 0), RunNode(Via(s, g), b, t, 0));
    var h := Onward(g, r.after.next, r'.after.next);
    GoesOn(pre, g, r.after.next, r'.after.next);
    SameSteps(s, b, t, 0, g, h);
    ViaSame(s, h);
  }

  /** So a token that stays set in the one stays set in the other. */
  lemma TokenStaysSet(s: Setup, h: Steps)
    requires InOrder(h) && forall k: nat, l: nat :: k <= l && s.answer(k).cancelled ==> s.answer(l).cancelled
    ensures forall k: nat, l: nat :: k <= l && Via(s, h).answer(k).cancelled ==> Via(s, h).answer(l).cancelled
  {
    forall k: nat, l: nat | k <= l && Via(s, h).answer(k).cancelled
      ensures Via(s, h).answer(l).cancelled
    {
      assert h(k) <= h(l) && s.answer(h(k)).cancelled;
    }
  }

  /** The simplification that comes with a delete keeps what a workflow does: it runs as before, and brings in no run
      that was not possible before. */
  lemma CollapseRunsAlike(s: Setup, n: Node, locals: Locals)
    ensures var c := WorkflowTree.Collapse(n);
      && (exists h :: InOrder(h) && Alike(RunWorkflow(s, n, locals), RunWorkflow(Via(s, h), c, locals)))
      && (exists h :: InOrder(h) && Alike(RunWorkflow(s, c, locals), RunWorkflow(Via(s, h), n, locals)))
  {
    CollapseSame(n);
    SameRunsAlike(s, n, WorkflowTree.Collapse(n), locals);
    SameRunsAlike(s, WorkflowTree.Collapse(n), n, locals);
  }
}
