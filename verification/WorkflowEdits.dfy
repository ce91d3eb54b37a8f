// The workflow editor's edits in terms of the flat list it shows.
module WorkflowEdits {
  import opened Domain
  import opened Blocks
  import opened WorkflowTree
  import opened WorkflowRows
  import O = Outlines
  import M = OutlineMoves

  /// Updating and erasing

  lemma RowCount(n: Node, d: nat)
    ensures |Flat(n, d)| == Size(n)
  {
    ShapeRows(n, d);
    ShapeSize(n);
    O.SizeCountsRows(Shape(n), d);
  }

  /** Row `k` shows the kind of what stands there in the outline. */
  lemma RowKindAt(n: Node, k: nat)
    requires k < Size(n)
    ensures k < |Flat(n, 0)| && O.NodeAt(Shape(n), k).Some?
    ensures Flat(n, 0)[k].kind == O.NodeAt(Shape(n), k).value.kind
  {
    hide Flat, Size, Shape, O.NodeAt, O.Size;
    ShapeRows(n, 0);
    ShapeSize(n);
    O.NodeOwnsRows(Shape(n), k, 0);
    var rows := Flat(n, 0);
    assert rows[k..k + O.NodeSize(Shape(n), k)][0] == rows[k];
  }

  predicate ShowsLabel(kind: RowKind) {
    kind.ThenRow? || kind.ElseRow?
  }

  /** The subtree at row `k`, if it is no label, owns the rows from `k` on. */
  ghost predicate Owns(n: Node, k: nat) {
    var rows := Flat(n, 0);
    && NodeAt(n, k).Some? && k + Size(NodeAt(n, k).value) <= |rows|
    && rows[k..k + Size(NodeAt(n, k).value)] == Flat(NodeAt(n, k).value, rows[k].depth)
    && rows[k].kind == KindOf(NodeAt(n, k).value)
  }

  lemma NodeOwnsRows(n: Node, k: nat)
    requires k < Size(n)
    ensures k < |Flat(n, 0)|
    ensures if ShowsLabel(Flat(n, 0)[k].kind) then NodeAt(n, k).None? else Owns(n, k)
  {
    hide Flat, Size, Shape, NodeAt, O.NodeAt, O.Rows;
    RowKindAt(n, k);
    ShapeNode(n, k);
    ShapeRows(n, 0);
    ShapeSize(n);
    O.NodeOwnsRows(Shape(n), k, 0);
    if NodeAt(n, k).Some? {
      var x := NodeAt(n, k).value;
      RootNode(x);
      ShapeSize(x);
      ShapeRows(x, Flat(n, 0)[k].depth);
    }
  }

  /** A row that is no label shows what stands there: the kind of its node, and all that the node holds besides
      subtrees. */
  lemma RowShowsNode(n: Node, k: nat)
    requires k < |Flat(n, 0)| && !ShowsLabel(Flat(n, 0)[k].kind)
    ensures NodeAt(n, k).Some?
    ensures var kind := Flat(n, 0)[k].kind;
      match NodeAt(n, k).value
      case Action(a) => kind == ActionRow(a)
      case Seq(_) => kind == SeqRow
      case Parallel(_) => kind == ParallelRow
      case IfElse(c, _, _) => kind == IfRow(c)
      case While(c, _, max) => kind == WhileRow(c, max)
      case ForEach(items, name, _) => kind == ForEachRow(items, name)
      case Retry(_, times, backoff) => kind == RetryRow(times, backoff)
      case Timeout(_, ms) => kind == TimeoutRow(ms)
      case Wait(ms) => kind == WaitRow(ms)
  {
    hide Flat, Size, NodeAt;
    RowCount(n, 0);
    NodeOwnsRows(n, k);
  }

  /** A conditional shows its branches under labels of their own, one level further in. */
  lemma ConditionalRows(c: ConstraintExpr, yes: Node, no: Option<Node>, d: nat)
    ensures Flat(IfElse(c, yes, no), d)
         == [O.Row(d, IfRow(c)), O.Row(d + 1, ThenRow)] + Flat(yes, d + 2)
              + if no.Some? then [O.Row(d + 1, ElseRow)] + Flat(no.value, d + 2) else []
  {
    assert [O.Row(d, IfRow(c))] + [O.Row(d + 1, ThenRow)] == [O.Row(d, IfRow(c)), O.Row(d + 1, ThenRow)];
  }

  lemma ActionRows(c: ActionConfig, d: nat)
    ensures Flat(Action(c), d) == [O.Row(d, ActionRow(c))]
    ensures Size(Action(c)) == 1
  {
  }

  /** Updating row `k` replaces that row when it shows an action, and is the identity at any other row number. */
  lemma UpdateChangesOneRow(n: Node, k: nat, c: ActionConfig)
    ensures var rows := Flat(n, 0);
      if k < |rows| && rows[k].kind.ActionRow?
      then Flat(UpdateAt(n, k, c), 0) == rows[k := O.Row(rows[k].depth, ActionRow(c))]
      else UpdateAt(n, k, c) == n
  {
    hide Flat, Size, NodeAt, ReplaceAt, Shape, O.Put, O.RowsOf;
    RowCount(n, 0);
    if k < Size(n) {
      NodeOwnsRows(n, k);
      if NodeAt(n, k).Some? && NodeAt(n, k).value.Action? {
        ReplacedAction(n, k, c);
      }
    } else {
      NoNodeOutside(n, k);
    }
  }

  lemma NoNodeOutside(n: Node, k: nat)
    requires k >= Size(n)
    ensures NodeAt(n, k) == None
  {
  }

  lemma ReplacedAction(n: Node, k: nat, c: ActionConfig)
    requires k < Size(n) && Owns(n, k) && NodeAt(n, k).value.Action?
    ensures Flat(ReplaceAt(n, k, Action(c)), 0) == Flat(n, 0)[k := O.Row(Flat(n, 0)[k].depth, ActionRow(c))]
  {
    hide Flat, Size, NodeAt, ReplaceAt, Shape, O.Put, O.RowsOf, O.Rows, Spliced, O.NodeAt, O.Size;
    var d := Flat(n, 0)[k].depth;
    ActionRows(NodeAt(n, k).value.action, d);
    ActionRows(c, d);
    ShapeRows(n, 0);
    ShapeSize(n);
    ShapeNode(n, k);
    ShapeSize(NodeAt(n, k).value);
    O.PutSplicesRows(Shape(n), k, [Shape(Action(c))], 0);
    ShapeReplace(n, k, Action(c));
    O.RowsOne(Shape(Action(c)), d);
    O.RowsOne(Shape(ReplaceAt(n, k, Action(c))), 0);
    ShapeRows(ReplaceAt(n, k, Action(c)), 0);
    ShapeRows(Action(c), d);
    SpliceOne(Flat(n, 0), k, O.Row(d, ActionRow(c)));
  }

  /** Erasing the subtree at row `k` removes exactly its rows. A body or a then-branch leaves one empty sequence in
      its place, an else-branch takes its label row along. */
  lemma EraseRemovesRows(n: Node, k: nat)
    requires 0 < k < |Flat(n, 0)| && !ShowsLabel(Flat(n, 0)[k].kind)
    ensures Owns(n, k) && EraseAt(n, k).Some?
    ensures var (rows, to) := (Flat(n, 0), k + Size(NodeAt(n, k).value));
      Flat(EraseAt(n, k).value, 0) ==
        if OwnsBody(rows[k - 1].kind) then Spliced(rows, k, to, [O.Row(rows[k].depth, SeqRow)])
        else if rows[k - 1].kind.ElseRow? then Spliced(rows, k - 1, to, [])
        else Spliced(rows, k, to, [])
  {
    hide Flat, Size, NodeAt, EraseAt, PutAt, Spliced, Shape, O.Put, O.Rows, O.RowsOf, O.Size, O.NodeAt;
    RowCount(n, 0);
    NodeOwnsRows(n, k);
    RowKindAt(n, k - 1);
    ShapeErase(n, k);
    ShapeRows(EraseAt(n, k).value, 0);
    O.RowsOne(Shape(EraseAt(n, k).value), 0);
    if OwnsBody(Flat(n, 0)[k - 1].kind) {
      PutRows(n, k, k, [NOTHING]);
      NothingRows(Flat(n, 0)[k].depth);
    } else if Flat(n, 0)[k - 1].kind.ElseRow? {
      ElseSize(n, k);
      PutRows(n, k, k - 1, []);
    } else {
      PutRows(n, k, k, []);
    }
  }

  /** A branch's label is no node: erasing, replacing, updating and moving it leave the tree as it is, and what a delete
      does there is the collapse alone. */
  lemma LabelsAreKept(n: Node, k: nat, r: Option<Node>, c: ActionConfig, up: bool)
    requires k < |Flat(n, 0)| && ShowsLabel(Flat(n, 0)[k].kind)
    ensures PutAt(n, k, r) == Some(n) && UpdateAt(n, k, c) == n && MoveAt(n, k, up) == n
    ensures Deleted(n, k) == Some(Collapse(n))
  {
    hide Flat, PutAt, MoveAt, NodeAt, Size;
    RowCount(n, 0);
    NodeOwnsRows(n, k);
    LabelKept(n, k, r);
    LabelKept(n, k, None);
    if Sibling(n, k, up).Some? {
      NodeOfSibling(n, k, up);
    } else {
      MoveWithoutSibling(n, k, up);
    }
  }

  lemma {:induction false} LabelKept(n: Node, k: nat, r: Option<Node>)
    requires k < Size(n) && NodeAt(n, k).None?
    ensures PutAt(n, k, r) == Some(n)
  {
    hide PlaceOf, Size, PutSub;
    var (at, off) := PlaceOf(n, k);
    if !at.Label? {
      LabelKept(Sub(n, at), off, r);
      PutBack(n, at);
    }
  }

  lemma NothingRows(d: nat)
    ensures O.RowsOf([NOTHING], d) == [O.Row(d, SeqRow)] && O.RowsOf<RowKind>([], d) == []
  {
    O.RowsOne(NOTHING, d);
    assert O.RowsEach<RowKind>([], d + 1) == [];
  }

  lemma PutRows(n: Node, k: nat, from: nat, r: seq<O.Outline<RowKind>>)
    requires k < Size(n) && Owns(n, k) && (from == k || (from + 1 == k && OwnsRest(n, k)))
    ensures from < |Flat(n, 0)|
    ensures O.RowsOf(O.Put(Shape(n), from, r), 0)
         == Spliced(Flat(n, 0), from, k + Size(NodeAt(n, k).value), O.RowsOf(r, Flat(n, 0)[from].depth))
    ensures O.RowsOf<RowKind>([], 0) == O.RowsOf<RowKind>([], Flat(n, 0)[from].depth) == []
  {
    hide Flat, Size, NodeAt, Spliced, Shape, O.Put, O.Rows, O.RowsOf, O.Size, O.NodeAt;
    ShapeRows(n, 0);
    ShapeSize(n);
    ShapeNode(n, k);
    ShapeSize(NodeAt(n, k).value);
    O.PutSplicesRows(Shape(n), from, r, 0);
    NothingRows(0);
    NothingRows(Flat(n, 0)[from].depth);
  }

  /** The row above row `k` ends where the node at row `k` does. */
  ghost predicate OwnsRest(n: Node, k: nat) {
    k > 0 && NodeAt(n, k).Some? && O.NodeSize(Shape(n), k - 1) == 1 + Size(NodeAt(n, k).value)
  }

  lemma ElseSize(n: Node, k: nat)
    requires Owns(n, k) && 0 < k < Size(n) && Above(n, k) == Some(ElseRow)
    ensures OwnsRest(n, k)
  {
    hide Flat, Size, NodeAt, Shape, O.NodeAt, O.Size;
    ShapeNode(n, k);
    ShapeNode(n, k - 1);
    ShapeSize(NodeAt(n, k).value);
    var above := O.NodeAt(Shape(n), k - 1).value;
    if NodeAt(n, k - 1).Some? {
      RootNode(NodeAt(n, k - 1).value);
    }
    O.FirstKid(Shape(n), k - 1);
    LabelSize(above);
  }

  lemma LabelSize(t: O.Outline<RowKind>)
    requires |t.kids| == 1
    ensures O.Size(t) == 1 + O.Size(t.kids[0])
  {
    assert O.Sizes(t.kids) == [O.Size(t.kids[0])];
    SumOne(O.Size(t.kids[0]));
  }

  /** Adding a node shows it last: at the end of a sequence at the root, or under a new one that holds the old tree. */
  lemma AddAppendsRows(n: Node, x: Node)
    ensures Flat(AddNode(n, x), 0)
         == (if n.Seq? then Flat(n, 0) else [O.Row(0, SeqRow)] + Flat(n, 1)) + Flat(x, 1)
  {
    hide Flat, FlatEach, Concat;
    if n.Seq? {
      SeqRows(n.kids, 0);
      SeqRows(n.kids + [x], 0);
      RowsAppend(n.kids, [x]);
    } else {
      SeqRows([n, x], 0);
      RowsAppend([n], [x]);
      assert [n] + [x] == [n, x];
      RowsOfOne(n);
    }
    RowsOfOne(x);
  }

  lemma SeqRows(ns: seq<Node>, d: nat)
    ensures Flat(Seq(ns), d) == [O.Row(d, SeqRow)] + Concat(FlatEach(ns, d + 1))
  {
  }

  lemma RowsAppend(a: seq<Node>, b: seq<Node>)
    ensures Concat(FlatEach(a + b, 1)) == Concat(FlatEach(a, 1)) + Concat(FlatEach(b, 1))
  {
    assert FlatEach(a + b, 1) == FlatEach(a, 1) + FlatEach(b, 1);
    ConcatAppend(FlatEach(a, 1), FlatEach(b, 1));
  }

  lemma RowsOfOne(n: Node)
    ensures Concat(FlatEach([n], 1)) == Flat(n, 1)
  {
    assert FlatEach([n], 1) == [Flat(n, 1)];
    ConcatOne(Flat(n, 1));
  }

  /// Moving

  /** The size of the sibling the node at row `k` would trade places with, if there is one. */
  function Sibling(n: Node, k: nat, up: bool): Option<nat> {
    M.Sibling(Shape(n), k, up)
  }

  /** Child `i` of the sequence or parallel block at row `p` has the child before it as its previous sibling and the
      child behind it as its next one, where there is one. */
  lemma SiblingOfChild(n: Node, p: nat, i: nat, up: bool)
    requires NodeAt(n, p).Some? && IsList(NodeAt(n, p).value) && i < |NodeAt(n, p).value.kids|
    ensures var g := NodeAt(n, p).value;
      Sibling(n, p + 1 + Start(Sizes(g.kids), i), up)
        == if up then (if i > 0 then Some(Size(g.kids[i - 1])) else None)
           else (if i + 1 < |g.kids| then Some(Size(g.kids[i + 1])) else None)
  {
    hide Size, O.Size, NodeAt, O.NodeAt, M.Sibling, Shape;
    var g := NodeAt(n, p).value;
    ShapeSize(n);
    NodeInside(n, p);
    ShapeNode(n, p);
    ListOutline(g);
    M.SiblingOfKid(Shape(n), p, i, up);
  }

  lemma NodeInside(n: Node, k: nat)
    ensures NodeAt(n, k).Some? ==> k < Size(n)
  {
  }

  lemma ListOutline(g: Node)
    requires IsList(g)
    ensures Shape(g).list && |Shape(g).kids| == |g.kids| && O.Sizes(Shape(g).kids) == Sizes(g.kids)
    ensures forall i :: 0 <= i < |g.kids| ==> O.Size(Shape(g).kids[i]) == Size(g.kids[i])
  {
    forall i | 0 <= i < |g.kids|
      ensures O.Size(Shape(g).kids[i]) == Size(g.kids[i])
    {
      ShapeSize(g.kids[i]);
    }
  }

  /** Without such a sibling the move changes nothing. */
  lemma MoveWithoutSibling(n: Node, k: nat, up: bool)
    requires Sibling(n, k, up).None?
    ensures MoveAt(n, k, up) == n
  {
    hide Shape, MoveAt, M.Move;
    ShapeMove(n, k, up);
    M.MoveWithoutSibling(Shape(n), k, up);
    ShapeInjective(MoveAt(n, k, up), n);
  }

  /** Moving a node up and then, from its new row, down again restores the tree. */
  lemma MoveUpThenDown(n: Node, k: nat)
    requires Sibling(n, k, true).Some?
    ensures Sibling(n, k, true).value < k
    ensures MoveAt(MoveAt(n, k, true), k - Sibling(n, k, true).value, false) == n
  {
    hide Shape, MoveAt, M.Move, M.Sibling, O.NodeAt;
    M.MoveUpThenDown(Shape(n), k);
    var k' := k - Sibling(n, k, true).value;
    ShapeMove(n, k, true);
    ShapeMove(MoveAt(n, k, true), k', false);
    ShapeInjective(MoveAt(MoveAt(n, k, true), k', false), n);
  }

  /** Moving a node down and then, from its new row, up again restores the tree. */
  lemma MoveDownThenUp(n: Node, k: nat)
    requires Sibling(n, k, false).Some?
    ensures MoveAt(MoveAt(n, k, false), k + Sibling(n, k, false).value, true) == n
  {
    hide Shape, MoveAt, M.Move, M.Sibling;
    M.MoveDownThenUp(Shape(n), k);
    var k' := k + Sibling(n, k, false).value;
    ShapeMove(n, k, false);
    ShapeMove(MoveAt(n, k, false), k', true);
    ShapeInjective(MoveAt(MoveAt(n, k, false), k', true), n);
  }

  /** A move up exchanges exactly the node's rows with the rows of its previous sibling, a move down with those of
      its next sibling, in trees with and without `ForEach`. */
  lemma MoveExchangesRows(n: Node, k: nat, up: bool)
    requires Sibling(n, k, up).Some?
    ensures NodeAt(n, k).Some?
    ensures var (rows, m, s) := (Flat(n, 0), Sibling(n, k, up).value, Size(NodeAt(n, k).value));
      var a := if up then k - m else k;
      && 0 <= a && a + m + s <= |rows|
      && Flat(MoveAt(n, k, up), 0) == Exchanged(rows, a, if up then k else k + s, a + m + s)
  {
    hide Shape, Flat, MoveAt, M.Move, M.Sibling, O.NodeAt, NodeAt, Size, O.Size, Exchanged;
    ShapeRows(n, 0);
    ShapeRows(MoveAt(n, k, up), 0);
    ShapeMove(n, k, up);
    ShapeNode(n, k);
    NodeOfSibling(n, k, up);
    ShapeSize(NodeAt(n, k).value);
    if up {
      M.MoveUpExchangesRows(Shape(n), k, 0);
    } else {
      M.MoveDownIsNextUp(Shape(n), k);
      M.MoveUpExchangesRows(Shape(n), k + O.NodeSize(Shape(n), k), 0);
    }
  }

  /** Only nodes have siblings: a branch's label stays where it is. */
  lemma NodeOfSibling(n: Node, k: nat, up: bool)
    requires Sibling(n, k, up).Some?
    ensures NodeAt(n, k).Some?
  {
    ShapeSize(n);
    M.SiblingRow(Shape(n), k, up);
    if NodeAt(n, k).None? {
      LabelStays(n, k, up);
    }
  }

  lemma {:induction false} LabelStays(n: Node, k: nat, up: bool)
    requires 0 < k < Size(n) && NodeAt(n, k).None?
    ensures Sibling(n, k, up) == None
  {
    ListShape(n);
    hide Shape, Size, PlaceOf, M.Sibling, Spot;
    var (at, off) := PlaceOf(n, k);
    PlaceInOutline(n, k);
    if !at.Label? {
      RootOf(Sub(n, at));
      LabelStays(Sub(n, at), off, up);
    }
    match at
    case Kid(i) => SpotSibling(Shape(n), k, i, Shape(Sub(n, at)), off, up);
    case Body => SpotSibling(Shape(n), k, 0, Shape(n.body), off, up);
    case Then =>
      SpotSibling(Shape(n), k, 0, Branch(ThenRow, Shape(n.thenNode)), off + 1, up);
      SpotSibling(Branch(ThenRow, Shape(n.thenNode)), off + 1, 0, Shape(n.thenNode), off, up);
    case Else =>
      SpotSibling(Shape(n), k, 1, Branch(ElseRow, Shape(n.otherwise.value)), off + 1, up);
      SpotSibling(Branch(ElseRow, Shape(n.otherwise.value)), off + 1, 0, Shape(n.otherwise.value), off, up);
    case Label =>
      if k == 1 {
        SpotSibling(Shape(n), k, 0, Branch(ThenRow, Shape(n.thenNode)), 0, up);
      } else {
        SpotSibling(Shape(n), k, 1, Branch(ElseRow, Shape(n.otherwise.value)), 0, up);
      }
  }

  lemma RootOf(n: Node)
    ensures NodeAt(n, 0) == Some(n)
  {
  }

  lemma SpotSibling(t: O.Outline<RowKind>, k: nat, i: nat, x: O.Outline<RowKind>, off: nat, up: bool)
    requires Spot(t, k, i, x, off) && (off > 0 || !t.list)
    ensures M.Sibling(t, k, up) == if off > 0 then M.Sibling(x, off, up) else None
  {
    hide M.Sibling, O.Size, O.RowOf, M.Move;
    M.KidMove(t, i, off, up);
  }
}
