// What the editor's delete button does to the actions of a workflow.
module WorkflowActions {
  import opened Domain
  import opened Blocks
  import opened WorkflowTree
  import opened WorkflowRows
  import opened WorkflowEdits
  import O = Outlines

  /** The actions a list of rows shows, in order. */
  function Shown(rows: seq<Row>): seq<ActionConfig> {
    if rows == [] then []
    else Shown(rows[..|rows| - 1]) + ShownAt(rows[|rows| - 1].kind)
  }

  function ShownAt(kind: RowKind): seq<ActionConfig> {
    if kind.ActionRow? then [kind.action] else []
  }

  lemma {:induction false} ShownBoth(a: seq<Row>, b: seq<Row>)
    ensures Shown(a + b) == Shown(a) + Shown(b)
  {
    if b == [] {
      assert a + b == a;
    } else {
      assert (a + b)[..|a + b| - 1] == a + b[..|b| - 1];
      ShownBoth(a, b[..|b| - 1]);
    }
  }

  lemma ShownOne(row: Row)
    ensures Shown([row]) == ShownAt(row.kind)
  {
    assert [row][..0] == [];
  }

  /** The actions of a tree, depth first. */
  function ActionsOf(n: Node): seq<ActionConfig> {
    if n.Action? then [n.action]
    else if IsList(n) then Concat(ActionsEach(n.kids))
    else if n.IfElse? then
      ActionsOf(n.thenNode) + if n.otherwise.Some? then ActionsOf(n.otherwise.value) else []
    else if n.IsWrapper() then ActionsOf(n.body)
    else []
  }

  function ActionsEach(ns: seq<Node>): seq<seq<ActionConfig>> {
    seq(|ns|, i requires 0 <= i < |ns| => ActionsOf(ns[i]))
  }

  lemma {:induction false} RowsShowActions(n: Node, d: nat)
    ensures Shown(Flat(n, d)) == ActionsOf(n)
    decreases n
  {
    hide Shown;
    ShownOne(O.Row(d, KindOf(n)));
    if IsList(n) {
      RowsOfListShow(n.kids, |n.kids|, d + 1);
      AllOf(FlatEach(n.kids, d + 1));
      AllOf(ActionsEach(n.kids));
      ShownBoth([O.Row(d, KindOf(n))], Concat(FlatEach(n.kids, d + 1)));
    } else if n.IfElse? {
      BranchesShow(n, d);
    } else if n.IsWrapper() {
      RowsShowActions(n.body, d + 1);
      ShownBoth([O.Row(d, KindOf(n))], Flat(n.body, d + 1));
    }
  }

  lemma {:induction false} BranchesShow(n: Node, d: nat)
    requires n.IfElse?
    ensures Shown(Flat(n, d)) == ActionsOf(n)
    decreases n, 0
  {
    hide Shown;
    var head := [O.Row(d, KindOf(n)), O.Row(d + 1, ThenRow)];
    assert head == [O.Row(d, KindOf(n))] + [O.Row(d + 1, ThenRow)];
    ShownBoth([O.Row(d, KindOf(n))], [O.Row(d + 1, ThenRow)]);
    ShownOne(O.Row(d, KindOf(n)));
    ShownOne(O.Row(d + 1, ThenRow));
    RowsShowActions(n.thenNode, d + 2);
    ShownBoth(head, Flat(n.thenNode, d + 2));
    if n.otherwise.Some? {
      var tail := [O.Row(d + 1, ElseRow)] + Flat(n.otherwise.value, d + 2);
      RowsShowActions(n.otherwise.value, d + 2);
      ShownOne(O.Row(d + 1, ElseRow));
      ShownBoth([O.Row(d + 1, ElseRow)], Flat(n.otherwise.value, d + 2));
      ShownBoth(head + Flat(n.thenNode, d + 2), tail);
    } else {
      assert Flat(n, d) == head + Flat(n.thenNode, d + 2);
    }
  }

  lemma AllOf<T>(xs: seq<T>)
    ensures xs[..|xs|] == xs
  {
  }

  lemma {:induction false} RowsOfListShow(ns: seq<Node>, m: nat, d: nat)
    requires m <= |ns|
    ensures Shown(Concat(FlatEach(ns, d)[..m])) == Concat(ActionsEach(ns)[..m])
    decreases ns, m
  {
    hide Shown, Flat, ActionsOf;
    if m == 0 {
      assert FlatEach(ns, d)[..0] == [] && ActionsEach(ns)[..0] == [];
      assert Shown([]) == [] by {
        NothingShown();
      }
    } else {
      RowsOfListShow(ns, m - 1, d);
      RowsShowActions(ns[m - 1], d);
      ConcatNext(FlatEach(ns, d), m - 1);
      ConcatNext(ActionsEach(ns), m - 1);
      ShownBoth(Concat(FlatEach(ns, d)[..m - 1]), Flat(ns[m - 1], d));
    }
  }

  lemma NothingShown()
    ensures Shown([]) == []
  {
  }

  /** Collapsing drops no action and keeps their order. */
  lemma {:induction false} CollapseKeepsActions(n: Node)
    ensures ActionsOf(Collapse(n)) == ActionsOf(n)
  {
    if IsList(n) {
      forall i | 0 <= i < |n.kids|
        ensures ActionsOf(Collapse(n.kids[i])) == ActionsOf(n.kids[i])
      {
        CollapseKeepsActions(n.kids[i]);
      }
      var kids := CollapseEach(n.kids);
      assert ActionsEach(kids) == ActionsEach(n.kids);
      if |kids| == 1 {
        assert ActionsEach(kids) == [ActionsOf(kids[0])];
        ConcatOne(ActionsOf(kids[0]));
      }
    } else if n.IfElse? {
      CollapseKeepsActions(n.thenNode);
      if n.otherwise.Some? {
        CollapseKeepsActions(n.otherwise.value);
      }
    } else if n.IsWrapper() && !n.ForEach? {
      CollapseKeepsActions(n.body);
    }
  }

  /** No sequence outside loops over items has exactly one child. */
  predicate NoLoneChild(n: Node) {
    match n
    case Seq(kids) => |kids| != 1 && forall x <- kids :: NoLoneChild(x)
    case Parallel(kids) => forall x <- kids :: NoLoneChild(x)
    case IfElse(_, t, o) => NoLoneChild(t) && (o.Some? ==> NoLoneChild(o.value))
    case While(_, b, _) => NoLoneChild(b)
    case Retry(b, _, _) => NoLoneChild(b)
    case Timeout(b, _) => NoLoneChild(b)
    case _ => true
  }

  /** The loops over items, outermost first. */
  function ItemLoops(n: Node): seq<Node> {
    match n
    case ForEach(_, _, _) => [n]
    case Seq(kids) => Concat(ItemLoopsEach(kids))
    case Parallel(kids) => Concat(ItemLoopsEach(kids))
    case IfElse(_, t, o) => ItemLoops(t) + if o.Some? then ItemLoops(o.value) else []
    case While(_, b, _) => ItemLoops(b)
    case Retry(b, _, _) => ItemLoops(b)
    case Timeout(b, _) => ItemLoops(b)
    case _ => []
  }

  function ItemLoopsEach(ns: seq<Node>): seq<seq<Node>> {
    seq(|ns|, i requires 0 <= i < |ns| => ItemLoops(ns[i]))
  }

  /** Collapsing leaves no sequence with one child outside loops over items; those loops, and a tree without such a
      sequence, stay as they are. */
  lemma {:induction false} CollapseNormalises(n: Node)
    ensures NoLoneChild(Collapse(n)) && ItemLoops(Collapse(n)) == ItemLoops(n)
    ensures NoLoneChild(n) ==> Collapse(n) == n
  {
    match n
    case Seq(kids) =>
      CollapseEachNormalises(kids);
      var kept := CollapseEach(kids);
      if |kids| == 1 {
        assert ItemLoopsEach(kept) == [ItemLoops(kept[0])];
        ConcatOne(ItemLoops(kept[0]));
      }
    case Parallel(kids) => CollapseEachNormalises(kids);
    case IfElse(_, t, o) =>
      CollapseNormalises(t);
      if o.Some? {
        CollapseNormalises(o.value);
      }
    case While(_, b, _) => CollapseNormalises(b);
    case Retry(b, _, _) => CollapseNormalises(b);
    case Timeout(b, _) => CollapseNormalises(b);
    case _ =>
  }

  lemma {:induction false} CollapseEachNormalises(ns: seq<Node>)
    ensures forall x <- CollapseEach(ns) :: NoLoneChild(x)
    ensures ItemLoopsEach(CollapseEach(ns)) == ItemLoopsEach(ns)
    ensures (forall x <- ns :: NoLoneChild(x)) ==> CollapseEach(ns) == ns
  {
    forall i | 0 <= i < |ns|
      ensures NoLoneChild(CollapseEach(ns)[i]) && ItemLoops(CollapseEach(ns)[i]) == ItemLoops(ns[i])
      ensures NoLoneChild(ns[i]) ==> CollapseEach(ns)[i] == ns[i]
    {
      CollapseNormalises(ns[i]);
    }
  }

  /** Deleting the node at row `k` removes the actions its rows show; all others stay, in order. */
  lemma DeleteRemovesShownActions(n: Node, k: nat)
    requires 0 < k < |Flat(n, 0)| && !ShowsLabel(Flat(n, 0)[k].kind)
    ensures Owns(n, k) && EraseAt(n, k).Some?
    ensures var (rows, to) := (Flat(n, 0), k + Size(NodeAt(n, k).value));
      ActionsOf(Collapse(EraseAt(n, k).value)) == Shown(rows[..k]) + Shown(rows[to..])
  {
    hide Flat, Size, NodeAt, PutAt, Spliced, Shown, ActionsOf, Collapse;
    EraseRemovesRows(n, k);
    var (rows, to, kept) := (Flat(n, 0), k + Size(NodeAt(n, k).value), EraseAt(n, k).value);
    CollapseKeepsActions(kept);
    RowsShowActions(kept, 0);
    if OwnsBody(rows[k - 1].kind) {
      SpliceShows(rows, k, to, [O.Row(rows[k].depth, SeqRow)]);
      ShownOne(O.Row(rows[k].depth, SeqRow));
    } else if rows[k - 1].kind.ElseRow? {
      SpliceShows(rows, k - 1, to, []);
      NothingShown();
      ShownNext(rows, k);
    } else {
      SpliceShows(rows, k, to, []);
      NothingShown();
    }
  }

  lemma SpliceShows(rows: seq<Row>, from: nat, to: nat, ys: seq<Row>)
    requires from <= to <= |rows|
    ensures Shown(Spliced(rows, from, to, ys)) == Shown(rows[..from]) + Shown(ys) + Shown(rows[to..])
  {
    hide Shown;
    ShownBoth(rows[..from] + ys, rows[to..]);
    ShownBoth(rows[..from], ys);
  }

  lemma ShownNext(rows: seq<Row>, k: nat)
    requires 0 < k <= |rows|
    ensures Shown(rows[..k]) == Shown(rows[..k - 1]) + ShownAt(rows[k - 1].kind)
  {
    assert rows[..k][..k - 1] == rows[..k - 1];
  }
}
