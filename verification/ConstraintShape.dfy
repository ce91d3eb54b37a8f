// What the edits make of a constraint tree as a tree: which node goes above which, and which leaves stay, in order.
module ConstraintShape {
  import opened Domain
  import opened Blocks
  import opened ConstraintTree
  import opened ConstraintRows
  import O = Outlines

  /// Wrapping

  /** The node of a row, wrapped: an AND or an OR over it alone, unless it is one already, or a negation of it. */
  predicate IsWrapped(x: Expr, kind: WrapKind, y: Expr) {
    match kind
    case And => y == if x.All? then x else All([x])
    case Or => y == if x.Any? then x else Any([x])
    case Negate => y == Not(x)
    case OtherKind => y == x
  }

  /** Wrapping puts the wanted node in place of the one at the row. */
  lemma WrapPutsAbove(e: Expr, k: nat, kind: WrapKind)
    requires k < Size(e)
    ensures NodeAt(e, k).Some? && NodeAt(WrapAt(e, k, kind), k).Some?
    ensures IsWrapped(NodeAt(e, k).value, kind, NodeAt(WrapAt(e, k, kind), k).value)
  {
    hide NodeAt, ReplaceAt, WrapExpr;
    NodeOwnsRows(e, k);
    ReplacedNode(e, k, WrapExpr(NodeAt(e, k).value, kind));
    WrappedNode(NodeAt(e, k).value, kind);
  }

  lemma WrappedNode(x: Expr, kind: WrapKind)
    ensures IsWrapped(x, kind, WrapExpr(x, kind))
  {
  }

  /** What is put at a row stands there. */
  lemma {:induction false} ReplacedNode(e: Expr, k: nat, r: Expr)
    requires k < Size(e)
    ensures NodeAt(ReplaceAt(e, k, r), k) == Some(r)
  {
    if k == 0 {
      RootSize(r);
    } else if e.Not? {
      ReplacedNode(e.inner, k - 1, r);
      InsideReplaced(e.inner, k - 1, r);
    } else {
      ReplacedInGroup(e, k, r);
    }
  }

  lemma RootSize(e: Expr)
    ensures Size(e) > 0 && NodeAt(e, 0) == Some(e)
  {
  }

  lemma InsideReplaced(e: Expr, k: nat, r: Expr)
    requires NodeAt(ReplaceAt(e, k, r), k).Some?
    ensures k < Size(ReplaceAt(e, k, r))
  {
  }

  lemma {:induction false} ReplacedInGroup(e: Expr, k: nat, r: Expr)
    requires IsGroup(e) && 0 < k < Size(e)
    ensures NodeAt(ReplaceAt(e, k, r), k) == Some(r)
    decreases e, 0
  {
    hide Sum, Start, Locate, ReplaceAt;
    var (i, off) := Locate(Sizes(e.exprs), k - 1);
    var x := ReplaceAt(e.exprs[i], off, r);
    ReplacedNode(e.exprs[i], off, r);
    InsideReplaced(e.exprs[i], off, r);
    ReplaceInGroup(e, k, r);
    var es := e.exprs[i := x];
    assert Sizes(es) == Sizes(e.exprs)[i := Size(x)];
    assert Sizes(es)[..i] == Sizes(e.exprs)[..i];
    SameStart(Sizes(es), Sizes(e.exprs), i);
    LocateUnique(Sizes(es), k - 1, i);
  }

  lemma SameStart(a: seq<nat>, b: seq<nat>, i: nat)
    requires i <= |a| == |b| && a[..i] == b[..i]
    ensures Start(a, i) == Start(b, i)
  {
  }

  /// Adding

  /** An added leaf shows last: alone, at the end of an AND at the root, or under a new AND that holds the old tree. */
  lemma AddAppendsRow(e: Expr, c: ConstraintConfig)
    ensures Flat(AddLeaf(e, c), 0) ==
      if e.Always? then [O.Row(0, LeafRow(c))]
      else (if e.All? then Flat(e, 0) else [O.Row(0, AllRow)] + Flat(e, 1)) + [O.Row(1, LeafRow(c))]
  {
    if e.All? {
      assert FlatEach(e.exprs + [Leaf(c)], 1) == FlatEach(e.exprs, 1) + [[O.Row(1, LeafRow(c))]];
      ConcatAppend(FlatEach(e.exprs, 1), [[O.Row(1, LeafRow(c))]]);
      ConcatOne([O.Row(1, LeafRow(c))]);
    } else if !e.Always? {
      assert FlatEach([e, Leaf(c)], 1) == [Flat(e, 1)] + [[O.Row(1, LeafRow(c))]];
      ConcatAppend([Flat(e, 1)], [[O.Row(1, LeafRow(c))]]);
      ConcatOne(Flat(e, 1));
      ConcatOne([O.Row(1, LeafRow(c))]);
    }
  }

  /// Collapsing

  /** The leaves of a tree, in order. */
  function Leaves(e: Expr): seq<ConstraintConfig> {
    match e
    case Always => []
    case Leaf(c) => [c]
    case Not(x) => Leaves(x)
    case All(es) => Concat(LeavesEach(es))
    case Any(es) => Concat(LeavesEach(es))
  }

  function LeavesEach(es: seq<Expr>): seq<seq<ConstraintConfig>> {
    seq(|es|, i requires 0 <= i < |es| => Leaves(es[i]))
  }

  /** The simplification that comes with a delete drops no leaf and keeps their order. */
  lemma {:induction false} CollapseKeepsLeaves(e: Expr)
    ensures Leaves(Collapse(e)) == Leaves(e)
  {
    if e.Not? {
      CollapseKeepsLeaves(e.inner);
    } else if IsGroup(e) {
      forall i | 0 <= i < |e.exprs|
        ensures Leaves(Collapse(e.exprs[i])) == Leaves(e.exprs[i])
      {
        CollapseKeepsLeaves(e.exprs[i]);
      }
      var kids := CollapseEach(e.exprs);
      assert LeavesEach(kids) == LeavesEach(e.exprs);
      if |kids| == 1 {
        assert LeavesEach(kids) == [Leaves(kids[0])];
        ConcatOne(Leaves(kids[0]));
      }
    }
  }
}
