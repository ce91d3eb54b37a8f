// Moving a node of a constraint tree among its siblings.
module ConstraintMoves {
  import opened Domain
  import opened Blocks
  import opened ConstraintTree
  import opened ConstraintRows
  import O = Outlines
  import M = OutlineMoves

  /** The size of the sibling the node at row `k` would trade places with, if there is one. */
  function Sibling(e: Expr, k: nat, up: bool): Option<nat> {
    M.Sibling(Shape(e), k, up)
  }

  /** Child `i` of the group at row `p` has the child before it as its previous sibling and the child behind it as its
      next one, where there is one. */
  lemma SiblingOfChild(e: Expr, p: nat, i: nat, up: bool)
    requires NodeAt(e, p).Some? && IsGroup(NodeAt(e, p).value) && i < |NodeAt(e, p).value.exprs|
    ensures var g := NodeAt(e, p).value;
      Sibling(e, p + 1 + Start(Sizes(g.exprs), i), up)
        == if up then (if i > 0 then Some(Size(g.exprs[i - 1])) else None)
           else (if i + 1 < |g.exprs| then Some(Size(g.exprs[i + 1])) else None)
  {
    hide Size, O.Size, NodeAt, O.NodeAt, M.Sibling;
    var g := NodeAt(e, p).value;
    ShapeNode(e, p);
    GroupShape(g);
    M.SiblingOfKid(Shape(e), p, i, up);
  }

  lemma GroupShape(g: Expr)
    requires IsGroup(g)
    ensures Shape(g).list && |Shape(g).kids| == |g.exprs| && O.Sizes(Shape(g).kids) == Sizes(g.exprs)
    ensures forall i :: 0 <= i < |g.exprs| ==> O.Size(Shape(g).kids[i]) == Size(g.exprs[i])
  {
    ShapeSizes(g.exprs);
    forall i | 0 <= i < |g.exprs|
      ensures O.Size(Shape(g).kids[i]) == Size(g.exprs[i])
    {
      ShapeSize(g.exprs[i]);
    }
  }

  /** Without such a sibling the move changes nothing. */
  lemma MoveWithoutSibling(e: Expr, k: nat, up: bool)
    requires Sibling(e, k, up).None?
    ensures MoveAt(e, k, up) == e
  {
    hide Shape, MoveAt, M.Move;
    ShapeMove(e, k, up);
    M.MoveWithoutSibling(Shape(e), k, up);
    ShapeInjective(MoveAt(e, k, up), e);
  }

  /** Moving a node up and then, from its new row, down again restores the tree. */
  lemma MoveUpThenDown(e: Expr, k: nat)
    requires Sibling(e, k, true).Some?
    ensures Sibling(e, k, true).value < k
    ensures MoveAt(MoveAt(e, k, true), k - Sibling(e, k, true).value, false) == e
  {
    hide Shape, MoveAt, M.Move, M.Sibling, O.NodeAt;
    M.MoveUpThenDown(Shape(e), k);
    var k' := k - Sibling(e, k, true).value;
    ShapeMove(e, k, true);
    ShapeMove(MoveAt(e, k, true), k', false);
    ShapeInjective(MoveAt(MoveAt(e, k, true), k', false), e);
  }

  /** Moving a node down and then, from its new row, up again restores the tree. */
  lemma MoveDownThenUp(e: Expr, k: nat)
    requires Sibling(e, k, false).Some?
    ensures MoveAt(MoveAt(e, k, false), k + Sibling(e, k, false).value, true) == e
  {
    hide Shape, MoveAt, M.Move, M.Sibling;
    M.MoveDownThenUp(Shape(e), k);
    var k' := k + Sibling(e, k, false).value;
    ShapeMove(e, k, false);
    ShapeMove(MoveAt(e, k, false), k', true);
    ShapeInjective(MoveAt(MoveAt(e, k, false), k', true), e);
  }

  /** A move up exchanges exactly the node's rows with the rows of its previous sibling, a move down with those of
      its next sibling. */
  lemma MoveExchangesRows(e: Expr, k: nat, up: bool)
    requires Sibling(e, k, up).Some?
    ensures NodeAt(e, k).Some?
    ensures var (rows, m, n) := (Flat(e, 0), Sibling(e, k, up).value, Size(NodeAt(e, k).value));
      var a := if up then k - m else k;
      && 0 <= a && a + m + n <= |rows|
      && Flat(MoveAt(e, k, up), 0) == Exchanged(rows, a, if up then k else k + n, a + m + n)
  {
    hide Shape, Flat, MoveAt, M.Move, M.Sibling, O.NodeAt, NodeAt, Size, O.Size, Exchanged;
    ShapeRows(e, 0);
    ShapeRows(MoveAt(e, k, up), 0);
    ShapeMove(e, k, up);
    ShapeNode(e, k);
    NodeOfSibling(e, k, up);
    ShapeSize(NodeAt(e, k).value);
    if up {
      M.MoveUpExchangesRows(Shape(e), k, 0);
    } else {
      M.MoveDownIsNextUp(Shape(e), k);
      M.MoveUpExchangesRows(Shape(e), k + O.NodeSize(Shape(e), k), 0);
    }
  }

  lemma NodeOfSibling(e: Expr, k: nat, up: bool)
    requires Sibling(e, k, up).Some?
    ensures NodeAt(e, k).Some?
  {
    hide Shape, M.Sibling, O.NodeAt, O.Size, NodeAt;
    M.SiblingRow(Shape(e), k, up);
    M.SiblingInside(Shape(e), k);
    ShapeNode(e, k);
  }
}
