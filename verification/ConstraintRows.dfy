// What an edit at a row number does to a constraint tree and to its flat rows.
module ConstraintRows {
  import opened Domain
  import opened Blocks
  import opened OutlineMoves
  import opened ConstraintTree
  import O = Outlines

  /// The tree and its outline agree on rows, sizes, nodes and edits

  lemma {:induction false} ShapeRows(e: Expr, d: nat)
    ensures Flat(e, d) == O.Rows(Shape(e), d)
  {
    if e.Not? {
      ShapeRows(e.inner, d + 1);
      O.RowsOne(Shape(e.inner), d + 1);
    } else if IsGroup(e) {
      forall i | 0 <= i < |e.exprs|
        ensures Flat(e.exprs[i], d + 1) == O.Rows(Shape(e.exprs[i]), d + 1)
      {
        ShapeRows(e.exprs[i], d + 1);
      }
      assert FlatEach(e.exprs, d + 1) == O.RowsEach(Shapes(e.exprs), d + 1);
    }
  }

  lemma {:induction false} ShapeSize(e: Expr)
    ensures Size(e) == O.Size(Shape(e))
  {
    if e.Not? {
      ShapeSize(e.inner);
      SumOne(Size(e.inner));
      assert O.Sizes(Shape(e).kids) == [Size(e.inner)];
    } else if IsGroup(e) {
      ShapeSizes(e.exprs);
    }
  }

  lemma {:induction false} ShapeSizes(es: seq<Expr>)
    ensures Sizes(es) == O.Sizes(Shapes(es))
  {
    forall i | 0 <= i < |es|
      ensures Size(es[i]) == O.Size(Shape(es[i]))
    {
      ShapeSize(es[i]);
    }
  }

  lemma LocateOne(n: nat, k: nat)
    requires k < n
    ensures k < Sum([n]) && Locate([n], k) == (0, k)
  {
    SumOne(n);
    assert [n][..0] == [];
  }

  /** In both readings, row `k` lies in the same child. */
  lemma SameKid(e: Expr, k: nat)
    requires 0 < k < Size(e)
    ensures e.Not? || IsGroup(e)
    ensures k < O.Size(Shape(e))
    ensures e.Not? ==> k - 1 < Size(e.inner)
    ensures IsGroup(e) ==> k - 1 < Sum(Sizes(e.exprs))
    ensures e.Not? ==> Locate(O.Sizes(Shape(e).kids), k - 1) == (0, k - 1)
    ensures IsGroup(e) ==> O.Sizes(Shape(e).kids) == Sizes(e.exprs)
  {
    ShapeSize(e);
    if e.Not? {
      ShapeSize(e.inner);
      assert O.Sizes(Shape(e).kids) == [Size(e.inner)];
      LocateOne(Size(e.inner), k - 1);
    } else {
      ShapeSizes(e.exprs);
    }
  }

  function OptShape(e: Option<Expr>): Option<O.Outline<RowKind>> {
    if e.Some? then Some(Shape(e.value)) else None
  }

  lemma {:induction false} ShapeNode(e: Expr, k: nat)
    ensures O.NodeAt(Shape(e), k) == OptShape(NodeAt(e, k))
  {
    hide Size, O.Size, Sum, Start, Locate;
    ShapeSize(e);
    if 0 < k < Size(e) {
      SameKid(e, k);
      if e.Not? {
        ShapeNode(e.inner, k - 1);
      } else {
        var (i, off) := Locate(Sizes(e.exprs), k - 1);
        ShapeNode(e.exprs[i], off);
      }
    }
  }

  lemma AroundOne<T>(x: T, ys: seq<T>)
    ensures O.Around([x], 0, ys) == ys
  {
  }

  lemma {:induction false} ShapeReplace(e: Expr, k: nat, r: Expr)
    ensures O.Put(Shape(e), k, [Shape(r)]) == [Shape(ReplaceAt(e, k, r))]
  {
    hide Size, O.Size, Sum, Start, Locate, O.Around;
    ShapeSize(e);
    if 0 < k < Size(e) {
      SameKid(e, k);
      if e.Not? {
        ShapeReplace(e.inner, k - 1, r);
        AroundOne(Shape(e.inner), [Shape(ReplaceAt(e.inner, k - 1, r))]);
      } else {
        var (i, off) := Locate(Sizes(e.exprs), k - 1);
        ShapeReplace(e.exprs[i], off, r);
        ShapesAround(e.exprs, i, Some(ReplaceAt(e.exprs[i], off, r)));
      }
    }
  }

  lemma ShapesAround(es: seq<Expr>, i: nat, kid: Option<Expr>)
    requires i < |es|
    ensures Shapes(PutKid(es, i, kid)) == O.Around(Shapes(es), i, Shapes(OptSeq(kid)))
    ensures kid.Some? ==> Shapes(OptSeq(kid)) == [Shape(kid.value)]
    ensures kid.None? ==> Shapes(OptSeq(kid)) == []
  {
    hide Shapes;
    ShapesBoth(es[..i] + OptSeq(kid), es[i + 1..]);
    ShapesBoth(es[..i], OptSeq(kid));
    ShapesTake(es, i);
    ShapesDrop(es, i + 1);
    ShapesFew(kid);
  }

  lemma ShapesTake(es: seq<Expr>, i: nat)
    requires i <= |es|
    ensures |Shapes(es)| == |es| && Shapes(es[..i]) == Shapes(es)[..i]
  {
  }

  lemma ShapesDrop(es: seq<Expr>, i: nat)
    requires i <= |es|
    ensures |Shapes(es)| == |es| && Shapes(es[i..]) == Shapes(es)[i..]
  {
  }

  lemma ShapesFew(kid: Option<Expr>)
    ensures Shapes(OptSeq(kid)) == if kid.Some? then [Shape(kid.value)] else []
  {
  }

  lemma ShapesBoth(a: seq<Expr>, b: seq<Expr>)
    ensures Shapes(a + b) == Shapes(a) + Shapes(b)
  {
  }

  /** The node at row `k` is the operand of a negation. */
  predicate IsOperand(e: Expr, k: nat) {
    k > 0 && NodeAt(e, k - 1).Some? && NodeAt(e, k - 1).value.Not?
  }

  lemma LastNode(e: Expr)
    ensures !IsOperand(e, Size(e))
  {
    hide NodeAt, O.NodeAt, Size, O.Size;
    ShapeSize(e);
    ShapeNode(e, Size(e) - 1);
    O.LastNode(Shape(e));
  }

  /** The row just before row `off` of block `i`. */
  lemma LocatePrevious(sizes: seq<nat>, k: nat)
    requires 0 < k < Sum(sizes) && forall i :: 0 <= i < |sizes| ==> sizes[i] > 0
    ensures var (i, off) := Locate(sizes, k);
      && (off == 0 ==> i > 0)
      && Locate(sizes, k - 1) == if off > 0 then (i, off - 1) else (i - 1, sizes[i - 1] - 1)
  {
    var (i, off) := Locate(sizes, k);
    if off > 0 {
      LocateUnique(sizes, k - 1, i);
    } else {
      StartOfFirst(sizes);
      StartNext(sizes, i - 1);
      LocateUnique(sizes, k - 1, i - 1);
    }
  }

  /** A row just before a child of a group is never a negation. */
  lemma NegatedInGroup(e: Expr, k: nat)
    requires IsGroup(e) && 0 < k < Size(e)
    ensures var (i, off) := Locate(Sizes(e.exprs), k - 1);
      IsOperand(e, k) == IsOperand(e.exprs[i], off)
  {
    hide Sum, Start, Locate;
    if k > 1 {
      LocatePrevious(Sizes(e.exprs), k - 1);
      var (i, off) := Locate(Sizes(e.exprs), k - 1);
      if off == 0 {
        LastNode(e.exprs[i - 1]);
      }
    }
  }

  /** Erasing row `k` drops its node; an erased operand makes way for `Always` together with its negation. */
  ghost predicate ErasesNode(e: Expr, k: nat) {
    && EraseAt(e, k).Some?
    && [Shape(EraseAt(e, k).value)]
         == if IsOperand(e, k) then O.Put(Shape(e), k - 1, [Shape(Always)]) else O.Put(Shape(e), k, [])
  }

  lemma {:induction false} ShapeErase(e: Expr, k: nat)
    requires 0 < k < Size(e)
    ensures ErasesNode(e, k)
  {
    if e.Not? {
      ShapeEraseUnderNot(e, k);
    } else {
      ShapeEraseInGroup(e, k);
    }
  }

  lemma {:induction false} ShapeEraseUnderNot(e: Expr, k: nat)
    requires e.Not? && 0 < k < Size(e)
    ensures ErasesNode(e, k)
    decreases e, 0
  {
    hide Shape, O.Put, PutAt, NodeAt, Size;
    UnderNot(e, k);
    if k > 1 {
      ShapeErase(e.inner, k - 1);
      PutUnderNot(e, k, []);
      PutUnderNot(e, k - 1, [Shape(Always)]);
      if IsOperand(e, k) {
        NegatedRow(e.inner, k - 1);
      }
      NotOf(EraseAt(e.inner, k - 1).value);
    }
  }

  lemma UnderNot(e: Expr, k: nat)
    requires e.Not? && 0 < k < Size(e)
    ensures Size(e) == 1 + Size(e.inner)
    ensures NodeAt(e, 0) == Some(e) && (k > 1 ==> NodeAt(e, k - 1) == NodeAt(e.inner, k - 2))
    ensures EraseAt(e, k)
         == Some(if EraseAt(e.inner, k - 1).Some? then Not(EraseAt(e.inner, k - 1).value) else Always)
    ensures EraseAt(e.inner, 0) == None
    ensures O.Put(Shape(e), 0, [Shape(Always)]) == [Shape(Always)]
  {
  }

  lemma NotOf(x: Expr)
    ensures Shape(Not(x)) == O.Node(NotRow, false, [Shape(x)])
  {
  }

  lemma PutUnderNot(e: Expr, k: nat, r: seq<O.Outline<RowKind>>)
    requires e.Not? && 0 < k < Size(e)
    ensures O.Put(Shape(e), k, r) == [O.Node(NotRow, false, O.Put(Shape(e.inner), k - 1, r))]
  {
    SameKid(e, k);
    AroundOne(Shape(e.inner), O.Put(Shape(e.inner), k - 1, r));
  }

  lemma {:induction false} ShapeEraseInGroup(e: Expr, k: nat)
    requires IsGroup(e) && 0 < k < Size(e)
    ensures ErasesNode(e, k)
    decreases e, 0
  {
    hide Sum, Start, Locate, O.Around, PutKid, IsOperand, Shape, O.Put, PutAt;
    var (i, off) := Locate(Sizes(e.exprs), k - 1);
    var x := e.exprs[i];
    NegatedInGroup(e, k);
    EraseInGroup(e, k);
    ShapePutInGroup(e, k, []);
    if off > 0 {
      ShapeErase(x, off);
      if IsOperand(x, off) {
        NegatedRow(x, off);
        LocatePrevious(Sizes(e.exprs), k - 1);
        ShapePutInGroup(e, k - 1, [Shape(Always)]);
      }
    } else {
      NegatedRow(x, 0);
      EraseRoot(x);
    }
  }

  lemma NegatedRow(e: Expr, k: nat)
    ensures IsOperand(e, k) ==> k > 0
  {
  }

  lemma EraseRoot(e: Expr)
    ensures EraseAt(e, 0) == None && O.Put(Shape(e), 0, []) == []
  {
  }

  lemma EraseInGroup(e: Expr, k: nat)
    requires IsGroup(e) && 0 < k < Size(e)
    ensures var (i, off) := Locate(Sizes(e.exprs), k - 1);
      var kid := EraseAt(e.exprs[i], off);
      && EraseAt(e, k).Some?
      && Shape(EraseAt(e, k).value) == O.Node(Shape(e).kind, true, O.Around(Shapes(e.exprs), i, Shapes(OptSeq(kid))))
      && Shapes(OptSeq(kid)) == if kid.Some? then [Shape(kid.value)] else []
  {
    var (i, off) := Locate(Sizes(e.exprs), k - 1);
    ShapesAround(e.exprs, i, EraseAt(e.exprs[i], off));
  }

  lemma ShapePutInGroup(e: Expr, k: nat, r: seq<O.Outline<RowKind>>)
    requires IsGroup(e) && 0 < k < Size(e)
    ensures var (i, off) := Locate(Sizes(e.exprs), k - 1);
      O.Put(Shape(e), k, r)
        == [O.Node(Shape(e).kind, true, O.Around(Shapes(e.exprs), i, O.Put(Shape(e.exprs[i]), off, r)))]
  {
    SameKid(e, k);
  }

  lemma {:induction false} ShapeInjective(a: Expr, b: Expr)
    requires Shape(a) == Shape(b)
    ensures a == b
  {
    if a.Not? {
      ShapeInjective(a.inner, b.inner);
    } else if IsGroup(a) {
      assert |a.exprs| == |Shapes(a.exprs)| == |b.exprs|;
      forall i | 0 <= i < |a.exprs|
        ensures a.exprs[i] == b.exprs[i]
      {
        assert Shapes(a.exprs)[i] == Shapes(b.exprs)[i];
        ShapeInjective(a.exprs[i], b.exprs[i]);
      }
    }
  }

  lemma {:induction false} ShapeMove(e: Expr, k: nat, up: bool)
    ensures Shape(MoveAt(e, k, up)) == Move(Shape(e), k, up)
  {
    hide Size, O.Size, Sum, Start, Locate, Swapped;
    ShapeSize(e);
    if 0 < k < Size(e) {
      SameKid(e, k);
      if e.Not? {
        ShapeMove(e.inner, k - 1, up);
      } else {
        var (i, off) := Locate(Sizes(e.exprs), k - 1);
        ShapeMove(e.exprs[i], off, up);
        ShapesMoved(e.exprs, i, MoveAt(e.exprs[i], off, up));
      }
    }
  }

  lemma ShapesMoved(es: seq<Expr>, i: nat, x: Expr)
    requires i < |es|
    ensures Shapes(es[i := x]) == Shapes(es)[i := Shape(x)]
    ensures forall j: nat :: j < |es| ==> Shapes(Swapped(es, i, j)) == Swapped(Shapes(es), i, j)
  {
  }

  /// Results for the editor's whole list

  /** The node at row `k`, whose rows are the `n` rows from `k` on. */
  ghost predicate Owns(e: Expr, k: nat, n: nat) {
    var rows := Flat(e, 0);
    && NodeAt(e, k).Some? && n == Size(NodeAt(e, k).value) && k + n <= |rows|
    && rows[k..k + n] == Flat(NodeAt(e, k).value, rows[k].depth)
  }

  lemma NodeOwnsRows(e: Expr, k: nat)
    requires k < Size(e)
    ensures NodeAt(e, k).Some? && Owns(e, k, Size(NodeAt(e, k).value))
  {
    hide Flat, Size, NodeAt, Shape, O.Rows, O.Size, O.NodeAt;
    ShapeRows(e, 0);
    ShapeSize(e);
    ShapeNode(e, k);
    O.NodeOwnsRows(Shape(e), k, 0);
    ShapeSize(NodeAt(e, k).value);
    ShapeRows(NodeAt(e, k).value, Flat(e, 0)[k].depth);
  }

  /** A row shows what stands there: the kind of its node, and the configuration of a leaf. */
  lemma RowShowsNode(e: Expr, k: nat)
    requires k < Size(e)
    ensures k < |Flat(e, 0)| && NodeAt(e, k).Some?
    ensures var kind := Flat(e, 0)[k].kind;
      match NodeAt(e, k).value
      case Always => kind == AlwaysRow
      case Leaf(c) => kind == LeafRow(c)
      case Not(_) => kind == NotRow
      case All(_) => kind == AllRow
      case Any(_) => kind == AnyRow
  {
    hide Size, NodeAt;
    NodeOwnsRows(e, k);
    NodeInside(e, k);
    var n := NodeAt(e, k).value;
    NodeSize(n);
    assert Flat(e, 0)[k..k + Size(n)][0] == Flat(e, 0)[k];
  }

  lemma NodeSize(e: Expr)
    ensures Size(e) > 0
  {
  }

  lemma NodeInside(e: Expr, k: nat)
    requires NodeAt(e, k).Some?
    ensures k < Size(e) && Size(NodeAt(e, k).value) > 0
  {
  }

  lemma ReplaceSplices(e: Expr, k: nat, r: Expr, n: nat)
    requires Owns(e, k, n)
    ensures Flat(ReplaceAt(e, k, r), 0) == Spliced(Flat(e, 0), k, k + n, Flat(r, Flat(e, 0)[k].depth))
  {
    hide Flat, Size, NodeAt, ReplaceAt, Spliced, Shape, O.Put, O.Rows, O.RowsOf, O.Size, O.NodeAt;
    NodeInside(e, k);
    var d := Flat(e, 0)[k].depth;
    ShapeSize(NodeAt(e, k).value);
    ShapeSize(e);
    ShapeRows(e, 0);
    ShapeRows(r, d);
    ShapeRows(ReplaceAt(e, k, r), 0);
    ShapeNode(e, k);
    ShapeReplace(e, k, r);
    O.PutSplicesRows(Shape(e), k, [Shape(r)], 0);
    O.RowsOne(Shape(r), d);
    O.RowsOne(Shape(ReplaceAt(e, k, r)), 0);
  }

  lemma LeafFacts(e: Expr, k: nat, n: nat)
    requires Owns(e, k, n)
    ensures k < |Flat(e, 0)|
    ensures NodeAt(e, k).value.Leaf? <==> Flat(e, 0)[k].kind.LeafRow?
    ensures NodeAt(e, k).value.Leaf? ==> n == 1
    ensures NodeAt(e, k).value.Not? <==> Flat(e, 0)[k].kind.NotRow?
  {
    assert Flat(e, 0)[k..k + n][0] == Flat(e, 0)[k];
  }

  lemma LeafRows(c: ConstraintConfig, d: nat)
    ensures Flat(Leaf(c), d) == [O.Row(d, LeafRow(c))]
  {
  }

  lemma RowCount(e: Expr)
    ensures |Flat(e, 0)| == Size(e)
  {
    ShapeRows(e, 0);
    ShapeSize(e);
    O.SizeCountsRows(Shape(e), 0);
  }

  /** Updating row `k` replaces that row when it shows a leaf, and is the identity at any other row number. */
  lemma UpdateChangesOneRow(e: Expr, k: nat, c: ConstraintConfig)
    ensures var rows := Flat(e, 0);
      if k < |rows| && rows[k].kind.LeafRow?
      then Flat(UpdateAt(e, k, c), 0) == rows[k := O.Row(rows[k].depth, LeafRow(c))]
      else UpdateAt(e, k, c) == e
  {
    hide Flat, Size, NodeAt, ReplaceAt, Spliced;
    RowCount(e);
    if k < Size(e) {
      NodeOwnsRows(e, k);
      var n := Size(NodeAt(e, k).value);
      LeafFacts(e, k, n);
      ReplaceSplices(e, k, Leaf(c), n);
      LeafRows(c, Flat(e, 0)[k].depth);
      SpliceOne(Flat(e, 0), k, O.Row(Flat(e, 0)[k].depth, LeafRow(c)));
    } else {
      NoNodeOutside(e, k);
    }
  }

  lemma NoNodeOutside(e: Expr, k: nat)
    requires k >= Size(e)
    ensures NodeAt(e, k) == None
  {
  }

  predicate WrapsNothing(node: Expr, kind: WrapKind) {
    kind.OtherKind? || (kind.And? && node.All?) || (kind.Or? && node.Any?)
  }

  function TopRow(kind: WrapKind, d: nat): Row {
    O.Row(d, match kind case And => AllRow case Or => AnyRow case _ => NotRow)
  }

  lemma WrapRows(node: Expr, kind: WrapKind, d: nat)
    ensures Flat(WrapExpr(node, kind), d)
         == if WrapsNothing(node, kind) then Flat(node, d) else [TopRow(kind, d)] + Flat(node, d + 1)
  {
    assert FlatEach([node], d + 1) == [Flat(node, d + 1)];
    ConcatOne(Flat(node, d + 1));
  }

  lemma SpliceSame<T>(rows: seq<T>, from: nat, to: nat)
    requires from <= to <= |rows|
    ensures Spliced(rows, from, to, rows[from..to]) == rows
  {
  }

  /** Wrapping row `k` puts one group or negation row above the subtree's rows, which move one level in;
      a group already of the wanted kind stays as it is. */
  lemma WrapInsertsOneRow(e: Expr, k: nat, kind: WrapKind)
    requires k < Size(e)
    ensures NodeAt(e, k).Some? && Owns(e, k, Size(NodeAt(e, k).value))
    ensures var (rows, node) := (Flat(e, 0), NodeAt(e, k).value);
      Flat(WrapAt(e, k, kind), 0) ==
        if WrapsNothing(node, kind) then rows
        else Spliced(rows, k, k + Size(node), [TopRow(kind, rows[k].depth)] + Flat(node, rows[k].depth + 1))
  {
    hide Flat, NodeAt, Size, ReplaceAt, Spliced, WrapExpr, WrapsNothing;
    NodeOwnsRows(e, k);
    var (rows, node) := (Flat(e, 0), NodeAt(e, k).value);
    ReplaceSplices(e, k, WrapExpr(node, kind), Size(node));
    WrapRows(node, kind, rows[k].depth);
    SpliceSame(rows, k, k + Size(node));
  }

  /** Erasing row `k` removes exactly the rows of its subtree; a negation that loses its operand becomes one
      `Always` row. */
  lemma EraseRemovesRows(e: Expr, k: nat)
    requires 0 < k < Size(e)
    ensures NodeAt(e, k).Some? && Owns(e, k, Size(NodeAt(e, k).value)) && EraseAt(e, k).Some?
    ensures var (rows, to) := (Flat(e, 0), k + Size(NodeAt(e, k).value));
      Flat(EraseAt(e, k).value, 0) ==
        if rows[k - 1].kind.NotRow? then Spliced(rows, k - 1, to, [O.Row(rows[k - 1].depth, AlwaysRow)])
        else Spliced(rows, k, to, [])
  {
    hide Flat, Size, NodeAt, PutAt, Spliced, Shape, O.Put, O.Rows, O.RowsOf, O.Size, O.NodeAt;
    NodeOwnsRows(e, k);
    NodeOwnsRows(e, k - 1);
    LeafFacts(e, k - 1, Size(NodeAt(e, k - 1).value));
    ShapeErase(e, k);
    ShapeRows(EraseAt(e, k).value, 0);
    O.RowsOne(Shape(EraseAt(e, k).value), 0);
    if IsOperand(e, k) {
      OperandRows(e, k);
    } else {
      DroppedRows(e, k);
    }
  }

  lemma DroppedRows(e: Expr, k: nat)
    requires k < Size(e) && NodeAt(e, k).Some?
    ensures k + Size(NodeAt(e, k).value) <= |Flat(e, 0)|
    ensures O.RowsOf(O.Put(Shape(e), k, []), 0) == Spliced(Flat(e, 0), k, k + Size(NodeAt(e, k).value), [])
  {
    hide Flat, Size, NodeAt, Spliced, Shape, O.Put, O.Rows, O.Size, O.NodeAt;
    ShapeRows(e, 0);
    ShapeSize(e);
    ShapeNode(e, k);
    ShapeSize(NodeAt(e, k).value);
    O.PutSplicesRows(Shape(e), k, [], 0);
  }

  /** The rows of a negation are its own row and its operand's rows. */
  lemma OperandRows(e: Expr, k: nat)
    requires k < Size(e) && IsOperand(e, k)
    ensures NodeAt(e, k).Some? && k + Size(NodeAt(e, k).value) <= |Flat(e, 0)|
    ensures O.RowsOf(O.Put(Shape(e), k - 1, [Shape(Always)]), 0)
         == Spliced(Flat(e, 0), k - 1, k + Size(NodeAt(e, k).value), [O.Row(Flat(e, 0)[k - 1].depth, AlwaysRow)])
  {
    hide Flat, Size, NodeAt, Spliced, Shape, O.Put, O.Rows, O.RowsOf, O.Size, O.NodeAt;
    OperandSize(e, k);
    ShapeRows(e, 0);
    ShapeSize(e);
    O.PutSplicesRows(Shape(e), k - 1, [Shape(Always)], 0);
    AlwaysRows(Flat(e, 0)[k - 1].depth);
  }

  lemma AlwaysRows(d: nat)
    ensures O.RowsOf([Shape(Always)], d) == [O.Row(d, AlwaysRow)]
  {
    O.RowsOne(Shape(Always), d);
    assert O.RowsEach<RowKind>([], d + 1) == [];
  }

  lemma OperandSize(e: Expr, k: nat)
    requires IsOperand(e, k)
    ensures NodeAt(e, k).Some? && O.NodeSize(Shape(e), k - 1) == 1 + Size(NodeAt(e, k).value)
  {
    hide Size, O.Size, Shape, NodeAt, O.NodeAt;
    NotShape(NodeAt(e, k - 1).value);
    ShapeNode(e, k - 1);
    ShapeNode(e, k);
    O.FirstKid(Shape(e), k - 1);
    ShapeSize(NodeAt(e, k).value);
  }

  lemma NotShape(not: Expr)
    requires not.Not?
    ensures Shape(not).kids == [Shape(not.inner)] && O.Size(Shape(not)) == 1 + O.Size(Shape(not.inner))
  {
    assert O.Sizes(Shape(not).kids) == [O.Size(Shape(not.inner))];
    SumOne(O.Size(Shape(not.inner)));
  }
}
