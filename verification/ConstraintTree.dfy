// The constraint tree, its flat rows and its edits as functions of a row number (crates/app/src/tree_model.rs).
module ConstraintTree {
  import opened Domain
  import opened Blocks
  import opened OutlineMoves
  import O = Outlines

  type Expr = ConstraintExpr

  /// Rows

  datatype RowKind = AlwaysRow | LeafRow(config: ConstraintConfig) | NotRow | AllRow | AnyRow

  type Row = O.Row<RowKind>

  function Flat(e: Expr, depth: nat): seq<Row> {
    match e
    case Always => [O.Row(depth, AlwaysRow)]
    case Leaf(c) => [O.Row(depth, LeafRow(c))]
    case Not(x) => [O.Row(depth, NotRow)] + Flat(x, depth + 1)
    case All(es) => [O.Row(depth, AllRow)] + Concat(FlatEach(es, depth + 1))
    case Any(es) => [O.Row(depth, AnyRow)] + Concat(FlatEach(es, depth + 1))
  }

  function FlatEach(es: seq<Expr>, depth: nat): seq<seq<Row>> {
    seq(|es|, i requires 0 <= i < |es| => Flat(es[i], depth))
  }

  /** The number of rows of a subtree. */
  function Size(e: Expr): (n: nat)
    ensures n >= 1
  {
    match e
    case Always => 1
    case Leaf(_) => 1
    case Not(x) => 1 + Size(x)
    case All(es) => 1 + Sum(Sizes(es))
    case Any(es) => 1 + Sum(Sizes(es))
  }

  function Sizes(es: seq<Expr>): seq<nat> {
    seq(|es|, i requires 0 <= i < |es| => Size(es[i]))
  }

  /// Groups: `All` and `Any` are handled alike

  predicate IsGroup(e: Expr) {
    e.All? || e.Any?
  }

  function WithKids(e: Expr, kids: seq<Expr>): (r: Expr)
    requires IsGroup(e)
    ensures IsGroup(r) && r.exprs == kids && (r.All? <==> e.All?)
  {
    if e.All? then All(kids) else Any(kids)
  }

  /// The outline of a tree

  function Shape(e: Expr): O.Outline<RowKind> {
    match e
    case Always => O.Node(AlwaysRow, false, [])
    case Leaf(c) => O.Node(LeafRow(c), false, [])
    case Not(x) => O.Node(NotRow, false, [Shape(x)])
    case All(es) => O.Node(AllRow, true, Shapes(es))
    case Any(es) => O.Node(AnyRow, true, Shapes(es))
  }

  function Shapes(es: seq<Expr>): seq<O.Outline<RowKind>> {
    seq(|es|, i requires 0 <= i < |es| => Shape(es[i]))
  }

  /// Nodes by row number

  /** The subtree that starts at row `k`. */
  function NodeAt(e: Expr, k: int): Option<Expr> {
    if k < 0 || k >= Size(e) then None
    else if k == 0 then Some(e)
    else if e.Not? then NodeAt(e.inner, k - 1)
    else
      var (i, off) := Locate(Sizes(e.exprs), k - 1);
      NodeAt(e.exprs[i], off)
  }

  /// Edits

  /** `es` with child `i` replaced, or dropped. */
  function PutKid(es: seq<Expr>, i: nat, kid: Option<Expr>): seq<Expr>
    requires i < |es|
  {
    es[..i] + OptSeq(kid) + es[i + 1..]
  }

  /** Put `r` where the subtree at row `k` is, or nothing: a group then loses the child and a negation
      becomes `Always`. Rows outside the tree leave it alone. */
  function PutAt(e: Expr, k: int, r: Option<Expr>): Option<Expr> {
    if k < 0 || k >= Size(e) then Some(e)
    else if k == 0 then r
    else if e.Not? then
      var x := PutAt(e.inner, k - 1, r);
      Some(if x.Some? then Not(x.value) else Always)
    else
      var (i, off) := Locate(Sizes(e.exprs), k - 1);
      Some(WithKids(e, PutKid(e.exprs, i, PutAt(e.exprs[i], off, r))))
  }

  lemma {:induction false} PutSome(e: Expr, k: int, r: Expr)
    ensures PutAt(e, k, Some(r)).Some?
  {
  }

  function ReplaceAt(e: Expr, k: int, r: Expr): Expr {
    PutSome(e, k, r);
    PutAt(e, k, Some(r)).value
  }

  lemma ReplaceInGroup(e: Expr, k: nat, r: Expr)
    requires IsGroup(e) && 0 < k < Size(e)
    ensures var (i, off) := Locate(Sizes(e.exprs), k - 1);
      ReplaceAt(e, k, r) == WithKids(e, e.exprs[i := ReplaceAt(e.exprs[i], off, r)])
  {
    var (i, off) := Locate(Sizes(e.exprs), k - 1);
    var x := ReplaceAt(e.exprs[i], off, r);
    PutSome(e.exprs[i], off, r);
    assert PutKid(e.exprs, i, Some(x)) == e.exprs[i := x];
  }

  /** Replace the configuration of the leaf at row `k`; any other row is left alone. */
  function UpdateAt(e: Expr, k: int, c: ConstraintConfig): Expr {
    if NodeAt(e, k).Some? && NodeAt(e, k).value.Leaf? then ReplaceAt(e, k, Leaf(c)) else e
  }

  /** What is left when the subtree at row `k` is erased. */
  function EraseAt(e: Expr, k: int): Option<Expr> {
    PutAt(e, k, None)
  }

  /** Bottom-up simplification: an empty group becomes `Always`, a group of one becomes its child. */
  function Collapse(e: Expr): Expr {
    match e
    case Always => e
    case Leaf(_) => e
    case Not(x) => Not(Collapse(x))
    case All(es) => SimplifyAnd(CollapseEach(es))
    case Any(es) => SimplifyOr(CollapseEach(es))
  }

  function CollapseEach(es: seq<Expr>): seq<Expr> {
    seq(|es|, i requires 0 <= i < |es| => Collapse(es[i]))
  }

  function SimplifyAnd(kids: seq<Expr>): Expr {
    if |kids| == 0 then Always else if |kids| == 1 then kids[0] else All(kids)
  }

  function SimplifyOr(kids: seq<Expr>): Expr {
    if |kids| == 0 then Always else if |kids| == 1 then kids[0] else Any(kids)
  }

  /** What the editor's delete button does. */
  function DeleteAt(e: Expr, k: nat): Expr {
    var kept := EraseAt(e, k);
    if kept.Some? then Collapse(kept.value) else Always
  }

  datatype WrapKind = And | Or | Negate | OtherKind

  function WrapExpr(e: Expr, kind: WrapKind): Expr {
    match kind
    case And => if e.All? then e else All([e])
    case Or => if e.Any? then e else Any([e])
    case Negate => Not(e)
    case OtherKind => e
  }

  /** Wrap the subtree at row `k`. */
  function WrapAt(e: Expr, k: int, kind: WrapKind): Expr {
    if NodeAt(e, k).Some? then ReplaceAt(e, k, WrapExpr(NodeAt(e, k).value, kind)) else e
  }

  /** Swap the node at row `k` with its previous or next sibling. */
  function MoveAt(e: Expr, k: int, up: bool): Expr {
    if k <= 0 || k >= Size(e) then e
    else if e.Not? then Not(MoveAt(e.inner, k - 1, up))
    else
      var es := e.exprs;
      var (i, off) := Locate(Sizes(es), k - 1);
      var j := Partner(i, |es|, up);
      WithKids(e,
        if off > 0 then es[i := MoveAt(es[i], off, up)]
        else if j.Some? then Swapped(es, i, j.value) else es)
  }

  /** Append a leaf: it takes the place of `Always`, joins an AND at the root, and is ANDed to anything else. */
  function AddLeaf(e: Expr, c: ConstraintConfig): Expr {
    match e
    case Always => Leaf(c)
    case All(es) => All(es + [Leaf(c)])
    case _ => All([e, Leaf(c)])
  }
}
