// The workflow tree, its flat rows and its edits as functions of a row number (crates/app/src/tree_model.rs).
module WorkflowTree {
  import opened Domain
  import opened Blocks
  import opened OutlineMoves
  import O = Outlines

  type Node = WorkflowNode

  /// Rows

  /** A row carries what its node carries besides subtrees. */
  datatype RowKind =
    | ActionRow(action: ActionConfig)
    | SeqRow
    | ParallelRow
    | IfRow(cond: ConstraintExpr)
    | ThenRow
    | ElseRow
    | WhileRow(cond: ConstraintExpr, maxIter: nat)
    | ForEachRow(items: Value, varName: string)
    | RetryRow(times: nat, backoffMs: nat)
    | TimeoutRow(millis: nat)
    | WaitRow(waitMs: nat)

  type Row = O.Row<RowKind>

  predicate IsList(n: Node) {
    n.Seq? || n.Parallel?
  }

  function WithKids(n: Node, kids: seq<Node>): (r: Node)
    requires IsList(n)
    ensures IsList(r) && r.kids == kids && (r.Seq? <==> n.Seq?)
  {
    if n.Seq? then Seq(kids) else Parallel(kids)
  }

  function KindOf(n: Node): RowKind {
    match n
    case Action(a) => ActionRow(a)
    case Seq(_) => SeqRow
    case Parallel(_) => ParallelRow
    case IfElse(c, _, _) => IfRow(c)
    case While(c, _, max) => WhileRow(c, max)
    case ForEach(items, v, _) => ForEachRow(items, v)
    case Retry(_, times, backoff) => RetryRow(times, backoff)
    case Timeout(_, ms) => TimeoutRow(ms)
    case Wait(ms) => WaitRow(ms)
  }

  function Flat(n: Node, depth: nat): seq<Row> {
    var head := [O.Row(depth, KindOf(n))];
    if IsList(n) then head + Concat(FlatEach(n.kids, depth + 1))
    else if n.IfElse? then
      head + [O.Row(depth + 1, ThenRow)] + Flat(n.thenNode, depth + 2)
        + match n.otherwise
          case Some(e) => [O.Row(depth + 1, ElseRow)] + Flat(e, depth + 2)
          case None => []
    else if n.IsWrapper() then head + Flat(n.body, depth + 1)
    else head
  }

  function FlatEach(ns: seq<Node>, depth: nat): seq<seq<Row>> {
    seq(|ns|, i requires 0 <= i < |ns| => Flat(ns[i], depth))
  }

  /** The number of rows of a subtree. */
  function Size(n: Node): (size: nat)
    ensures size >= 1
  {
    if IsList(n) then 1 + Sum(Sizes(n.kids))
    else if n.IfElse? then
      2 + Size(n.thenNode) + match n.otherwise case Some(e) => 1 + Size(e) case None => 0
    else if n.IsWrapper() then 1 + Size(n.body)
    else 1
  }

  function Sizes(ns: seq<Node>): seq<nat> {
    seq(|ns|, i requires 0 <= i < |ns| => Size(ns[i]))
  }

  /// The outline of a tree

  function Shape(n: Node): O.Outline<RowKind> {
    if IsList(n) then O.Node(KindOf(n), true, Shapes(n.kids))
    else if n.IfElse? then
      O.Node(KindOf(n), false,
        [Branch(ThenRow, Shape(n.thenNode))]
          + match n.otherwise case Some(e) => [Branch(ElseRow, Shape(e))] case None => [])
    else if n.IsWrapper() then O.Node(KindOf(n), false, [Shape(n.body)])
    else O.Node(KindOf(n), false, [])
  }

  /** A branch's label stands above the branch. */
  function Branch(head: RowKind, x: O.Outline<RowKind>): O.Outline<RowKind> {
    O.Node(head, false, [x])
  }

  function Shapes(ns: seq<Node>): seq<O.Outline<RowKind>> {
    seq(|ns|, i requires 0 <= i < |ns| => Shape(ns[i]))
  }

  /// Subtrees

  /** Where a row below a node belongs: to a child of a list, a body, a branch, or to a branch's label. */
  datatype Place = Kid(i: nat) | Body | Then | Else | Label

  predicate HasPlace(n: Node, at: Place) {
    match at
    case Kid(i) => IsList(n) && i < |n.kids|
    case Body => n.IsWrapper()
    case Then => n.IfElse?
    case Else => n.IfElse? && n.otherwise.Some?
    case Label => false
  }

  function Sub(n: Node, at: Place): (s: Node)
    requires HasPlace(n, at)
    ensures s < n
  {
    match at
    case Kid(i) => n.kids[i]
    case Body => n.body
    case Then => n.thenNode
    case Else => n.otherwise.value
  }

  /** The place of row `k`, and the row's number within it. */
  function PlaceOf(n: Node, k: nat): (r: (Place, nat))
    requires 0 < k < Size(n)
    ensures r.0.Label? || (HasPlace(n, r.0) && r.1 < Size(Sub(n, r.0)))
  {
    if IsList(n) then
      var (i, off) := Locate(Sizes(n.kids), k - 1);
      (Kid(i), off)
    else if n.IfElse? then
      var t := Size(n.thenNode);
      if k == 1 || k == 2 + t then (Label, 0)
      else if k < 2 + t then (Then, k - 2)
      else (Else, k - 3 - t)
    else (Body, k - 1)
  }

  /** The subtree that starts at row `k`; a branch's label is no node. */
  function NodeAt(n: Node, k: int): Option<Node> {
    if k < 0 || k >= Size(n) then None
    else if k == 0 then Some(n)
    else
      var (at, off) := PlaceOf(n, k);
      if at.Label? then None else NodeAt(Sub(n, at), off)
  }

  /// Edits

  function PutKid(ns: seq<Node>, i: nat, kid: Option<Node>): seq<Node>
    requires i < |ns|
  {
    ns[..i] + OptSeq(kid) + ns[i + 1..]
  }

  /** A body and a then-branch cannot be missing: an empty sequence stands in. */
  function Filled(x: Option<Node>): Node {
    if x.Some? then x.value else Seq([])
  }

  function WithBody(n: Node, b: Node): (r: Node)
    requires n.IsWrapper()
    ensures r.IsWrapper() && r.body == b && (r.ForEach? <==> n.ForEach?)
  {
    match n
    case While(c, _, max) => While(c, b, max)
    case ForEach(items, v, _) => ForEach(items, v, b)
    case Retry(_, times, backoff) => Retry(b, times, backoff)
    case Timeout(_, ms) => Timeout(b, ms)
  }

  function PutSub(n: Node, at: Place, x: Option<Node>): Node
    requires HasPlace(n, at)
  {
    match at
    case Kid(i) => WithKids(n, PutKid(n.kids, i, x))
    case Body => WithBody(n, Filled(x))
    case Then => n.(thenNode := Filled(x))
    case Else => n.(otherwise := x)
  }

  lemma PutBack(n: Node, at: Place)
    requires HasPlace(n, at)
    ensures PutSub(n, at, Some(Sub(n, at))) == n
  {
    if at.Kid? {
      assert PutKid(n.kids, at.i, Some(n.kids[at.i])) == n.kids;
    }
  }

  /** Put `r` where the subtree at row `k` is, or nothing. Labels and rows outside the tree leave it alone. */
  function PutAt(n: Node, k: int, r: Option<Node>): Option<Node> {
    if k < 0 || k >= Size(n) then Some(n)
    else if k == 0 then r
    else
      var (at, off) := PlaceOf(n, k);
      Some(if at.Label? then n else PutSub(n, at, PutAt(Sub(n, at), off, r)))
  }

  lemma PutSome(n: Node, k: int, r: Node)
    ensures PutAt(n, k, Some(r)).Some?
  {
  }

  function ReplaceAt(n: Node, k: int, r: Node): Node {
    PutSome(n, k, r);
    PutAt(n, k, Some(r)).value
  }

  /** Replace the configuration of the action at row `k`; any other row is left alone. */
  function UpdateAt(n: Node, k: int, c: ActionConfig): Node {
    if NodeAt(n, k).Some? && NodeAt(n, k).value.Action? then ReplaceAt(n, k, Action(c)) else n
  }

  /** What is left when the subtree at row `k` is erased. */
  function EraseAt(n: Node, k: int): Option<Node> {
    PutAt(n, k, None)
  }

  /** Bottom-up simplification: a sequence of one becomes its child. Bodies of `ForEach` are not entered. */
  function Collapse(n: Node): Node {
    match n
    case Seq(kids) => SimplifySeq(CollapseEach(kids))
    case Parallel(kids) => Parallel(CollapseEach(kids))
    case IfElse(c, t, o) => IfElse(c, Collapse(t), match o case Some(e) => Some(Collapse(e)) case None => None)
    case While(c, b, max) => While(c, Collapse(b), max)
    case Retry(b, times, backoff) => Retry(Collapse(b), times, backoff)
    case Timeout(b, ms) => Timeout(Collapse(b), ms)
    case _ => n
  }

  function CollapseEach(ns: seq<Node>): seq<Node> {
    seq(|ns|, i requires 0 <= i < |ns| => Collapse(ns[i]))
  }

  function SimplifySeq(kids: seq<Node>): Node {
    if |kids| == 1 then kids[0] else Seq(kids)
  }

  /** What the delete walk leaves when it erases the subtree at row `k`: it collapses all that it walks over. */
  function Deleted(n: Node, k: int): Option<Node> {
    var kept := EraseAt(n, k);
    if kept.Some? then Some(Collapse(kept.value)) else None
  }

  /** Swap the node at row `k` with its previous or next sibling in a sequence or a parallel block. */
  function MoveAt(n: Node, k: int, up: bool): Node {
    if k <= 0 || k >= Size(n) then n
    else
      var (at, off) := PlaceOf(n, k);
      if at.Label? then n
      else if at.Kid? && off == 0 then
        var j := Partner(at.i, |n.kids|, up);
        if j.Some? then WithKids(n, Swapped(n.kids, at.i, j.value)) else n
      else PutSub(n, at, Some(MoveAt(Sub(n, at), off, up)))
  }

  /** Append a node: it joins a sequence at the root, and follows anything else in a new sequence. */
  function AddNode(n: Node, x: Node): Node {
    if n.Seq? then Seq(n.kids + [x]) else Seq([n, x])
  }
}
