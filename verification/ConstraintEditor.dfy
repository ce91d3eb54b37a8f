// The constraint editor's walks as the source writes them: recursion with a running row counter, and loops that
// rebuild a group's children (crates/app/src/tree_model.rs).
module ConstraintEditor {
  import opened Domain
  import opened Blocks
  import opened OutlineMoves
  import opened ConstraintTree
  import opened ConstraintRows
  import O = Outlines

  /// Flattening

  method FlattenConstraint(expr: Expr) returns (rows: seq<Row>)
    ensures rows == Flat(expr, 0)
  {
    rows := FlattenConstraintRec(expr, 0, []);
  }

  method FlattenConstraintRec(expr: Expr, depth: nat, before: seq<Row>) returns (rows: seq<Row>)
    ensures rows == before + Flat(expr, depth)
    decreases expr
  {
    rows := before;
    match expr
    case Always =>
      rows := rows + [O.Row(depth, AlwaysRow)];
    case Leaf(c) =>
      rows := rows + [O.Row(depth, LeafRow(c))];
    case Not(inner) =>
      rows := rows + [O.Row(depth, NotRow)];
      rows := FlattenConstraintRec(inner, depth + 1, rows);
    case All(exprs) =>
      rows := rows + [O.Row(depth, AllRow)];
      rows := FlattenKids(exprs, depth + 1, rows);
    case Any(exprs) =>
      rows := rows + [O.Row(depth, AnyRow)];
      rows := FlattenKids(exprs, depth + 1, rows);
  }

  method FlattenKids(exprs: seq<Expr>, depth: nat, before: seq<Row>) returns (rows: seq<Row>)
    ensures rows == before + Concat(FlatEach(exprs, depth))
    decreases exprs
  {
    rows := before;
    var blocks := FlatEach(exprs, depth);
    for i := 0 to |exprs|
      invariant rows == before + Concat(blocks[..i])
    {
      rows := FlattenConstraintRec(exprs[i], depth, rows);
      ConcatNext(blocks, i);
    }
    assert blocks[..|exprs|] == blocks;
  }

  /// Updating a leaf

  function UpdateEach(es: seq<Expr>, k: int, c: ConstraintConfig): seq<Expr> {
    seq(|es|, i requires 0 <= i < |es| => UpdateAt(es[i], k - Start(Sizes(es), i), c))
  }

  lemma UpdateOutside(e: Expr, k: int, c: ConstraintConfig)
    requires k < 0 || k >= Size(e)
    ensures UpdateAt(e, k, c) == e
  {
  }

  lemma UpdateInGroup(e: Expr, k: int, c: ConstraintConfig)
    requires IsGroup(e)
    ensures UpdateAt(e, k, c) == WithKids(e, UpdateEach(e.exprs, k - 1, c))
  {
    hide Sum, Start, Locate, UpdateAt;
    var (es, sizes) := (e.exprs, Sizes(e.exprs));
    forall j | 0 <= j < |es| && (k < 1 || k >= Size(e) || Locate(sizes, k - 1).0 != j)
      ensures UpdateEach(es, k - 1, c)[j] == es[j]
    {
      Elsewhere(sizes, k - 1, j);
      UpdateOutside(es[j], k - 1 - Start(sizes, j), c);
    }
    if 1 <= k < Size(e) {
      UpdateKid(e, k, c);
      var (i, off) := Locate(sizes, k - 1);
      assert UpdateEach(es, k - 1, c) == es[i := UpdateAt(es[i], off, c)];
    } else {
      assert UpdateEach(es, k - 1, c) == es;
      UpdateRoot(e, k, c);
    }
  }

  lemma UpdateRoot(e: Expr, k: int, c: ConstraintConfig)
    requires IsGroup(e) && (k < 1 || k >= Size(e))
    ensures UpdateAt(e, k, c) == e == WithKids(e, e.exprs)
  {
  }

  lemma UpdateKid(e: Expr, k: int, c: ConstraintConfig)
    requires IsGroup(e) && 1 <= k < Size(e)
    ensures var (i, off) := Locate(Sizes(e.exprs), k - 1);
      UpdateAt(e, k, c) == WithKids(e, e.exprs[i := UpdateAt(e.exprs[i], off, c)])
  {
    hide Sum, Start, Locate, ReplaceAt;
    ReplaceInGroup(e, k, Leaf(c));
    var (i, off) := Locate(Sizes(e.exprs), k - 1);
    assert e.exprs[i := e.exprs[i]] == e.exprs;
  }

  /** The source returns the tree as it is when the text in the form does not parse. */
  method UpdateConstraintLeaf(root: Expr, pos: nat, parsed: Option<ConstraintConfig>) returns (result: Expr)
    ensures result == if parsed.Some? then UpdateAt(root, pos, parsed.value) else root
  {
    if parsed.None? {
      return root;
    }
    var found, counter;
    result, found, counter := ReplaceLeafRec(root, pos, parsed.value, 0);
  }

  /** Row `k` shows a leaf. */
  predicate HitsLeaf(e: Expr, k: int) {
    NodeAt(e, k).Some? && NodeAt(e, k).value.Leaf?
  }

  function HitsEach(es: seq<Expr>, k: int): seq<bool> {
    seq(|es|, i requires 0 <= i < |es| => HitsLeaf(es[i], k - Start(Sizes(es), i)))
  }

  lemma HitsInGroup(e: Expr, k: int)
    requires IsGroup(e)
    ensures HitsLeaf(e, k) <==> true in HitsEach(e.exprs, k - 1)
  {
    hide Sum, Start, Locate;
    var (es, sizes, hits) := (e.exprs, Sizes(e.exprs), HitsEach(e.exprs, k - 1));
    forall j | 0 <= j < |es| && (k < 1 || k >= Size(e) || Locate(sizes, k - 1).0 != j)
      ensures !hits[j]
    {
      Elsewhere(sizes, k - 1, j);
    }
    if 1 <= k < Size(e) {
      var (i, off) := Locate(sizes, k - 1);
      assert hits[i] == HitsLeaf(es[i], off) == HitsLeaf(e, k);
    }
  }

  lemma HitsUnderNot(e: Expr, k: int)
    requires e.Not?
    ensures HitsLeaf(e, k) == HitsLeaf(e.inner, k - 1)
  {
  }

  method ReplaceLeafRec(expr: Expr, target: nat, c: ConstraintConfig, counter: nat)
    returns (out: Expr, found: bool, next: nat)
    ensures out == UpdateAt(expr, target - counter, c)
    ensures found == HitsLeaf(expr, target - counter)
    ensures next == counter + Size(expr)
    decreases expr
  {
    hide HitsEach, HitsLeaf, UpdateAt, UpdateEach, Sum, Sizes;
    var pos := counter;
    found, next := false, counter + 1;
    UpdateLeaf(expr, target - counter, c);
    match expr
    case Leaf(_) =>
      out, found := if pos == target then Leaf(c) else expr, pos == target;
    case Always =>
      out := expr;
    case Not(inner) =>
      UpdateUnderNot(expr, target - counter, c);
      HitsUnderNot(expr, target - counter);
      out, found, next := ReplaceLeafRec(inner, target, c, next);
      out := Not(out);
    case All(exprs) =>
      UpdateInGroup(expr, target - counter, c);
      HitsInGroup(expr, target - counter);
      var kids;
      kids, found, next := ReplaceLeaves(exprs, target, c, next);
      out := All(kids);
    case Any(exprs) =>
      UpdateInGroup(expr, target - counter, c);
      HitsInGroup(expr, target - counter);
      var kids;
      kids, found, next := ReplaceLeaves(exprs, target, c, next);
      out := Any(kids);
  }

  lemma UpdateLeaf(e: Expr, k: int, c: ConstraintConfig)
    ensures e.Leaf? ==> UpdateAt(e, k, c) == (if k == 0 then Leaf(c) else e) && HitsLeaf(e, k) == (k == 0)
    ensures e.Always? ==> UpdateAt(e, k, c) == e && !HitsLeaf(e, k)
  {
  }

  lemma UpdateUnderNot(e: Expr, k: int, c: ConstraintConfig)
    requires e.Not?
    ensures UpdateAt(e, k, c) == Not(UpdateAt(e.inner, k - 1, c))
  {
  }

  /** The loop over a group's children. */
  method ReplaceLeaves(exprs: seq<Expr>, target: nat, c: ConstraintConfig, first: nat)
    returns (out: seq<Expr>, found: bool, next: nat)
    ensures out == UpdateEach(exprs, target - first, c)
    ensures found <==> true in HitsEach(exprs, target - first)
    ensures next == first + Sum(Sizes(exprs))
    decreases exprs
  {
    hide Sum, Start, Locate, UpdateAt, Size, HitsLeaf;
    StartOfFirst(Sizes(exprs));
    ghost var hits := HitsEach(exprs, target - first);
    out, found, next := [], false, first;
    for i := 0 to |exprs|
      invariant out == UpdateEach(exprs, target - first, c)[..i]
      invariant found <==> true in hits[..i]
      invariant next == first + Start(Sizes(exprs), i)
    {
      var kid, f;
      kid, f, next := ReplaceLeafRec(exprs[i], target, c, next);
      out := out + [kid];
      found := found || f;
      StartNext(Sizes(exprs), i);
      assert hits[..i + 1] == hits[..i] + [f];
    }
  }

  /// Deleting a subtree

  function Deleted(e: Expr, k: int): Option<Expr> {
    var kept := EraseAt(e, k);
    if kept.Some? then Some(Collapse(kept.value)) else None
  }

  function DeleteEach(es: seq<Expr>, k: int): seq<Option<Expr>> {
    seq(|es|, i requires 0 <= i < |es| => Deleted(es[i], k - Start(Sizes(es), i)))
  }

  lemma DeletedOutside(e: Expr, k: int)
    requires k < 0 || k >= Size(e)
    ensures Deleted(e, k) == Some(Collapse(e))
  {
  }

  lemma {:induction false} KeptCollapsed(opts: seq<Option<Expr>>, es: seq<Expr>)
    requires |opts| == |es| && forall i :: 0 <= i < |es| ==> opts[i] == Some(Collapse(es[i]))
    ensures Kept(opts) == CollapseEach(es)
  {
    if es != [] {
      var n := |es| - 1;
      KeptCollapsed(opts[..n], es[..n]);
      assert CollapseEach(es) == CollapseEach(es[..n]) + [Collapse(es[n])];
    }
  }

  lemma DeleteInGroup(e: Expr, k: int)
    requires IsGroup(e) && k != 0
    ensures Deleted(e, k) == Some(Simplified(e, Kept(DeleteEach(e.exprs, k - 1))))
  {
    hide Sum, Start, Locate, Deleted, Size, Kept;
    var (es, sizes, opts) := (e.exprs, Sizes(e.exprs), DeleteEach(e.exprs, k - 1));
    forall j | 0 <= j < |es| && (k < 1 || k - 1 >= Sum(sizes) || Locate(sizes, k - 1).0 != j)
      ensures opts[j] == Some(Collapse(es[j]))
    {
      Elsewhere(sizes, k - 1, j);
      DeletedOutside(es[j], k - 1 - Start(sizes, j));
    }
    if 1 <= k && k - 1 < Sum(sizes) {
      var (i, off) := Locate(sizes, k - 1);
      DeletedKid(e, k);
      KeptCollapsed(opts[..i], es[..i]);
      KeptCollapsed(opts[i + 1..], es[i + 1..]);
      KeptAround(opts, i);
    } else {
      KeptCollapsed(opts, es);
      DeletedMissed(e, k);
    }
  }

  /** An empty group becomes `Always`, a group of one its only child. */
  function Simplified(e: Expr, kids: seq<Expr>): Expr
    requires IsGroup(e)
  {
    if e.All? then SimplifyAnd(kids) else SimplifyOr(kids)
  }

  lemma DeletedMissed(e: Expr, k: int)
    requires IsGroup(e) && (k < 1 || k - 1 >= Sum(Sizes(e.exprs))) && k != 0
    ensures Deleted(e, k) == Some(Simplified(e, CollapseEach(e.exprs)))
  {
  }

  lemma DeletedKid(e: Expr, k: int)
    requires IsGroup(e) && 1 <= k && k - 1 < Sum(Sizes(e.exprs))
    ensures var (es, (i, off)) := (e.exprs, Locate(Sizes(e.exprs), k - 1));
      Deleted(e, k)
        == Some(Simplified(e, CollapseEach(es[..i]) + OptSeq(Deleted(es[i], off)) + CollapseEach(es[i + 1..])))
  {
    hide Sum, Start, Locate, PutAt, PutKid;
    var (es, (i, off)) := (e.exprs, Locate(Sizes(e.exprs), k - 1));
    EraseKid(e, k);
    CollapseAround(es, i, EraseAt(es[i], off));
  }

  lemma EraseKid(e: Expr, k: int)
    requires IsGroup(e) && 1 <= k && k - 1 < Sum(Sizes(e.exprs))
    ensures var (es, (i, off)) := (e.exprs, Locate(Sizes(e.exprs), k - 1));
      EraseAt(e, k) == Some(WithKids(e, PutKid(es, i, EraseAt(es[i], off))))
  {
    hide Sum, Start, Locate, PutKid;
  }

  lemma DeletedElsewhere(e: Expr, k: int)
    ensures k == 0 ==> Deleted(e, k) == None
    ensures k != 0 && (e.Leaf? || e.Always?) ==> Deleted(e, k) == Some(e)
    ensures k != 0 && e.Not? ==>
      var child := Deleted(e.inner, k - 1);
      Deleted(e, k) == Some(if child.Some? then Not(child.value) else Always)
  {
  }

  lemma CollapseAround(es: seq<Expr>, i: nat, kid: Option<Expr>)
    requires i < |es|
    ensures CollapseEach(PutKid(es, i, kid))
         == CollapseEach(es[..i]) + (if kid.Some? then [Collapse(kid.value)] else []) + CollapseEach(es[i + 1..])
  {
  }

  method DeleteConstraintAt(root: Expr, pos: nat) returns (result: Expr)
    ensures result == DeleteAt(root, pos)
  {
    var opt, found, counter := DeleteConstraintRec(root, pos, 0);
    result := if opt.Some? then opt.value else Always;
  }

  method DeleteConstraintRec(expr: Expr, target: nat, counter: nat)
    returns (out: Option<Expr>, found: bool, next: nat)
    ensures out == Deleted(expr, target - counter)
    ensures found == (0 <= target - counter < Size(expr))
    ensures next == counter + Size(expr)
    decreases expr
  {
    hide Deleted, Sum, Sizes, Start, Locate;
    DeletedElsewhere(expr, target - counter);
    var pos := counter;
    next := counter + 1;
    if pos == target {
      next := SkipCount(expr, next);
      return None, true, next;
    }
    match expr
    case Not(inner) =>
      var child;
      child, found, next := DeleteConstraintRec(inner, target, next);
      out := Some(if child.Some? then Not(child.value) else Always);
    case All(exprs) =>
      var children;
      DeleteInGroup(expr, target - counter);
      children, found, next := DeleteGroupChildren(exprs, target, next);
      out := Some(SimplifyAnd(children));
    case Any(exprs) =>
      var children;
      DeleteInGroup(expr, target - counter);
      children, found, next := DeleteGroupChildren(exprs, target, next);
      out := Some(SimplifyOr(children));
    case _ =>
      out, found := Some(expr), false;
  }

  method DeleteGroupChildren(exprs: seq<Expr>, target: nat, first: nat)
    returns (out: seq<Expr>, found: bool, next: nat)
    ensures out == Kept(DeleteEach(exprs, target - first))
    ensures found == (0 <= target - first < Sum(Sizes(exprs)))
    ensures next == first + Sum(Sizes(exprs))
    decreases exprs
  {
    hide Sum, Start, Locate, Deleted, Size;
    StartOfFirst(Sizes(exprs));
    ghost var opts := DeleteEach(exprs, target - first);
    out, found, next := [], false, first;
    for i := 0 to |exprs|
      invariant out == Kept(opts[..i])
      invariant found == (0 <= target - first < Start(Sizes(exprs), i))
      invariant next == first + Start(Sizes(exprs), i)
    {
      var opt, f;
      opt, f, next := DeleteConstraintRec(exprs[i], target, next);
      if opt.Some? {
        out := out + [opt.value];
      }
      found := found || f;
      KeptNext(opts, i);
      StartNext(Sizes(exprs), i);
    }
    assert opts[..|exprs|] == opts;
  }

  /** Advances the counter over a subtree whose first row has been counted. */
  method SkipCount(expr: Expr, counter: nat) returns (next: nat)
    ensures next == counter + Size(expr) - 1
    decreases expr
  {
    match expr
    case Not(inner) =>
      next := SkipCount(inner, counter + 1);
    case All(exprs) =>
      next := SkipEach(exprs, counter);
    case Any(exprs) =>
      next := SkipEach(exprs, counter);
    case _ =>
      next := counter;
  }

  method SkipEach(exprs: seq<Expr>, counter: nat) returns (next: nat)
    ensures next == counter + Sum(Sizes(exprs))
    decreases exprs
  {
    hide Sum, Start, Size;
    StartOfFirst(Sizes(exprs));
    next := counter;
    for i := 0 to |exprs|
      invariant next == counter + Start(Sizes(exprs), i)
    {
      next := next + 1;
      next := SkipCount(exprs[i], next);
      StartNext(Sizes(exprs), i);
    }
  }

  /// Wrapping

  function WrapEach(es: seq<Expr>, k: int, kind: WrapKind): seq<Expr> {
    seq(|es|, i requires 0 <= i < |es| => WrapAt(es[i], k - Start(Sizes(es), i), kind))
  }

  lemma WrapOutside(e: Expr, k: int, kind: WrapKind)
    requires k < 0 || k >= Size(e)
    ensures WrapAt(e, k, kind) == e
  {
  }

  lemma WrapInGroup(e: Expr, k: int, kind: WrapKind)
    requires IsGroup(e) && k != 0
    ensures WrapAt(e, k, kind) == WithKids(e, WrapEach(e.exprs, k - 1, kind))
  {
    hide Sum, Start, Locate, WrapAt;
    var (es, sizes) := (e.exprs, Sizes(e.exprs));
    forall j | 0 <= j < |es| && (k < 1 || k >= Size(e) || Locate(sizes, k - 1).0 != j)
      ensures WrapEach(es, k - 1, kind)[j] == es[j]
    {
      Elsewhere(sizes, k - 1, j);
      WrapOutside(es[j], k - 1 - Start(sizes, j), kind);
    }
    if 1 <= k < Size(e) {
      WrapKid(e, k, kind);
      var (i, off) := Locate(sizes, k - 1);
      assert WrapEach(es, k - 1, kind) == es[i := WrapAt(es[i], off, kind)];
    } else {
      assert WrapEach(es, k - 1, kind) == es;
      WrapOutside(e, k, kind);
    }
  }

  lemma WrapKid(e: Expr, k: int, kind: WrapKind)
    requires IsGroup(e) && 1 <= k < Size(e)
    ensures var (i, off) := Locate(Sizes(e.exprs), k - 1);
      WrapAt(e, k, kind) == WithKids(e, e.exprs[i := WrapAt(e.exprs[i], off, kind)])
  {
    hide Sum, Start, Locate, ReplaceAt;
    var (i, off) := Locate(Sizes(e.exprs), k - 1);
    if NodeAt(e, k).Some? {
      ReplaceInGroup(e, k, WrapExpr(NodeAt(e, k).value, kind));
    }
    assert e.exprs[i := e.exprs[i]] == e.exprs;
  }

  lemma WrapParts(e: Expr, k: int, kind: WrapKind)
    ensures k == 0 ==> WrapAt(e, k, kind) == WrapExpr(e, kind)
    ensures k != 0 && (e.Leaf? || e.Always?) ==> WrapAt(e, k, kind) == e
    ensures k != 0 && e.Not? ==> WrapAt(e, k, kind) == Not(WrapAt(e.inner, k - 1, kind))
    ensures e.Not? ==> Size(e) == 1 + Size(e.inner)
    ensures e.Leaf? || e.Always? ==> Size(e) == 1
    ensures IsGroup(e) ==> Size(e) == 1 + Sum(Sizes(e.exprs))
  {
  }

  method WrapConstraintAt(root: Expr, target: Option<nat>, kind: WrapKind) returns (result: Expr)
    ensures result == WrapAt(root, if target.Some? then target.value else 0, kind)
  {
    var found, counter;
    var pos := if target.Some? then target.value else 0;
    result, found, counter := WrapConstraintRec(root, pos, kind, 0);
  }

  /** The counter stops where the node is found. */
  method WrapConstraintRec(expr: Expr, target: nat, kind: WrapKind, counter: nat)
    returns (out: Expr, found: bool, next: nat)
    ensures out == WrapAt(expr, target - counter, kind)
    ensures found == (0 <= target - counter < Size(expr))
    ensures !found ==> next == counter + Size(expr)
    decreases expr
  {
    hide WrapAt, Size, Sum, Sizes, WrapEach;
    WrapParts(expr, target - counter, kind);
    var pos := counter;
    next := counter + 1;
    if pos == target {
      return WrapExpr(expr, kind), true, next;
    }
    match expr
    case Not(inner) =>
      out, found, next := WrapConstraintRec(inner, target, kind, next);
      out := Not(out);
    case All(exprs) =>
      var kids;
      WrapInGroup(expr, target - counter, kind);
      kids, found, next := WrapConstraintChildren(exprs, target, kind, next);
      out := All(kids);
    case Any(exprs) =>
      var kids;
      WrapInGroup(expr, target - counter, kind);
      kids, found, next := WrapConstraintChildren(exprs, target, kind, next);
      out := Any(kids);
    case _ =>
      out, found := expr, false;
  }

  /** Children behind the one that was hit are kept without being walked. */
  method WrapConstraintChildren(exprs: seq<Expr>, target: nat, kind: WrapKind, first: nat)
    returns (out: seq<Expr>, found: bool, next: nat)
    ensures out == WrapEach(exprs, target - first, kind)
    ensures found == (0 <= target - first < Sum(Sizes(exprs)))
    ensures !found ==> next == first + Sum(Sizes(exprs))
    decreases exprs
  {
    hide Sum, Start, Locate, WrapAt, Size;
    StartOfFirst(Sizes(exprs));
    out, found, next := [], false, first;
    for i := 0 to |exprs|
      invariant out == WrapEach(exprs, target - first, kind)[..i]
      invariant found == (0 <= target - first < Start(Sizes(exprs), i))
      invariant !found ==> next == first + Start(Sizes(exprs), i)
    {
      if found {
        WrapOutside(exprs[i], target - first - Start(Sizes(exprs), i), kind);
        out := out + [exprs[i]];
      } else {
        var kid;
        kid, found, next := WrapConstraintRec(exprs[i], target, kind, next);
        out := out + [kid];
      }
      StartNext(Sizes(exprs), i);
    }
  }


  /// Moving

  /** `constraint_subtree_size` is `Size`; here the loop that computes every child's first row. */
  method ChildStarts(exprs: seq<Expr>, first: nat) returns (starts: seq<nat>)
    ensures |starts| == |exprs|
    ensures forall i :: 0 <= i < |exprs| ==> starts[i] == first + Start(Sizes(exprs), i)
  {
    hide Sum, Start, Size;
    StartOfFirst(Sizes(exprs));
    var cur := first;
    starts := [];
    for i := 0 to |exprs|
      invariant |starts| == i && cur == first + Start(Sizes(exprs), i)
      invariant forall j :: 0 <= j < i ==> starts[j] == first + Start(Sizes(exprs), j)
    {
      starts := starts + [cur];
      cur := cur + Size(exprs[i]);
      StartNext(Sizes(exprs), i);
    }
  }

  method MoveConstraintNode(root: Expr, target: nat, up: bool) returns (result: Expr)
    ensures result == MoveAt(root, target, up)
  {
    var found;
    result, found := TryMoveConstraint(root, target, up, 0);
  }

  /** Row `k` is a child of a group: any node but the root and the operand of a negation. */
  predicate Movable(e: Expr, k: int) {
    0 < k < Size(e) && !IsOperand(e, k)
  }

  predicate MovableKid(es: seq<Expr>, k: int) {
    && 0 <= k < Sum(Sizes(es))
    && var (i, off) := Locate(Sizes(es), k); off == 0 || Movable(es[i], off)
  }

  lemma MovableParts(e: Expr, k: int)
    ensures e.Leaf? || e.Always? ==> !Movable(e, k)
    ensures e.Not? ==> Movable(e, k) == Movable(e.inner, k - 1)
    ensures IsGroup(e) ==> Movable(e, k) == MovableKid(e.exprs, k - 1)
  {
    hide Sum, Start, Locate;
    if IsGroup(e) && 0 < k < Size(e) {
      NegatedInGroup(e, k);
    }
  }

  method TryMoveConstraint(expr: Expr, target: nat, up: bool, start: nat) returns (out: Expr, found: bool)
    ensures out == MoveAt(expr, target - start, up)
    ensures found == Movable(expr, target - start)
    decreases expr
  {
    hide Sum, Sizes, Start, Locate, Size, MovableKid;
    MoveParts(expr, target - start, up);
    MovableParts(expr, target - start);
    match expr
    case All(exprs) =>
      var kids;
      kids, found := MoveConstraintChildren(exprs, target, up, start + 1);
      out := All(kids);
    case Any(exprs) =>
      var kids;
      kids, found := MoveConstraintChildren(exprs, target, up, start + 1);
      out := Any(kids);
    case Not(inner) =>
      out, found := TryMoveConstraint(inner, target, up, start + 1);
      out := Not(out);
    case _ =>
      out, found := expr, false;
  }

  /** The children of a group after a move at row `k`, counted from the first child. */
  function MovedKids(es: seq<Expr>, k: int, up: bool): seq<Expr> {
    if k < 0 || k >= Sum(Sizes(es)) then es
    else
      var (i, off) := Locate(Sizes(es), k);
      var j := Partner(i, |es|, up);
      if off > 0 then es[i := MoveAt(es[i], off, up)]
      else if j.Some? then Swapped(es, i, j.value) else es
  }

  lemma MoveParts(e: Expr, k: int, up: bool)
    ensures e.Leaf? || e.Always? ==> MoveAt(e, k, up) == e
    ensures e.Not? ==> MoveAt(e, k, up) == Not(MoveAt(e.inner, k - 1, up))
    ensures IsGroup(e) ==> MoveAt(e, k, up) == WithKids(e, MovedKids(e.exprs, k - 1, up))
  {
  }

  method MoveConstraintChildren(exprs: seq<Expr>, target: nat, up: bool, first: nat)
    returns (out: seq<Expr>, found: bool)
    ensures out == MovedKids(exprs, target - first, up)
    ensures found == MovableKid(exprs, target - first)
    decreases exprs
  {
    hide Sum, Start, Locate, Size, MovedKids, MoveAt, MovableKid, Movable;
    var starts := ChildStarts(exprs, first);
    for i := 0 to |exprs|
      invariant forall j :: 0 <= j < i ==> starts[j] != target
    {
      if starts[i] == target {
        MovedKid(exprs, i, 0, up);
        var j := Partner(i, |exprs|, up);
        return if j.Some? then Swapped(exprs, i, j.value) else exprs, true;
      }
    }
    for i := 0 to |exprs|
      invariant forall j :: 0 <= j < i ==> !(0 <= target - starts[j] < Size(exprs[j]))
    {
      if starts[i] <= target < starts[i] + Size(exprs[i]) {
        MovedKid(exprs, i, target - starts[i], up);
        var child;
        child, found := TryMoveConstraint(exprs[i], target, up, starts[i]);
        return exprs[i := child], found;
      }
    }
    MovedOutside(exprs, target - first, up);
    out, found := exprs, false;
  }

  lemma MovedKid(es: seq<Expr>, i: nat, off: nat, up: bool)
    requires i < |es| && off < Size(es[i])
    ensures MovableKid(es, Start(Sizes(es), i) + off) <==> off == 0 || Movable(es[i], off)
    ensures var (k, j) := (Start(Sizes(es), i) + off, Partner(i, |es|, up));
      MovedKids(es, k, up) == if off > 0 then es[i := MoveAt(es[i], off, up)]
                              else if j.Some? then Swapped(es, i, j.value) else es
  {
    hide Sum, Start, Locate, Size, MoveAt;
    LocateUnique(Sizes(es), Start(Sizes(es), i) + off, i);
  }

  lemma MovedOutside(es: seq<Expr>, k: int, up: bool)
    requires forall j :: 0 <= j < |es| ==> !(0 <= k - Start(Sizes(es), j) < Size(es[j]))
    ensures MovedKids(es, k, up) == es && !MovableKid(es, k)
  {
    hide Sum, Start, Locate, Size, MoveAt;
    if 0 <= k < Sum(Sizes(es)) {
      var (i, off) := Locate(Sizes(es), k);
    }
  }

  /// Adding

  method AddConstraintLeaf(root: Expr, c: ConstraintConfig) returns (result: Expr)
    ensures result == AddLeaf(root, c)
  {
    match root
    case Always =>
      result := Leaf(c);
    case All(exprs) =>
      var longer := exprs + [Leaf(c)];
      result := All(longer);
    case _ =>
      result := All([root, Leaf(c)]);
  }
}
