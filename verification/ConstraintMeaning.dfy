// What a constraint tree means, and which edits keep it (crates/core/src/domain.rs, crates/app/src/tree_model.rs).
module ConstraintMeaning {
  import opened Domain
  import opened Blocks
  import opened ConstraintTree

  /// Evaluation

  /** Conjunction from left to right: stops at the first error or falsehood. */
  function Conj(vs: seq<Verdict>): Verdict {
    if vs == [] then Holds(true)
    else if vs[0] == Holds(true) then Conj(vs[1..])
    else vs[0]
  }

  /** Disjunction from left to right: stops at the first error or truth. */
  function Disj(vs: seq<Verdict>): Verdict {
    if vs == [] then Holds(false)
    else if vs[0] == Holds(false) then Disj(vs[1..])
    else vs[0]
  }

  function Negated(v: Verdict): Verdict {
    match v
    case Holds(b) => Holds(!b)
    case Fails(_) => v
  }

  /** The meaning of a tree, given what building and evaluating each leaf yields. */
  function Eval(e: Expr, leaf: ConstraintConfig -> Verdict): Verdict {
    match e
    case Always => Holds(true)
    case Leaf(c) => leaf(c)
    case Not(x) => Negated(Eval(x, leaf))
    case All(es) => Conj(Verdicts(es, leaf))
    case Any(es) => Disj(Verdicts(es, leaf))
  }

  function Verdicts(es: seq<Expr>, leaf: ConstraintConfig -> Verdict): seq<Verdict> {
    seq(|es|, i requires 0 <= i < |es| => Eval(es[i], leaf))
  }

  /** The meaning with an empty `Any` read as true. */
  function LenientEval(e: Expr, leaf: ConstraintConfig -> Verdict): Verdict {
    match e
    case Always => Holds(true)
    case Leaf(c) => leaf(c)
    case Not(x) => Negated(LenientEval(x, leaf))
    case All(es) => Conj(LenientVerdicts(es, leaf))
    case Any(es) => if es == [] then Holds(true) else Disj(LenientVerdicts(es, leaf))
  }

  function LenientVerdicts(es: seq<Expr>, leaf: ConstraintConfig -> Verdict): seq<Verdict> {
    seq(|es|, i requires 0 <= i < |es| => LenientEval(es[i], leaf))
  }

  /// The early-returning loops of the evaluator

  method Evaluate(e: Expr, leaf: ConstraintConfig -> Verdict) returns (v: Verdict)
    ensures v == Eval(e, leaf)
    decreases e
  {
    match e
    case Always => return Holds(true);
    case Leaf(c) => return leaf(c);
    case Not(x) =>
      var inner := Evaluate(x, leaf);
      if inner.Fails? {
        return inner;
      }
      return Holds(!inner.b);
    case All(es) =>
      for i := 0 to |es|
        invariant Conj(Verdicts(es, leaf)) == Conj(Verdicts(es, leaf)[i..])
      {
        var one := Evaluate(es[i], leaf);
        if one.Fails? {
          return one;
        }
        if !one.b {
          return Holds(false);
        }
      }
      return Holds(true);
    case Any(es) =>
      for i := 0 to |es|
        invariant Disj(Verdicts(es, leaf)) == Disj(Verdicts(es, leaf)[i..])
      {
        var one := Evaluate(es[i], leaf);
        if one.Fails? {
          return one;
        }
        if one.b {
          return Holds(true);
        }
      }
      return Holds(false);
  }

  /// Replacing a subtree by one that means the same

  lemma {:induction false} ReplaceKeepsMeaning(e: Expr, k: nat, r: Expr, leaf: ConstraintConfig -> Verdict)
    requires k < Size(e)
    requires NodeAt(e, k).Some? ==> Eval(r, leaf) == Eval(NodeAt(e, k).value, leaf)
    ensures Eval(ReplaceAt(e, k, r), leaf) == Eval(e, leaf)
  {
    if k == 0 {
    } else if e.Not? {
      ReplaceKeepsMeaning(e.inner, k - 1, r, leaf);
    } else {
      var (i, off) := Locate(Sizes(e.exprs), k - 1);
      ReplaceKeepsMeaning(e.exprs[i], off, r, leaf);
      ReplaceInGroup(e, k, r);
      assert Verdicts(ReplaceAt(e, k, r).exprs, leaf) == Verdicts(e.exprs, leaf);
    }
  }

  lemma WrapExprKeepsMeaning(e: Expr, kind: WrapKind, leaf: ConstraintConfig -> Verdict)
    requires !kind.Negate?
    ensures Eval(WrapExpr(e, kind), leaf) == Eval(e, leaf)
  {
    var v := Eval(e, leaf);
    assert Verdicts([e], leaf) == [v] && [v][1..] == [];
    assert Conj([v]) == v == Disj([v]);
  }

  /** Wrapping any node in AND or OR changes no verdict and no error, in any tree. */
  lemma WrapKeepsMeaning(e: Expr, k: nat, kind: WrapKind, leaf: ConstraintConfig -> Verdict)
    requires !kind.Negate?
    ensures Eval(WrapAt(e, k, kind), leaf) == Eval(e, leaf)
  {
    if k < Size(e) && NodeAt(e, k).Some? {
      WrapExprKeepsMeaning(NodeAt(e, k).value, kind, leaf);
      ReplaceKeepsMeaning(e, k, WrapExpr(NodeAt(e, k).value, kind), leaf);
    }
  }

  /// Deleting

  lemma {:induction false} CollapseMeaning(e: Expr, leaf: ConstraintConfig -> Verdict)
    ensures Eval(Collapse(e), leaf) == LenientEval(e, leaf)
  {
    if e.Not? {
      CollapseMeaning(e.inner, leaf);
    } else if IsGroup(e) {
      var kids := CollapseEach(e.exprs);
      forall i | 0 <= i < |e.exprs|
        ensures Eval(kids[i], leaf) == LenientEval(e.exprs[i], leaf)
      {
        CollapseMeaning(e.exprs[i], leaf);
      }
      assert Verdicts(kids, leaf) == LenientVerdicts(e.exprs, leaf);
      SimplifyMeaning(kids, leaf);
    }
  }

  lemma SimplifyMeaning(kids: seq<Expr>, leaf: ConstraintConfig -> Verdict)
    ensures Eval(SimplifyAnd(kids), leaf) == Conj(Verdicts(kids, leaf))
    ensures kids != [] ==> Eval(SimplifyOr(kids), leaf) == Disj(Verdicts(kids, leaf))
  {
    if |kids| == 1 {
      assert Verdicts(kids, leaf) == [Eval(kids[0], leaf)];
    }
  }

  /** What a delete leaves is the erased tree read leniently: the delete button turns every empty OR it walks
      over into truth, wherever it stands, and changes no other verdict. */
  lemma DeleteMeaning(e: Expr, k: nat, leaf: ConstraintConfig -> Verdict)
    ensures Eval(DeleteAt(e, k), leaf)
         == if EraseAt(e, k).Some? then LenientEval(EraseAt(e, k).value, leaf) else Holds(true)
    ensures k >= Size(e) ==> Eval(DeleteAt(e, k), leaf) == LenientEval(e, leaf)
  {
    if EraseAt(e, k).Some? {
      CollapseMeaning(EraseAt(e, k).value, leaf);
    }
  }

  /** So a delete that hits nothing can still change the meaning. */
  lemma MissedDeleteChangesEmptyAny(leaf: ConstraintConfig -> Verdict)
    ensures DeleteAt(Any([]), 7) == Always
    ensures Eval(Any([]), leaf) != Eval(DeleteAt(Any([]), 7), leaf)
  {
    assert Sizes([]) == [];
  }

  /// Trees without empty groups

  predicate NoEmptyGroup(e: Expr) {
    match e
    case Always => true
    case Leaf(_) => true
    case Not(x) => NoEmptyGroup(x)
    case All(es) => es != [] && forall x <- es :: NoEmptyGroup(x)
    case Any(es) => es != [] && forall x <- es :: NoEmptyGroup(x)
  }

  /** No OR is empty; an AND may be. */
  predicate NoEmptyAny(e: Expr) {
    match e
    case Always => true
    case Leaf(_) => true
    case Not(x) => NoEmptyAny(x)
    case All(es) => forall x <- es :: NoEmptyAny(x)
    case Any(es) => es != [] && forall x <- es :: NoEmptyAny(x)
  }

  lemma {:induction false} NoEmptyGroupNoEmptyAny(e: Expr)
    requires NoEmptyGroup(e)
    ensures NoEmptyAny(e)
  {
    if e.Not? {
      NoEmptyGroupNoEmptyAny(e.inner);
    } else if IsGroup(e) {
      forall x | x in e.exprs
        ensures NoEmptyAny(x)
      {
        NoEmptyGroupNoEmptyAny(x);
      }
    }
  }

  lemma {:induction false} LenientAgrees(e: Expr, leaf: ConstraintConfig -> Verdict)
    requires NoEmptyAny(e)
    ensures LenientEval(e, leaf) == Eval(e, leaf)
  {
    if e.Not? {
      LenientAgrees(e.inner, leaf);
    } else if IsGroup(e) {
      forall i | 0 <= i < |e.exprs|
        ensures LenientEval(e.exprs[i], leaf) == Eval(e.exprs[i], leaf)
      {
        LenientAgrees(e.exprs[i], leaf);
      }
      assert LenientVerdicts(e.exprs, leaf) == Verdicts(e.exprs, leaf);
    }
  }

  /** In a tree without an empty OR, however it was built, a delete that hits no row changes no verdict and no error. */
  lemma MissedDeleteKeepsMeaning(e: Expr, k: nat, leaf: ConstraintConfig -> Verdict)
    requires NoEmptyAny(e) && k >= Size(e)
    ensures Eval(DeleteAt(e, k), leaf) == Eval(e, leaf)
  {
    DeleteMeaning(e, k, leaf);
    LenientAgrees(e, leaf);
  }

  /** Every group has at least two members. */
  predicate NormalForm(e: Expr) {
    match e
    case Always => true
    case Leaf(_) => true
    case Not(x) => NormalForm(x)
    case All(es) => |es| >= 2 && forall x <- es :: NormalForm(x)
    case Any(es) => |es| >= 2 && forall x <- es :: NormalForm(x)
  }

  /** A delete leaves every group with at least two members, however the tree was built. */
  lemma {:induction false} CollapseNormalises(e: Expr)
    ensures NormalForm(Collapse(e)) && NoEmptyGroup(Collapse(e))
    ensures NormalForm(e) ==> Collapse(e) == e
  {
    if e.Not? {
      CollapseNormalises(e.inner);
    } else if IsGroup(e) {
      var kids := CollapseEach(e.exprs);
      forall i | 0 <= i < |e.exprs|
        ensures NormalForm(kids[i]) && NoEmptyGroup(kids[i])
        ensures NormalForm(e.exprs[i]) ==> kids[i] == e.exprs[i]
      {
        CollapseNormalises(e.exprs[i]);
      }
      if NormalForm(e) {
        assert kids == e.exprs;
      }
    }
  }

  /// Adding

  lemma {:induction false} ConjAppend(vs: seq<Verdict>, v: Verdict)
    ensures Conj(vs + [v]) == Conj([Conj(vs), v])
  {
    assert [v][1..] == [] && [Conj(vs), v][1..] == [v];
    if vs == [] {
      assert [] + [v] == [v];
    } else {
      assert (vs + [v])[1..] == vs[1..] + [v];
      ConjAppend(vs[1..], v);
      assert [Conj(vs[1..]), v][1..] == [v];
    }
  }

  /** Adding a leaf to any tree is conjunction with it: the old tree first, errors included. */
  lemma AddLeafIsConjunction(e: Expr, c: ConstraintConfig, leaf: ConstraintConfig -> Verdict)
    ensures Eval(AddLeaf(e, c), leaf) == Conj([Eval(e, leaf), leaf(c)])
  {
    assert [leaf(c)][1..] == [] && [Eval(e, leaf), leaf(c)][1..] == [leaf(c)];
    assert Conj([leaf(c)]) == leaf(c);
    if e.All? {
      assert Verdicts(e.exprs + [Leaf(c)], leaf) == Verdicts(e.exprs, leaf) + [leaf(c)];
      ConjAppend(Verdicts(e.exprs, leaf), leaf(c));
    } else if !e.Always? {
      assert Verdicts([e, Leaf(c)], leaf) == [Eval(e, leaf), leaf(c)];
    }
  }

  /// The trees the editor can reach

  datatype Edit =
    | AddLeafEdit(config: ConstraintConfig)
    | UpdateEdit(k: nat, config: ConstraintConfig)
    | DeleteEdit(k: nat)
    | WrapEdit(k: nat, kind: WrapKind)
    | MoveEdit(k: nat, up: bool)

  function Edited(e: Expr, edit: Edit): Expr {
    match edit
    case AddLeafEdit(c) => AddLeaf(e, c)
    case UpdateEdit(k, c) => UpdateAt(e, k, c)
    case DeleteEdit(k) => DeleteAt(e, k)
    case WrapEdit(k, kind) => WrapAt(e, k, kind)
    case MoveEdit(k, up) => MoveAt(e, k, up)
  }

  /** The tree after a sequence of edits on a new macro. */
  function Reached(edits: seq<Edit>): Expr {
    if edits == [] then Always else Edited(Reached(edits[..|edits| - 1]), edits[|edits| - 1])
  }

  lemma {:induction false} NodeHasNoEmptyGroup(e: Expr, k: nat)
    requires NoEmptyGroup(e) && NodeAt(e, k).Some?
    ensures NoEmptyGroup(NodeAt(e, k).value)
  {
    if k == 0 {
    } else if e.Not? {
      NodeHasNoEmptyGroup(e.inner, k - 1);
    } else {
      var (i, off) := Locate(Sizes(e.exprs), k - 1);
      NodeHasNoEmptyGroup(e.exprs[i], off);
    }
  }

  lemma {:induction false} ReplaceLeavesNoEmptyGroup(e: Expr, k: nat, r: Expr)
    requires NoEmptyGroup(e) && NoEmptyGroup(r)
    ensures NoEmptyGroup(ReplaceAt(e, k, r))
  {
    if k == 0 || k >= Size(e) {
    } else if e.Not? {
      ReplaceLeavesNoEmptyGroup(e.inner, k - 1, r);
    } else {
      var (i, off) := Locate(Sizes(e.exprs), k - 1);
      ReplaceLeavesNoEmptyGroup(e.exprs[i], off, r);
      ReplaceInGroup(e, k, r);
    }
  }

  lemma {:induction false} MoveLeavesNoEmptyGroup(e: Expr, k: nat, up: bool)
    requires NoEmptyGroup(e)
    ensures NoEmptyGroup(MoveAt(e, k, up))
  {
    if k == 0 || k >= Size(e) {
    } else if e.Not? {
      MoveLeavesNoEmptyGroup(e.inner, k - 1, up);
    } else {
      var (i, off) := Locate(Sizes(e.exprs), k - 1);
      if off > 0 {
        MoveLeavesNoEmptyGroup(e.exprs[i], off, up);
      }
    }
  }

  lemma EditLeavesNoEmptyGroup(e: Expr, edit: Edit)
    requires NoEmptyGroup(e)
    ensures NoEmptyGroup(Edited(e, edit))
  {
    match edit
    case AddLeafEdit(c) =>
    case UpdateEdit(k, c) => ReplaceLeavesNoEmptyGroup(e, k, Leaf(c));
    case DeleteEdit(k) =>
      if EraseAt(e, k).Some? {
        CollapseNormalises(EraseAt(e, k).value);
      }
    case WrapEdit(k, kind) =>
      if NodeAt(e, k).Some? {
        NodeHasNoEmptyGroup(e, k);
        ReplaceLeavesNoEmptyGroup(e, k, WrapExpr(NodeAt(e, k).value, kind));
      }
    case MoveEdit(k, up) => MoveLeavesNoEmptyGroup(e, k, up);
  }

  lemma {:induction false} ReachedHasNoEmptyGroup(edits: seq<Edit>)
    ensures NoEmptyGroup(Reached(edits))
  {
    if edits != [] {
      ReachedHasNoEmptyGroup(edits[..|edits| - 1]);
      EditLeavesNoEmptyGroup(Reached(edits[..|edits| - 1]), edits[|edits| - 1]);
    }
  }

  /** On every tree the editor can reach, a delete that hits no row changes no verdict and no error. */
  lemma MissedDeleteKeepsReachedMeaning(edits: seq<Edit>, k: nat, leaf: ConstraintConfig -> Verdict)
    requires k >= Size(Reached(edits))
    ensures Eval(DeleteAt(Reached(edits), k), leaf) == Eval(Reached(edits), leaf)
  {
    ReachedHasNoEmptyGroup(edits);
    NoEmptyGroupNoEmptyAny(Reached(edits));
    MissedDeleteKeepsMeaning(Reached(edits), k, leaf);
  }
}
