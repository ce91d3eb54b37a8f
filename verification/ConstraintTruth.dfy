// Evaluation against plain truth values: what AND, OR and NOT mean, and what becomes of errors.
module ConstraintTruth {
  import opened Domain
  import opened ConstraintTree
  import opened ConstraintMeaning

  /// Trees whose leaves all have a truth value

  /** The truth value of a tree, given those of its leaves. */
  predicate Truth(e: Expr, holds: ConstraintConfig -> bool) {
    match e
    case Always => true
    case Leaf(c) => holds(c)
    case Not(x) => !Truth(x, holds)
    case All(es) => forall x <- es :: Truth(x, holds)
    case Any(es) => exists x <- es :: Truth(x, holds)
  }

  /** No leaf of the tree fails to build or to evaluate. */
  predicate Errorless(e: Expr, leaf: ConstraintConfig -> Verdict) {
    match e
    case Always => true
    case Leaf(c) => leaf(c).Holds?
    case Not(x) => Errorless(x, leaf)
    case All(es) => forall x <- es :: Errorless(x, leaf)
    case Any(es) => forall x <- es :: Errorless(x, leaf)
  }

  lemma {:induction false} ConjOfHolding(vs: seq<Verdict>)
    requires forall i :: 0 <= i < |vs| ==> vs[i].Holds?
    ensures Conj(vs) == Holds(forall i :: 0 <= i < |vs| ==> vs[i].b)
  {
    if vs != [] {
      ConjOfHolding(vs[1..]);
      assert forall i :: 0 < i < |vs| ==> vs[i] == vs[1..][i - 1];
    }
  }

  lemma {:induction false} DisjOfHolding(vs: seq<Verdict>)
    requires forall i :: 0 <= i < |vs| ==> vs[i].Holds?
    ensures Disj(vs) == Holds(exists i :: 0 <= i < |vs| && vs[i].b)
  {
    if vs != [] {
      DisjOfHolding(vs[1..]);
      assert forall i :: 0 < i < |vs| ==> vs[i] == vs[1..][i - 1];
    }
  }

  function Held(leaf: ConstraintConfig -> Verdict): ConstraintConfig -> bool {
    c => leaf(c) == Holds(true)
  }

  /** A tree none of whose leaves errs evaluates to its truth value. */
  lemma {:induction false} EvalIsTruth(e: Expr, leaf: ConstraintConfig -> Verdict)
    requires Errorless(e, leaf)
    ensures Eval(e, leaf) == Holds(Truth(e, Held(leaf)))
  {
    if e.Not? {
      EvalIsTruth(e.inner, leaf);
    } else if IsGroup(e) {
      var vs := Verdicts(e.exprs, leaf);
      forall i | 0 <= i < |e.exprs|
        ensures vs[i] == Holds(Truth(e.exprs[i], Held(leaf)))
      {
        EvalIsTruth(e.exprs[i], leaf);
      }
      ConjOfHolding(vs);
      DisjOfHolding(vs);
      GroupTruth(e, leaf, vs);
    }
  }

  lemma GroupTruth(e: Expr, leaf: ConstraintConfig -> Verdict, vs: seq<Verdict>)
    requires IsGroup(e) && |vs| == |e.exprs|
    requires forall i :: 0 <= i < |vs| ==> vs[i] == Holds(Truth(e.exprs[i], Held(leaf)))
    ensures e.All? ==> (Truth(e, Held(leaf)) <==> forall i :: 0 <= i < |vs| ==> vs[i].b)
    ensures e.Any? ==> (Truth(e, Held(leaf)) <==> exists i :: 0 <= i < |vs| && vs[i].b)
  {
    if i :| 0 <= i < |vs| && vs[i].b {
      assert e.exprs[i] in e.exprs;
    }
    if e.Any? && Truth(e, Held(leaf)) {
      var x :| x in e.exprs && Truth(x, Held(leaf));
      var i :| 0 <= i < |e.exprs| && e.exprs[i] == x;
      assert vs[i].b;
    }
  }

  /// Errors

  /** A group errs exactly with the error of the first member that errs, if no member before it decides the group. */
  lemma {:induction false} FirstError(all: bool, vs: seq<Verdict>, error: string)
    ensures (if all then Conj(vs) else Disj(vs)) == Fails(error) <==>
      exists i :: 0 <= i < |vs| && vs[i] == Fails(error) && forall j :: 0 <= j < i ==> vs[j] == Holds(all)
  {
    if vs != [] {
      var rest := vs[1..];
      FirstError(all, rest, error);
      assert forall i :: 0 < i < |vs| ==> vs[i] == rest[i - 1];
      assert forall i :: 0 <= i < |rest| ==> rest[i] == vs[i + 1];
      if i :| 0 <= i < |rest| && rest[i] == Fails(error) && forall j :: 0 <= j < i ==> rest[j] == Holds(all) {
        if vs[0] == Holds(all) {
          assert vs[i + 1] == Fails(error) && forall j :: 0 <= j < i + 1 ==> vs[j] == Holds(all);
        }
      }
      if i :| 0 <= i < |vs| && vs[i] == Fails(error) && forall j :: 0 <= j < i ==> vs[j] == Holds(all) {
        if i > 0 {
          assert rest[i - 1] == Fails(error) && forall j :: 0 <= j < i - 1 ==> rest[j] == Holds(all);
        }
      }
    }
  }

  function Nots(es: seq<Expr>): seq<Expr> {
    seq(|es|, i requires 0 <= i < |es| => Not(es[i]))
  }

  lemma {:induction false} NegatedConj(vs: seq<Verdict>, ws: seq<Verdict>)
    requires |vs| == |ws| && forall i :: 0 <= i < |vs| ==> ws[i] == Negated(vs[i])
    ensures Negated(Conj(vs)) == Disj(ws) && Negated(Disj(vs)) == Conj(ws)
  {
    if vs != [] {
      NegatedConj(vs[1..], ws[1..]);
    }
  }

  /** De Morgan's laws, errors included: NOT of an AND is the OR of the NOTs, and the other way round; two NOTs
      cancel. */
  lemma DeMorgan(es: seq<Expr>, e: Expr, leaf: ConstraintConfig -> Verdict)
    ensures Eval(Not(All(es)), leaf) == Eval(Any(Nots(es)), leaf)
    ensures Eval(Not(Any(es)), leaf) == Eval(All(Nots(es)), leaf)
    ensures Eval(Not(Not(e)), leaf) == Eval(e, leaf)
  {
    forall i | 0 <= i < |es|
      ensures Verdicts(Nots(es), leaf)[i] == Negated(Verdicts(es, leaf)[i])
    {
      assert Nots(es)[i] == Not(es[i]) && Eval(Not(es[i]), leaf) == Negated(Eval(es[i], leaf));
    }
    NegatedConj(Verdicts(es, leaf), Verdicts(Nots(es), leaf));
  }
}
