// When the simplification that comes with a delete changes the meaning of a constraint tree: an empty OR, which it
// turns from false into true, has to show at the root.
module ConstraintDeleteMeaning {
  import opened Domain
  import opened ConstraintTree
  import opened ConstraintMeaning
  import opened ConstraintMoveMeaning

  /** A group tells its members' verdicts `vs` and `ws` apart by member `i`, the first in which they differ: it comes
      there undecided, and does not go on behind one of the two to end with the other. */
  predicate TellsApart(all: bool, vs: seq<Verdict>, ws: seq<Verdict>, i: nat)
    requires i < |vs| == |ws|
  {
    && Neutral(all, vs[..i])
    && (vs[i] == Holds(all) ==> Fold(all, vs[i + 1..]) != ws[i])
    && (ws[i] == Holds(all) ==> Fold(all, ws[i + 1..]) != vs[i])
  }

  lemma TellsApartExactly(all: bool, vs: seq<Verdict>, ws: seq<Verdict>, i: nat)
    requires i < |vs| == |ws| && vs[..i] == ws[..i] && vs[i] != ws[i]
    ensures TellsApart(all, vs, ws, i) <==> Fold(all, vs) != Fold(all, ws)
  {
    hide Fold, Neutral;
    FoldAt(all, vs, i);
    FoldAt(all, ws, i);
  }

  /** Some empty OR of the tree shows at its root: reading it as true gives another verdict than reading it as false. */
  predicate EmptyOrShows(e: Expr, leaf: ConstraintConfig -> Verdict)
    decreases e
  {
    match e
    case Always => false
    case Leaf(_) => false
    case Not(x) => EmptyOrShows(x, leaf)
    case All(es) => ShowsInGroup(true, es, leaf)
    case Any(es) => es == [] || ShowsInGroup(false, es, leaf)
  }

  /** One shows in member `i`, none in a member before it, and the group tells the two readings apart. */
  predicate ShowsInGroup(all: bool, es: seq<Expr>, leaf: ConstraintConfig -> Verdict)
    decreases es
  {
    exists i :: 0 <= i < |es| && EmptyOrShows(es[i], leaf) && (forall j :: 0 <= j < i ==> !EmptyOrShows(es[j], leaf))
      && TellsApart(all, Verdicts(es, leaf), LenientVerdicts(es, leaf), i)
  }

  lemma {:induction false} EmptyOrShowsExactly(e: Expr, leaf: ConstraintConfig -> Verdict)
    ensures EmptyOrShows(e, leaf) <==> LenientEval(e, leaf) != Eval(e, leaf)
  {
    if e.Not? {
      EmptyOrShowsExactly(e.inner, leaf);
    } else if IsGroup(e) {
      forall i | 0 <= i < |e.exprs|
        ensures EmptyOrShows(e.exprs[i], leaf) <==> LenientVerdicts(e.exprs, leaf)[i] != Verdicts(e.exprs, leaf)[i]
      {
        EmptyOrShowsExactly(e.exprs[i], leaf);
      }
      GroupShows(e.All?, e.exprs, leaf);
    }
  }

  lemma GroupShows(all: bool, es: seq<Expr>, leaf: ConstraintConfig -> Verdict)
    requires forall i :: 0 <= i < |es| ==>
               (EmptyOrShows(es[i], leaf) <==> LenientVerdicts(es, leaf)[i] != Verdicts(es, leaf)[i])
    ensures ShowsInGroup(all, es, leaf) <==> Fold(all, LenientVerdicts(es, leaf)) != Fold(all, Verdicts(es, leaf))
  {
    hide Fold, EmptyOrShows, TellsApart;
    var (vs, ws) := (Verdicts(es, leaf), LenientVerdicts(es, leaf));
    if exists i :: 0 <= i < |es| && EmptyOrShows(es[i], leaf) {
      var i := FirstShown(es, leaf);
      assert vs[..i] == ws[..i];
      TellsApartExactly(all, vs, ws, i);
    } else {
      assert vs == ws;
    }
  }

  lemma FirstShown(es: seq<Expr>, leaf: ConstraintConfig -> Verdict) returns (i: nat)
    requires exists k :: 0 <= k < |es| && EmptyOrShows(es[k], leaf)
    ensures i < |es| && EmptyOrShows(es[i], leaf) && forall j :: 0 <= j < i ==> !EmptyOrShows(es[j], leaf)
  {
    i := 0;
    while !EmptyOrShows(es[i], leaf)
      invariant i < |es| && forall j :: 0 <= j < i ==> !EmptyOrShows(es[j], leaf)
      decreases |es| - i
    {
      i := i + 1;
    }
  }

  /** Exactly when the simplification of a delete changes what is left: an empty OR shows at the root. A delete that
      hits no row leaves the whole tree, so it changes the meaning exactly when one shows there. */
  lemma DeleteChangesMeaningExactly(e: Expr, k: nat, leaf: ConstraintConfig -> Verdict)
    requires EraseAt(e, k).Some?
    ensures var kept := EraseAt(e, k).value;
      && (Eval(DeleteAt(e, k), leaf) != Eval(kept, leaf) <==> EmptyOrShows(kept, leaf))
      && (k >= Size(e) ==> kept == e)
  {
    DeleteMeaning(e, k, leaf);
    EmptyOrShowsExactly(EraseAt(e, k).value, leaf);
  }
}
