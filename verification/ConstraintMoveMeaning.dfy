// What moving a node of a constraint tree does to the tree's meaning: the exact condition under which it changes.
module ConstraintMoveMeaning {
  import opened Domain
  import opened Blocks
  import opened OutlineMoves
  import opened ConstraintTree
  import opened ConstraintMeaning

  /// One group

  /** The verdict of an AND, or of an OR, over these verdicts. */
  function Fold(all: bool, vs: seq<Verdict>): Verdict {
    if all then Conj(vs) else Disj(vs)
  }

  /** None of these verdicts decides an AND, or an OR: it goes on to what comes behind them. */
  predicate Neutral(all: bool, vs: seq<Verdict>) {
    forall i :: 0 <= i < |vs| ==> vs[i] == Holds(all)
  }

  lemma {:induction false} FoldBoth(all: bool, a: seq<Verdict>, b: seq<Verdict>)
    ensures Fold(all, a + b) == if Neutral(all, a) then Fold(all, b) else Fold(all, a)
    ensures Neutral(all, a) <==> Fold(all, a) == Holds(all)
  {
    if a == [] {
      assert a + b == b;
    } else {
      assert (a + b)[1..] == a[1..] + b;
      assert Neutral(all, a) <==> a[0] == Holds(all) && Neutral(all, a[1..]);
      FoldBoth(all, a[1..], b);
    }
  }

  lemma FoldOne(all: bool, v: Verdict)
    ensures Fold(all, [v]) == v
  {
    assert [v][1..] == [] && Conj([]) == Holds(true) && Disj([]) == Holds(false);
  }

  /** The group's verdict hangs on verdict `i` only behind undecided ones, and then on those behind it only if `i` does
      not decide either. */
  lemma FoldAt(all: bool, vs: seq<Verdict>, i: nat)
    requires i < |vs|
    ensures Fold(all, vs) ==
            if !Neutral(all, vs[..i]) then Fold(all, vs[..i])
            else if vs[i] == Holds(all) then Fold(all, vs[i + 1..])
            else vs[i]
  {
    assert vs == vs[..i] + vs[i..] && vs[i..] == [vs[i]] + vs[i + 1..];
    FoldBoth(all, vs[..i], vs[i..]);
    FoldBoth(all, [vs[i]], vs[i + 1..]);
    FoldOne(all, vs[i]);
  }

  /** Exchanging neighbours `i` and `i + 1` shows in the group's verdict: the group comes to them undecided, either one
      decides it, and not alike. One of the two then errs. */
  predicate SwapShows(all: bool, vs: seq<Verdict>, i: nat)
    requires i + 1 < |vs|
  {
    Neutral(all, vs[..i]) && vs[i] != Holds(all) && vs[i + 1] != Holds(all) && vs[i] != vs[i + 1]
  }

  lemma SwapShowsExactly(all: bool, vs: seq<Verdict>, i: nat)
    requires i + 1 < |vs|
    ensures Fold(all, Swapped(vs, i, i + 1)) != Fold(all, vs) <==> SwapShows(all, vs, i)
    ensures SwapShows(all, vs, i) ==>
      Fold(all, vs) == vs[i] && Fold(all, Swapped(vs, i, i + 1)) == vs[i + 1] && (vs[i].Fails? || vs[i + 1].Fails?)
  {
    var ws := Swapped(vs, i, i + 1);
    assert ws[..i] == vs[..i] && ws[i + 2..] == vs[i + 2..] && ws[i] == vs[i + 1] && ws[i + 1] == vs[i];
    hide Fold, Neutral;
    FoldTwo(all, vs, i);
    FoldTwo(all, ws, i);
  }

  lemma FoldTwo(all: bool, vs: seq<Verdict>, i: nat)
    requires i + 1 < |vs|
    ensures Fold(all, vs) ==
            if !Neutral(all, vs[..i]) then Fold(all, vs[..i])
            else if vs[i] != Holds(all) then vs[i]
            else if vs[i + 1] != Holds(all) then vs[i + 1]
            else Fold(all, vs[i + 2..])
  {
    FoldAt(all, vs, i);
    if Neutral(all, vs[..i]) && vs[i] == Holds(all) {
      assert vs[i + 1..][1..] == vs[i + 2..] && vs[i + 1..][..0] == [];
      FoldAt(all, vs[i + 1..], 0);
    }
  }

  /// One place in a tree

  /** The verdict of the tree if its subtree at row `p` had the verdict `v`. */
  function Valued(e: Expr, p: int, v: Verdict, leaf: ConstraintConfig -> Verdict): Verdict {
    if p <= 0 || p >= Size(e) then v
    else if e.Not? then Negated(Valued(e.inner, p - 1, v, leaf))
    else
      var (i, off) := Locate(Sizes(e.exprs), p - 1);
      Fold(e.All?, Verdicts(e.exprs, leaf)[i := Valued(e.exprs[i], off, v, leaf)])
  }

  lemma {:induction false} ValuedReplace(e: Expr, p: nat, r: Expr, leaf: ConstraintConfig -> Verdict)
    requires p < Size(e)
    ensures Eval(ReplaceAt(e, p, r), leaf) == Valued(e, p, Eval(r, leaf), leaf)
  {
    if p == 0 {
    } else if e.Not? {
      ValuedReplace(e.inner, p - 1, r, leaf);
    } else {
      var (i, off) := Locate(Sizes(e.exprs), p - 1);
      ValuedReplace(e.exprs[i], off, r, leaf);
      ReplaceInGroup(e, p, r);
      assert Verdicts(ReplaceAt(e, p, r).exprs, leaf)
          == Verdicts(e.exprs, leaf)[i := Valued(e.exprs[i], off, Eval(r, leaf), leaf)];
    }
  }

  /** Whether the tree tells the verdicts `a` and `b` of its subtree at row `p` apart: every group on the way comes to
      that child undecided, and none that goes on behind one of the two ends with the other. */
  predicate Reaches(e: Expr, p: int, a: Verdict, b: Verdict, leaf: ConstraintConfig -> Verdict) {
    if p <= 0 || p >= Size(e) then a != b
    else if e.Not? then Reaches(e.inner, p - 1, a, b, leaf)
    else
      var (i, off) := Locate(Sizes(e.exprs), p - 1);
      var vs := Verdicts(e.exprs, leaf);
      var (x, y) := (Valued(e.exprs[i], off, a, leaf), Valued(e.exprs[i], off, b, leaf));
      && Reaches(e.exprs[i], off, a, b, leaf) && Neutral(e.All?, vs[..i])
      && (x == Holds(e.All?) ==> Fold(e.All?, vs[i + 1..]) != y)
      && (y == Holds(e.All?) ==> Fold(e.All?, vs[i + 1..]) != x)
  }

  lemma {:induction false} ReachesExactly(e: Expr, p: nat, a: Verdict, b: Verdict, leaf: ConstraintConfig -> Verdict)
    ensures Reaches(e, p, a, b, leaf) <==> Valued(e, p, a, leaf) != Valued(e, p, b, leaf)
  {
    hide Fold, Neutral, Eval, Verdicts;
    if p == 0 || p >= Size(e) {
    } else if e.Not? {
      ReachesExactly(e.inner, p - 1, a, b, leaf);
    } else {
      var (i, off) := Locate(Sizes(e.exprs), p - 1);
      ReachesExactly(e.exprs[i], off, a, b, leaf);
      var (x, y) := (Valued(e.exprs[i], off, a, leaf), Valued(e.exprs[i], off, b, leaf));
      VerdictsLength(e.exprs, leaf);
      FoldPut(e.All?, Verdicts(e.exprs, leaf), i, x);
      FoldPut(e.All?, Verdicts(e.exprs, leaf), i, y);
    }
  }

  lemma VerdictsLength(es: seq<Expr>, leaf: ConstraintConfig -> Verdict)
    ensures |Verdicts(es, leaf)| == |es|
  {
  }

  lemma FoldPut(all: bool, vs: seq<Verdict>, i: nat, x: Verdict)
    requires i < |vs|
    ensures Fold(all, vs[i := x]) ==
            if !Neutral(all, vs[..i]) then Fold(all, vs[..i])
            else if x == Holds(all) then Fold(all, vs[i + 1..])
            else x
  {
    var ws := vs[i := x];
    assert ws[..i] == vs[..i] && ws[i + 1..] == vs[i + 1..];
    FoldAt(all, ws, i);
  }

  /// Moves

  /** What a move of the node at row `k` exchanges: the row of the group, and the index of the first of its two
      children; nothing if there is no sibling on that side. */
  function Trade(e: Expr, k: int, up: bool): Option<(nat, nat)> {
    if k <= 0 || k >= Size(e) then None
    else if e.Not? then Below(1, Trade(e.inner, k - 1, up))
    else
      var (i, off) := Locate(Sizes(e.exprs), k - 1);
      var j := Partner(i, |e.exprs|, up);
      if off > 0 then Below(1 + Start(Sizes(e.exprs), i), Trade(e.exprs[i], off, up))
      else if j.Some? then Some((0, if up then j.value else i)) else None
  }

  function Below(rows: nat, t: Option<(nat, nat)>): Option<(nat, nat)> {
    if t.Some? then Some((t.value.0 + rows, t.value.1)) else None
  }

  /** A move exchanges neighbours `i` and `i + 1` of the group at row `p`. */
  predicate Trades(e: Expr, k: nat, up: bool, p: nat, i: nat) {
    && NodeAt(e, p).Some? && p < Size(e)
    && var g := NodeAt(e, p).value;
      && IsGroup(g) && i + 1 < |g.exprs|
      && k == p + 1 + Start(Sizes(g.exprs), if up then i + 1 else i)
      && MoveAt(e, k, up) == ReplaceAt(e, p, WithKids(g, Swapped(g.exprs, i, i + 1)))
  }

  lemma MoveUnderNot(e: Expr, k: nat, up: bool)
    requires e.Not? && 0 < k < Size(e)
    ensures MoveAt(e, k, up) == Not(MoveAt(e.inner, k - 1, up))
    ensures Trade(e, k, up) == Below(1, Trade(e.inner, k - 1, up))
  {
  }

  lemma TradesUnderNot(e: Expr, k: nat, up: bool, p: nat, i: nat)
    requires e.Not? && 0 < k < Size(e) && Trades(e.inner, k - 1, up, p, i)
    ensures Trades(e, k, up, p + 1, i)
  {
    hide Sum, Start, Locate, WithKids, Swapped, MoveAt, ReplaceAt;
    MoveUnderNot(e, k, up);
    var g := NodeAt(e.inner, p).value;
    assert NodeAt(e, p + 1) == Some(g);
    NotReplaced(e, p + 1, WithKids(g, Swapped(g.exprs, i, i + 1)));
  }

  lemma NotReplaced(e: Expr, p: nat, r: Expr)
    requires e.Not? && 0 < p < Size(e)
    ensures ReplaceAt(e, p, r) == Not(ReplaceAt(e.inner, p - 1, r))
  {
  }

  lemma {:induction false} MoveTrades(e: Expr, k: nat, up: bool)
    ensures var t := Trade(e, k, up);
      if t.Some? then Trades(e, k, up, t.value.0, t.value.1) else MoveAt(e, k, up) == e
  {
    hide Trades, Sum, Start, Locate;
    if k == 0 || k >= Size(e) {
    } else if e.Not? {
      MoveTrades(e.inner, k - 1, up);
      MoveUnderNot(e, k, up);
      var t := Trade(e.inner, k - 1, up);
      if t.Some? {
        TradesUnderNot(e, k, up, t.value.0, t.value.1);
      }
    } else {
      GroupTrades(e, k, up);
    }
  }

  lemma {:induction false} GroupTrades(e: Expr, k: nat, up: bool)
    requires IsGroup(e) && 0 < k < Size(e)
    ensures var t := Trade(e, k, up);
      if t.Some? then Trades(e, k, up, t.value.0, t.value.1) else MoveAt(e, k, up) == e
    decreases e, 0
  {
    hide Trades, MoveAt, Sum, Start, Locate, Size, NodeAt, ReplaceAt, Swapped;
    var es := e.exprs;
    assert k - 1 < Sum(Sizes(es)) by {
      GroupSize(e);
    }
    var (i, off) := Locate(Sizes(es), k - 1);
    MoveInGroup(e, k, up);
    if off > 0 {
      MoveTrades(es[i], off, up);
      var t := Trade(es[i], off, up);
      if t.Some? {
        TradesInKid(e, k, up, i, off, t.value.0, t.value.1);
      } else {
        assert es[i := es[i]] == es;
      }
    } else if Partner(i, |es|, up).Some? {
      TradesKids(e, k, up, i);
    }
  }

  lemma GroupSize(e: Expr)
    requires IsGroup(e)
    ensures Size(e) == 1 + Sum(Sizes(e.exprs))
    ensures NodeAt(e, 0) == Some(e) && forall r :: ReplaceAt(e, 0, r) == r
  {
  }

  lemma MoveInGroup(e: Expr, k: nat, up: bool)
    requires IsGroup(e) && 0 < k < Size(e)
    ensures var (es, (i, off)) := (e.exprs, Locate(Sizes(e.exprs), k - 1));
      var j := Partner(i, |es|, up);
      && MoveAt(e, k, up) ==
           WithKids(e,
             if off > 0 then es[i := MoveAt(es[i], off, up)] else if j.Some? then Swapped(es, i, j.value) else es)
      && WithKids(e, es) == e
      && Trade(e, k, up) ==
           if off > 0 then Below(1 + Start(Sizes(es), i), Trade(es[i], off, up))
           else if j.Some? then Some((0, if up then j.value else i)) else None
  {
  }

  lemma TradesKids(e: Expr, k: nat, up: bool, i: nat)
    requires IsGroup(e) && 0 < k < Size(e) && Locate(Sizes(e.exprs), k - 1) == (i, 0)
    requires Partner(i, |e.exprs|, up).Some?
    ensures Trades(e, k, up, 0, if up then i - 1 else i)
  {
    hide MoveAt, Sum, Locate, Size, NodeAt, ReplaceAt;
    GroupSize(e);
    MoveInGroup(e, k, up);
    var (es, j) := (e.exprs, Partner(i, |e.exprs|, up).value);
    var n := if up then j else i;
    assert Swapped(es, i, j) == Swapped(es, n, n + 1);
  }

  lemma TradesInKid(e: Expr, k: nat, up: bool, i: nat, off: nat, p: nat, n: nat)
    requires IsGroup(e) && 0 < k < Size(e) && Locate(Sizes(e.exprs), k - 1) == (i, off) && off > 0
    requires Trades(e.exprs[i], off, up, p, n)
    ensures Trades(e, k, up, 1 + Start(Sizes(e.exprs), i) + p, n)
  {
    hide MoveAt, Sum, Locate, Size, ReplaceAt, Swapped;
    var (es, row) := (e.exprs, 1 + Start(Sizes(e.exprs), i) + p);
    GroupSize(e);
    LocateUnique(Sizes(es), row - 1, i);
    MoveInGroup(e, k, up);
    var g := NodeAt(es[i], p).value;
    ReplaceInGroup(e, row, WithKids(g, Swapped(g.exprs, n, n + 1)));
  }

  /** Exactly when a move changes what the tree means: the exchange of the two neighbours shows in their group, and the
      tree tells their verdicts apart. */
  lemma MoveChangesMeaningExactly(e: Expr, k: nat, up: bool, p: nat, i: nat, leaf: ConstraintConfig -> Verdict)
    requires Trade(e, k, up) == Some((p, i))
    ensures Trades(e, k, up, p, i)
    ensures var g := NodeAt(e, p).value;
      var vs := Verdicts(g.exprs, leaf);
      && |vs| == |g.exprs|
      && (Eval(MoveAt(e, k, up), leaf) != Eval(e, leaf) <==>
            SwapShows(g.All?, vs, i) && Reaches(e, p, vs[i], vs[i + 1], leaf))
  {
    hide SwapShows, Reaches, MoveAt, Valued, ReplaceAt, NodeAt, Neutral, Trade, Start;
    MoveTrades(e, k, up);
    var g := NodeAt(e, p).value;
    var swapped := WithKids(g, Swapped(g.exprs, i, i + 1));
    var vs := Verdicts(g.exprs, leaf);
    assert Verdicts(swapped.exprs, leaf) == Swapped(vs, i, i + 1);
    assert Eval(g, leaf) == Fold(g.All?, vs) && Eval(swapped, leaf) == Fold(g.All?, Swapped(vs, i, i + 1));
    SwapShowsExactly(g.All?, vs, i);
    ValuedReplace(e, p, swapped, leaf);
    ValuedReplace(e, p, g, leaf);
    ReplaceKeepsMeaning(e, p, g, leaf);
    if SwapShows(g.All?, vs, i) {
      ReachesExactly(e, p, vs[i], vs[i + 1], leaf);
    }
  }

  /** Neither child `i` of the group at row `p` nor the one behind it errs. */
  predicate PairHolds(e: Expr, p: nat, i: nat, leaf: ConstraintConfig -> Verdict) {
    && NodeAt(e, p).Some? && IsGroup(NodeAt(e, p).value)
    && forall n :: i <= n <= i + 1 && n < |NodeAt(e, p).value.exprs| ==> Eval(NodeAt(e, p).value.exprs[n], leaf).Holds?
  }

  /** A move keeps the meaning of every tree in which neither of the two nodes that it exchanges errs. */
  lemma MoveKeepsMeaning(e: Expr, k: nat, up: bool, leaf: ConstraintConfig -> Verdict)
    requires Trade(e, k, up).Some? ==> PairHolds(e, Trade(e, k, up).value.0, Trade(e, k, up).value.1, leaf)
    ensures Eval(MoveAt(e, k, up), leaf) == Eval(e, leaf)
  {
    hide Reaches, MoveAt, Trade, Start;
    MoveTrades(e, k, up);
    if Trade(e, k, up).Some? {
      var (p, i) := Trade(e, k, up).value;
      MoveChangesMeaningExactly(e, k, up, p, i, leaf);
    }
  }

  /** With an erring leaf a move can turn a verdict into an error. */
  lemma MoveCanExposeAnError(no: ConstraintConfig, bad: ConstraintConfig, leaf: ConstraintConfig -> Verdict)
    requires leaf(no) == Holds(false) && leaf(bad).Fails?
    ensures var e := All([Leaf(no), Leaf(bad)]);
      Eval(e, leaf) == Holds(false) && Eval(MoveAt(e, 2, true), leaf) == leaf(bad)
  {
    var (a, b) := (Leaf(no), Leaf(bad));
    assert Size(a) == 1 && Size(b) == 1;
    var sizes := Sizes([a, b]);
    assert sizes == [1, 1] && sizes[..1] == [1] && [1][..0] == [];
    assert Start(sizes, 1) == 1 && Sum(sizes) == 2;
    LocateUnique(sizes, 1, 1);
    assert Swapped([a, b], 1, 0) == [b, a];
    assert Eval(a, leaf) == leaf(no) && Eval(b, leaf) == leaf(bad);
    assert Verdicts([a, b], leaf) == [leaf(no), leaf(bad)];
    assert Verdicts([b, a], leaf) == [leaf(bad), leaf(no)];
  }
}
