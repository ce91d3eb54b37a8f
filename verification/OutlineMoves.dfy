// Moving a node of an outline among its siblings: rows, inverses and refusals.
module OutlineMoves {
  import opened Domain
  import opened Blocks
  import opened Outlines

  /** The sibling `i` trades places with. */
  function Partner(i: nat, n: nat, up: bool): Option<nat>
    requires i < n
  {
    if up then (if i > 0 then Some(i - 1) else None)
    else if i + 1 < n then Some(i + 1) else None
  }

  /** Swap the node at row `k` with its previous or next sibling, if its parent is a list. */
  function Move<K>(t: Outline<K>, k: nat, up: bool): Outline<K> {
    if k == 0 || k >= Size(t) then t
    else
      var ts := t.kids;
      var (i, off) := Locate(Sizes(ts), k - 1);
      var j := Partner(i, |ts|, up);
      t.(kids :=
        if off > 0 then ts[i := Move(ts[i], off, up)]
        else if t.list && j.Some? then Swapped(ts, i, j.value) else ts)
  }

  /** The size of the sibling the node at row `k` would trade places with. */
  function Sibling<K>(t: Outline<K>, k: nat, up: bool): Option<nat> {
    if k == 0 || k >= Size(t) then None
    else
      var ts := t.kids;
      var (i, off) := Locate(Sizes(ts), k - 1);
      var j := Partner(i, |ts|, up);
      if off > 0 then Sibling(ts[i], off, up)
      else if t.list && j.Some? then Some(Size(ts[j.value])) else None
  }

  lemma KidMove<K>(t: Outline<K>, i: nat, off: nat, up: bool)
    requires i < |t.kids| && off < Size(t.kids[i])
    ensures var (ts, k, j) := (t.kids, RowOf(t, i, off), Partner(i, |t.kids|, up));
      if off > 0 then
        && Sibling(t, k, up) == Sibling(ts[i], off, up)
        && Move(t, k, up) == t.(kids := ts[i := Move(ts[i], off, up)])
      else if t.list && j.Some? then
        && Sibling(t, k, up) == Some(Size(ts[j.value]))
        && Move(t, k, up) == t.(kids := Swapped(ts, i, j.value))
      else Sibling(t, k, up) == None && Move(t, k, up) == t
  {
    hide Locate, Sum, Start, Size, RowOf;
    KidLocate(t, i, off);
  }

  lemma SiblingRow<K>(t: Outline<K>, k: nat, up: bool)
    requires Sibling(t, k, up).Some?
    ensures 0 < k < Size(t)
  {
  }

  /** Without such a sibling the move changes nothing. */
  lemma {:induction false} MoveWithoutSibling<K>(t: Outline<K>, k: nat, up: bool)
    requires Sibling(t, k, up).None?
    ensures Move(t, k, up) == t
  {
    if 0 < k < Size(t) {
      hide *;
      var i, off := InKid(t, k);
      KidMove(t, i, off, up);
      if off > 0 {
        MoveWithoutSibling(t.kids[i], off, up);
      }
    }
  }

  /// Sizes

  lemma SizesSwap<K>(ts: seq<Outline<K>>, i: nat, j: nat)
    requires i < |ts| && j < |ts|
    ensures Sizes(Swapped(ts, i, j)) == Swapped(Sizes(ts), i, j)
    ensures Sum(Swapped(Sizes(ts), i, j)) == Sum(Sizes(ts))
  {
    hide Size, Sum;
    var sizes := Sizes(ts);
    SumUpdate(sizes, i, sizes[j]);
    SumUpdate(sizes[i := sizes[j]], j, sizes[i]);
  }

  lemma {:induction false} MoveKeepsSize<K>(t: Outline<K>, k: nat, up: bool)
    ensures Size(Move(t, k, up)) == Size(t)
  {
    if 0 < k < Size(t) {
      var ts := t.kids;
      var (i, off) := Locate(Sizes(ts), k - 1);
      var j := Partner(i, |ts|, up);
      if off > 0 {
        MoveKeepsSize(ts[i], off, up);
        assert Sizes(ts[i := Move(ts[i], off, up)]) == Sizes(ts);
      } else if t.list && j.Some? {
        SizesSwap(ts, i, j.value);
      }
    }
  }

  /** A node lies inside its tree, its previous sibling before it and its next sibling behind it. */
  lemma {:induction false} SiblingInside<K>(t: Outline<K>, k: nat)
    requires 0 < k < Size(t)
    ensures NodeSize(t, k) > 0 && k + NodeSize(t, k) <= Size(t)
    ensures Sibling(t, k, true).Some? ==> Sibling(t, k, true).value < k
    ensures Sibling(t, k, false).Some? ==> k + NodeSize(t, k) < Size(t)
  {
    hide Sibling, NodeAt, Move, Size, Sum, Sizes, Locate, Start;
    var i, off := InKid(t, k);
    KidNode(t, i, off);
    KidMove(t, i, off, true);
    KidMove(t, i, off, false);
    NextKid(t, i);
    if i > 0 {
      NextKid(t, i - 1);
    }
    if off > 0 {
      SiblingInside(t.kids[i], off);
    }
  }

  /** The sibling of child `i` of the node at row `p`: the child before it or behind it, if the node is a list and has
      one there. */
  lemma {:induction false} SiblingOfKid<K>(t: Outline<K>, p: nat, i: nat, up: bool)
    requires NodeAt(t, p).Some? && i < |NodeAt(t, p).value.kids|
    ensures var (g, k) := (NodeAt(t, p).value, p + RowOf(NodeAt(t, p).value, i, 0));
      && k < Size(t)
      && Sibling(t, k, up)
           == if !g.list then None
              else if up then (if i > 0 then Some(Size(g.kids[i - 1])) else None)
              else (if i + 1 < |g.kids| then Some(Size(g.kids[i + 1])) else None)
  {
    hide Sibling, NodeAt, Move, Size, Sum, Sizes, Locate, Start, RowOf;
    var g := NodeAt(t, p).value;
    NodeInside(t, p);
    if p == 0 {
      KidMove(t, i, 0, up);
      KidNode(t, i, 0);
      NodeInside(t.kids[i], 0);
    } else {
      var j, off := InKid(t, p);
      KidNode(t, j, off);
      SiblingOfKid(t.kids[j], off, i, up);
      var below := off + RowOf(g, i, 0);
      RowsOfKid(t, j, off);
      RowsOfKid(t, j, below);
      RowIsBelow(g, i);
      KidMove(t, j, below, up);
      KidNode(t, j, below);
    }
  }

  lemma RowIsBelow<K>(t: Outline<K>, i: nat)
    requires i < |t.kids|
    ensures RowOf(t, i, 0) > 0
  {
  }

  /// Up and down are inverse

  lemma SwapBack<T>(xs: seq<T>, i: nat, j: nat)
    requires i < |xs| && j < |xs|
    ensures Swapped(Swapped(xs, i, j), j, i) == xs
    ensures Swapped(xs, i, j) == Swapped(xs, j, i)
  {
  }

  /** After children `i - 1` and `i` have traded places, child `i` starts where child `i - 1` did. */
  lemma KidAfterSwap<K>(t: Outline<K>, i: nat)
    requires 0 < i < |t.kids|
    ensures var t' := t.(kids := Swapped(t.kids, i, i - 1));
      && RowOf(t', i - 1, 0) == RowOf(t, i - 1, 0) == RowOf(t, i, 0) - Size(t.kids[i - 1])
      && t'.kids[i - 1] == t.kids[i] && t'.kids[i] == t.kids[i - 1]
      && t'.(kids := Swapped(t'.kids, i - 1, i)) == t
  {
    var ts := t.kids;
    SizesSwap(ts, i, i - 1);
    assert Swapped(Sizes(ts), i, i - 1)[..i - 1] == Sizes(ts)[..i - 1];
    NextKid(t, i - 1);
    SwapBack(ts, i, i - 1);
  }

  /** After child `i` has been replaced by one of the same size, every row of it keeps its number. */
  lemma KidAfterPut<K>(t: Outline<K>, i: nat, x: Outline<K>, off: nat)
    requires i < |t.kids| && Size(x) == Size(t.kids[i])
    ensures var t' := t.(kids := t.kids[i := x]);
      && RowOf(t', i, off) == RowOf(t, i, off) && t'.kids[i] == x
      && t'.(kids := t'.kids[i := t.kids[i]]) == t
  {
    assert Sizes(t.kids[i := x]) == Sizes(t.kids);
    assert t.kids[i := x][i := t.kids[i]] == t.kids;
  }

  /** Moving a node up and then, from its new row, down again restores the tree; the moved node is found at its
      new row, its old neighbour behind it. */
  ghost predicate UpAndBack<K>(t: Outline<K>, k: nat) {
    && Sibling(t, k, true).Some? && Sibling(t, k, true).value < k
    && var (t', k') := (Move(t, k, true), k - Sibling(t, k, true).value);
      && Move(t', k', false) == t
      && NodeAt(t', k') == NodeAt(t, k)
      && Sibling(t', k', false) == Sibling(t, k, true)
  }

  lemma {:induction false} MoveUpThenDown<K>(t: Outline<K>, k: nat)
    requires Sibling(t, k, true).Some?
    ensures UpAndBack(t, k)
  {
    hide Sibling, NodeAt, Move, Size, Sum, Sizes, Locate, Swapped, Start, RowOf;
    SiblingRow(t, k, true);
    SiblingInside(t, k);
    var i, off := InKid(t, k);
    var x := t.kids[i];
    KidNode(t, i, off);
    KidMove(t, i, off, true);
    if off > 0 {
      var (x', off') := (Move(x, off, true), off - Sibling(x, off, true).value);
      SiblingInside(x, off);
      MoveUpThenDown(x, off);
      MoveKeepsSize(x, off, true);
      UndoInKid(t, i, x', off');
      RowsOfKid(t, i, off);
      RowsOfKid(t, i, off');
    } else {
      UndoSwap(t, i);
    }
  }

  lemma UndoInKid<K>(t: Outline<K>, i: nat, x: Outline<K>, off: nat)
    requires i < |t.kids| && Size(x) == Size(t.kids[i]) && 0 < off < Size(x)
    requires Move(x, off, false) == t.kids[i]
    ensures var (t', k') := (t.(kids := t.kids[i := x]), RowOf(t, i, off));
      && Move(t', k', false) == t
      && NodeAt(t', k') == NodeAt(x, off)
      && Sibling(t', k', false) == Sibling(x, off, false)
  {
    hide Sibling, NodeAt, Move, Size, Sum, Sizes, Locate, Swapped, Start, RowOf;
    KidAfterPut(t, i, x, off);
    KidNode(t.(kids := t.kids[i := x]), i, off);
    KidMove(t.(kids := t.kids[i := x]), i, off, false);
  }

  lemma UndoSwap<K>(t: Outline<K>, i: nat)
    requires t.list && 0 < i < |t.kids|
    ensures Size(t.kids[i - 1]) <= RowOf(t, i, 0)
    ensures var (t', k') := (t.(kids := Swapped(t.kids, i, i - 1)), RowOf(t, i, 0) - Size(t.kids[i - 1]));
      && Move(t', k', false) == t
      && NodeAt(t', k') == Some(t.kids[i])
      && Sibling(t', k', false) == Some(Size(t.kids[i - 1]))
  {
    hide Sibling, NodeAt, Move, Size, Sum, Sizes, Locate, Swapped, Start, RowOf;
    KidAfterSwap(t, i);
    KidNode(t.(kids := Swapped(t.kids, i, i - 1)), i - 1, 0);
    KidMove(t.(kids := Swapped(t.kids, i, i - 1)), i - 1, 0, false);
  }

  /** Moving down is moving the next sibling up. */
  ghost predicate DownIsNextUp<K>(t: Outline<K>, k: nat) {
    var next := k + NodeSize(t, k);
    && Move(t, k, false) == Move(t, next, true)
    && Sibling(t, next, true) == Some(NodeSize(t, k))
    && Sibling(t, k, false) == Some(NodeSize(t, next))
  }

  lemma {:induction false} MoveDownIsNextUp<K>(t: Outline<K>, k: nat)
    requires Sibling(t, k, false).Some?
    ensures DownIsNextUp(t, k)
  {
    hide Sibling, NodeAt, NodeSize, Move, Size, Sum, Sizes, Locate, Swapped, RowOf;
    SiblingRow(t, k, false);
    var i, off := InKid(t, k);
    var x := t.kids[i];
    KidNode(t, i, off);
    KidMove(t, i, off, false);
    if off > 0 {
      var off' := off + NodeSize(x, off);
      SiblingInside(x, off);
      MoveDownIsNextUp(x, off);
      assert RowOf(t, i, off') == k + NodeSize(x, off) by {
        RowsOfKid(t, i, off);
        RowsOfKid(t, i, off');
      }
      KidNode(t, i, off');
      KidMove(t, i, off', true);
    } else {
      NextDown(t, i);
    }
  }

  lemma NextDown<K>(t: Outline<K>, i: nat)
    requires t.list && i + 1 < |t.kids|
    ensures DownIsNextUp(t, RowOf(t, i, 0))
  {
    hide Sibling, NodeAt, Move, Size, Sum, Sizes, Locate, Swapped, RowOf;
    KidNode(t, i, 0);
    KidMove(t, i, 0, false);
    NextKid(t, i);
    KidNode(t, i + 1, 0);
    KidMove(t, i + 1, 0, true);
    SwapBack(t.kids, i, i + 1);
  }

  /** Moving a node down and then, from its new row, up again restores the tree. */
  lemma MoveDownThenUp<K>(t: Outline<K>, k: nat)
    requires Sibling(t, k, false).Some?
    ensures Move(Move(t, k, false), k + Sibling(t, k, false).value, true) == t
  {
    hide Sibling, NodeAt, Move, Size;
    MoveDownIsNextUp(t, k);
    var next := k + NodeSize(t, k);
    MoveUpThenDown(t, next);
    MoveDownIsNextUp(Move(t, next, true), k);
  }

  /// Rows

  ghost predicate ExchangesRows<K>(t: Outline<K>, k: nat, d: nat) {
    var rows := Rows(t, d);
    && Sibling(t, k, true).Some? && 0 < NodeSize(t, k)
    && Sibling(t, k, true).value <= k && k + NodeSize(t, k) <= |rows|
    && Rows(Move(t, k, true), d)
         == Exchanged(rows, k - Sibling(t, k, true).value, k, k + NodeSize(t, k))
  }

  lemma ExchangeStep<K>(t: Outline<K>, x: Outline<K>, pre: seq<Row<K>>, post: seq<Row<K>>, k: nat, off: nat, d: nat)
    requires RowIn(t, x, pre, post, k, off, d) && ExchangesRows(x, off, d + 1)
    requires Sibling(t, k, true) == Sibling(x, off, true)
    requires Rows(Move(t, k, true), d) == pre + Rows(Move(x, off, true), d + 1) + post
    ensures ExchangesRows(t, k, d)
  {
    hide Rows, NodeAt, Size, Sibling, Move, Exchanged;
    ExchangeInside(pre, Rows(x, d + 1), post, off - Sibling(x, off, true).value, off, off + NodeSize(x, off));
  }

  /** A move up exchanges exactly the node's rows with the rows of its previous sibling. */
  lemma {:induction false} MoveUpExchangesRows<K>(t: Outline<K>, k: nat, d: nat)
    requires Sibling(t, k, true).Some?
    ensures ExchangesRows(t, k, d)
  {
    hide *;
    SiblingRow(t, k, true);
    var i, off := InKid(t, k);
    KidMove(t, i, off, true);
    if off > 0 {
      KidRowIn(t, i, off, d);
      MoveUpExchangesRows(t.kids[i], off, d + 1);
      KidReplacedRows(t, i, Move(t.kids[i], off, true), d);
      ExchangeStep(t, t.kids[i], Before(t, i, d), Behind(t, i, d), k, off, d);
    } else {
      PairExchange(t, i, d);
    }
  }

  lemma PairExchange<K>(t: Outline<K>, i: nat, d: nat)
    requires i < |t.kids| && Sibling(t, RowOf(t, i, 0), true).Some?
    ensures ExchangesRows(t, RowOf(t, i, 0), d)
  {
    hide Rows, RowsOf, Sibling, NodeAt, Move, Size, Exchanged, Swapped, Sum, Start;
    KidNode(t, i, 0);
    KidMove(t, i, 0, true);
    var (ts, s) := (t.kids, Start(Sizes(t.kids), i));
    KidsExchange(ts, i, d + 1);
    RowsOne(t, d);
    RowsOne(t.(kids := Swapped(ts, i, i - 1)), d);
    ExchangeBehind([Row(d, t.kind)], RowsOf(ts, d + 1), s - Size(ts[i - 1]), s, s + Size(ts[i]));
  }

  lemma ExchangeBehind<T>(g: seq<T>, xs: seq<T>, a: nat, b: nat, c: nat)
    requires a <= b <= c <= |xs|
    ensures Exchanged(g + xs, |g| + a, |g| + b, |g| + c) == g + Exchanged(xs, a, b, c)
  {
    ExchangeInside(g, xs, [], a, b, c);
    assert g + xs + [] == g + xs;
  }

  lemma KidsExchange<K>(ts: seq<Outline<K>>, i: nat, d: nat)
    requires 0 < i < |ts|
    ensures var (rows, s) := (RowsOf(ts, d), Start(Sizes(ts), i));
      && Size(ts[i - 1]) <= s && s + Size(ts[i]) <= |rows|
      && RowsOf(Swapped(ts, i, i - 1), d) == Exchanged(rows, s - Size(ts[i - 1]), s, s + Size(ts[i]))
  {
    hide Rows, RowsEach, Concat, Size, Sizes, Sum, Swapped, Exchanged;
    KidBlocks(ts, i, d);
    ConcatSwap(RowsEach(ts, d), i);
  }

  lemma KidBlocks<K>(ts: seq<Outline<K>>, i: nat, d: nat)
    requires 0 < i < |ts|
    ensures var blocks := RowsEach(ts, d);
      && |blocks| == |ts| && Lens(blocks) == Sizes(ts)
      && |blocks[i]| == Size(ts[i]) && |blocks[i - 1]| == Size(ts[i - 1])
      && RowsEach(Swapped(ts, i, i - 1), d) == Swapped(blocks, i, i - 1)
  {
    SizesCountRows(ts, d);
    SizeCountsRows(ts[i], d);
    SizeCountsRows(ts[i - 1], d);
  }
}
