// What both editors show: a tree of labelled rows. A node's rows are its own row and then the rows of its children,
// one level further in; edits name a node by its row number.
module Outlines {
  import opened Domain
  import opened Blocks

  /** `list` says whether the children may trade places. */
  datatype Outline<K> = Node(kind: K, list: bool, kids: seq<Outline<K>>)

  datatype Row<K> = Row(depth: nat, kind: K)

  function Rows<K>(t: Outline<K>, d: nat): (rows: seq<Row<K>>)
    ensures rows != [] && rows[0] == Row(d, t.kind)
  {
    [Row(d, t.kind)] + Concat(RowsEach(t.kids, d + 1))
  }

  function RowsEach<K>(ts: seq<Outline<K>>, d: nat): seq<seq<Row<K>>> {
    seq(|ts|, i requires 0 <= i < |ts| => Rows(ts[i], d))
  }

  function RowsOf<K>(ts: seq<Outline<K>>, d: nat): seq<Row<K>> {
    Concat(RowsEach(ts, d))
  }

  function Size<K>(t: Outline<K>): (n: nat)
    ensures n >= 1
  {
    1 + Sum(Sizes(t.kids))
  }

  function Sizes<K>(ts: seq<Outline<K>>): seq<nat> {
    seq(|ts|, i requires 0 <= i < |ts| => Size(ts[i]))
  }

  lemma {:induction false} SizeCountsRows<K>(t: Outline<K>, d: nat)
    ensures |Rows(t, d)| == Size(t)
  {
    SizesCountRows(t.kids, d + 1);
    ConcatLength(RowsEach(t.kids, d + 1));
  }

  lemma {:induction false} SizesCountRows<K>(ts: seq<Outline<K>>, d: nat)
    ensures Lens(RowsEach(ts, d)) == Sizes(ts)
  {
    forall i | 0 <= i < |ts|
      ensures |Rows(ts[i], d)| == Size(ts[i])
    {
      SizeCountsRows(ts[i], d);
    }
  }

  /// Nodes by row number

  /** The node whose row is row `k`. */
  function NodeAt<K>(t: Outline<K>, k: nat): Option<Outline<K>> {
    if k >= Size(t) then None
    else if k == 0 then Some(t)
    else
      var (i, off) := Locate(Sizes(t.kids), k - 1);
      NodeAt(t.kids[i], off)
  }

  function NodeSize<K>(t: Outline<K>, k: nat): nat {
    if NodeAt(t, k).Some? then Size(NodeAt(t, k).value) else 0
  }

  /** The row of row `off` of child `i`. */
  function RowOf<K>(t: Outline<K>, i: nat, off: nat): nat
    requires i < |t.kids|
  {
    1 + Start(Sizes(t.kids), i) + off
  }

  lemma InKid<K>(t: Outline<K>, k: nat) returns (i: nat, off: nat)
    requires 0 < k < Size(t)
    ensures i < |t.kids| && off < Size(t.kids[i]) && k == RowOf(t, i, off)
  {
    var at := Locate(Sizes(t.kids), k - 1);
    i, off := at.0, at.1;
  }

  lemma KidLocate<K>(t: Outline<K>, i: nat, off: nat)
    requires i < |t.kids| && off < Size(t.kids[i])
    ensures 0 < RowOf(t, i, off) < Size(t)
    ensures Locate(Sizes(t.kids), RowOf(t, i, off) - 1) == (i, off)
  {
    hide Locate, Start;
    LocateUnique(Sizes(t.kids), RowOf(t, i, off) - 1, i);
  }

  lemma KidNode<K>(t: Outline<K>, i: nat, off: nat)
    requires i < |t.kids| && off < Size(t.kids[i])
    ensures 0 < RowOf(t, i, off) < Size(t)
    ensures NodeAt(t, RowOf(t, i, off)) == NodeAt(t.kids[i], off)
    ensures NodeSize(t, RowOf(t, i, off)) == NodeSize(t.kids[i], off)
    ensures off == 0 ==> NodeAt(t, RowOf(t, i, off)) == Some(t.kids[i])
  {
    hide Locate, Sum, Start, Size, RowOf;
    KidLocate(t, i, off);
  }

  lemma RowsOfKid<K>(t: Outline<K>, i: nat, off: nat)
    requires i < |t.kids|
    ensures RowOf(t, i, off) == RowOf(t, i, 0) + off
  {
  }

  lemma NextKid<K>(t: Outline<K>, i: nat)
    requires i < |t.kids|
    ensures i + 1 < |t.kids| ==> RowOf(t, i + 1, 0) == RowOf(t, i, 0) + Size(t.kids[i]) < Size(t)
    ensures RowOf(t, i, 0) + Size(t.kids[i]) <= Size(t)
  {
    var sizes := Sizes(t.kids);
    StartNext(sizes, i);
    StartMonotone(sizes, i, |sizes|);
    if i + 1 < |sizes| {
      KidNode(t, i + 1, 0);
    }
  }

  /** A node's first child has the next row. */
  lemma {:induction false} FirstKid<K>(t: Outline<K>, k: nat)
    requires NodeAt(t, k).Some? && NodeAt(t, k).value.kids != []
    ensures NodeAt(t, k + 1) == Some(NodeAt(t, k).value.kids[0])
  {
    hide Sum, Start, Locate, RowOf, Size, NodeAt;
    NodeInside(t, k);
    if k == 0 {
      FirstRow(t);
      KidNode(t, 0, 0);
    } else {
      var i, off := InKid(t, k);
      KidNode(t, i, off);
      FirstKid(t.kids[i], off);
      NodeInside(t.kids[i], off + 1);
      KidNode(t, i, off + 1);
      RowsOfKid(t, i, off);
      RowsOfKid(t, i, off + 1);
    }
  }

  lemma NodeInside<K>(t: Outline<K>, k: nat)
    ensures NodeAt(t, k).Some? ==> k < Size(t)
    ensures NodeAt(t, 0) == Some(t) && Size(t) > 0
  {
  }

  lemma FirstRow<K>(t: Outline<K>)
    requires t.kids != []
    ensures RowOf(t, 0, 0) == 1
  {
    assert Sizes(t.kids)[..0] == [];
  }

  /// Replacing a node by any number of nodes

  function Around<T>(xs: seq<T>, i: nat, ys: seq<T>): seq<T>
    requires i < |xs|
  {
    xs[..i] + ys + xs[i + 1..]
  }

  function Put<K>(t: Outline<K>, k: nat, r: seq<Outline<K>>): seq<Outline<K>> {
    if k >= Size(t) then [t]
    else if k == 0 then r
    else
      var (i, off) := Locate(Sizes(t.kids), k - 1);
      [t.(kids := Around(t.kids, i, Put(t.kids[i], off, r)))]
  }

  lemma KidPut<K>(t: Outline<K>, i: nat, off: nat, r: seq<Outline<K>>)
    requires i < |t.kids| && off < Size(t.kids[i])
    ensures Put(t, RowOf(t, i, off), r) == [t.(kids := Around(t.kids, i, Put(t.kids[i], off, r)))]
  {
    hide Locate, Sum, Start, Size, RowOf;
    KidLocate(t, i, off);
  }

  /// Rows around one child

  function Before<K>(t: Outline<K>, i: nat, d: nat): seq<Row<K>>
    requires i <= |t.kids|
  {
    [Row(d, t.kind)] + RowsOf(t.kids[..i], d + 1)
  }

  function Behind<K>(t: Outline<K>, i: nat, d: nat): seq<Row<K>>
    requires i < |t.kids|
  {
    RowsOf(t.kids[i + 1..], d + 1)
  }

  lemma RowsAround<K>(ts: seq<Outline<K>>, i: nat, r: seq<Outline<K>>, d: nat)
    requires i < |ts|
    ensures RowsOf(Around(ts, i, r), d) == RowsOf(ts[..i], d) + RowsOf(r, d) + RowsOf(ts[i + 1..], d)
  {
    var (a, b, c) := (RowsEach(ts[..i], d), RowsEach(r, d), RowsEach(ts[i + 1..], d));
    assert RowsEach(Around(ts, i, r), d) == a + b + c;
    ConcatAppend(a + b, c);
    ConcatAppend(a, b);
  }

  lemma RowsOne<K>(t: Outline<K>, d: nat)
    ensures RowsOf([t], d) == Rows(t, d) == [Row(d, t.kind)] + RowsOf(t.kids, d + 1)
  {
    assert RowsEach([t], d) == [Rows(t, d)];
    ConcatOne(Rows(t, d));
  }

  lemma Reassociate<T>(g: seq<T>, a: seq<T>, b: seq<T>, c: seq<T>)
    ensures g + (a + b + c) == g + a + b + c
  {
  }

  lemma AroundRows<K>(t: Outline<K>, i: nat, r: seq<Outline<K>>, d: nat)
    requires i < |t.kids|
    ensures Rows(t.(kids := Around(t.kids, i, r)), d) == Before(t, i, d) + RowsOf(r, d + 1) + Behind(t, i, d)
  {
    hide RowsOf, Rows;
    var kids := Around(t.kids, i, r);
    RowsOne(t.(kids := kids), d);
    RowsAround(t.kids, i, r, d + 1);
    Reassociate([Row(d, t.kind)], RowsOf(t.kids[..i], d + 1), RowsOf(r, d + 1), RowsOf(t.kids[i + 1..], d + 1));
  }

  lemma KidReplacedRows<K>(t: Outline<K>, i: nat, x: Outline<K>, d: nat)
    requires i < |t.kids|
    ensures Rows(t.(kids := t.kids[i := x]), d) == Before(t, i, d) + Rows(x, d + 1) + Behind(t, i, d)
  {
    hide Rows, Before, Behind;
    AroundRows(t, i, [x], d);
    RowsOne(x, d + 1);
    assert Around(t.kids, i, [x]) == t.kids[i := x];
  }

  lemma BeforeLength<K>(t: Outline<K>, i: nat, d: nat)
    requires i < |t.kids|
    ensures |Before(t, i, d)| == RowOf(t, i, 0)
  {
    var ts := t.kids[..i];
    SizesCountRows(ts, d + 1);
    ConcatLength(RowsEach(ts, d + 1));
    assert Sizes(t.kids)[..i] == Sizes(ts);
  }

  /** Row `k` of `t` is row `off` of its part `x`, with the same node there. */
  ghost predicate RowIn<K>(t: Outline<K>, x: Outline<K>, pre: seq<Row<K>>, post: seq<Row<K>>,
                                 k: nat, off: nat, d: nat) {
    && k < Size(t) && off < Size(x) && k == |pre| + off
    && NodeAt(t, k) == NodeAt(x, off)
    && Rows(t, d) == pre + Rows(x, d + 1) + post
    && off < |Rows(x, d + 1)|
  }

  lemma KidRowIn<K>(t: Outline<K>, i: nat, off: nat, d: nat)
    requires i < |t.kids| && off < Size(t.kids[i])
    ensures RowIn(t, t.kids[i], Before(t, i, d), Behind(t, i, d), RowOf(t, i, off), off, d)
  {
    hide Rows, Size, Before, Behind, NodeAt, NodeSize, RowOf;
    KidNode(t, i, off);
    BeforeLength(t, i, d);
    RowsOfKid(t, i, off);
    SizeCountsRows(t.kids[i], d + 1);
    KidReplacedRows(t, i, t.kids[i], d);
    assert t.kids[i := t.kids[i]] == t.kids;
  }

  /// A node owns the rows from its own on, as many as its size

  ghost predicate OwnsRows<K>(t: Outline<K>, k: nat, d: nat) {
    var rows := Rows(t, d);
    && NodeAt(t, k).Some? && 0 < NodeSize(t, k) && k + NodeSize(t, k) <= |rows|
    && rows[k..k + NodeSize(t, k)] == Rows(NodeAt(t, k).value, rows[k].depth)
  }

  lemma SliceInside<T>(pre: seq<T>, xs: seq<T>, post: seq<T>, a: nat, b: nat)
    requires a < b <= |xs|
    ensures (pre + xs + post)[|pre| + a..|pre| + b] == xs[a..b]
    ensures (pre + xs + post)[|pre| + a] == xs[a]
  {
  }

  lemma OwnsStep<K>(t: Outline<K>, x: Outline<K>, pre: seq<Row<K>>, post: seq<Row<K>>, k: nat, off: nat, d: nat)
    requires RowIn(t, x, pre, post, k, off, d) && OwnsRows(x, off, d + 1)
    ensures OwnsRows(t, k, d)
  {
    hide Rows, Size, NodeAt;
    SliceInside(pre, Rows(x, d + 1), post, off, off + NodeSize(x, off));
  }

  lemma {:induction false} NodeOwnsRows<K>(t: Outline<K>, k: nat, d: nat)
    requires k < Size(t)
    ensures OwnsRows(t, k, d)
  {
    if k == 0 {
      SizeCountsRows(t, d);
      assert Rows(t, d)[0..Size(t)] == Rows(t, d);
    } else {
      hide *;
      var i, off := InKid(t, k);
      NodeOwnsRows(t.kids[i], off, d + 1);
      KidRowIn(t, i, off, d);
      OwnsStep(t, t.kids[i], Before(t, i, d), Behind(t, i, d), k, off, d);
    }
  }

  /** The row right above a child is its parent's, or that of a node without children. */
  lemma RowAboveKid<K>(t: Outline<K>, i: nat)
    requires i < |t.kids|
    ensures RowOf(t, i, 0) > 0 && NodeAt(t, RowOf(t, i, 0) - 1).Some?
    ensures var above := NodeAt(t, RowOf(t, i, 0) - 1).value;
      if i == 0 then above == t else above.kids == []
  {
    hide NodeAt, Size, Sum, Start, Locate, RowOf;
    NodeInside(t, 0);
    if i == 0 {
      FirstRow(t);
    } else {
      var x := t.kids[i - 1];
      NextKid(t, i - 1);
      RowsOfKid(t, i - 1, Size(x) - 1);
      LastNode(x);
      KidNode(t, i - 1, Size(x) - 1);
    }
  }

  lemma LastNode<K>(t: Outline<K>)
    ensures NodeAt(t, Size(t) - 1).Some? && NodeAt(t, Size(t) - 1).value.kids == []
  {
    hide NodeAt;
    NodeOwnsRows(t, Size(t) - 1, 0);
    SizeCountsRows(t, 0);
    var x := NodeAt(t, Size(t) - 1).value;
    if x.kids != [] {
      StartMonotone(Sizes(x.kids), 0, |x.kids|);
    }
  }

  /// Replacing a node replaces exactly its rows

  ghost predicate SplicesRows<K>(t: Outline<K>, k: nat, r: seq<Outline<K>>, d: nat) {
    var rows := Rows(t, d);
    && 0 < NodeSize(t, k) && k + NodeSize(t, k) <= |rows|
    && RowsOf(Put(t, k, r), d) == Spliced(rows, k, k + NodeSize(t, k), RowsOf(r, rows[k].depth))
  }

  lemma SpliceStep<K>(t: Outline<K>, x: Outline<K>, pre: seq<Row<K>>, post: seq<Row<K>>,
                      k: nat, off: nat, r: seq<Outline<K>>, d: nat)
    requires RowIn(t, x, pre, post, k, off, d) && SplicesRows(x, off, r, d + 1)
    requires RowsOf(Put(t, k, r), d) == pre + RowsOf(Put(x, off, r), d + 1) + post
    ensures SplicesRows(t, k, r, d)
  {
    hide Rows, Size, NodeAt, Put, RowsOf, Spliced;
    var rows := Rows(x, d + 1);
    SliceInside(pre, rows, post, off, off + NodeSize(x, off));
    SpliceInside(pre, rows, post, off, off + NodeSize(x, off), RowsOf(r, rows[off].depth));
  }

  lemma {:induction false} PutSplicesRows<K>(t: Outline<K>, k: nat, r: seq<Outline<K>>, d: nat)
    requires k < Size(t)
    ensures SplicesRows(t, k, r, d)
  {
    if k == 0 {
      SizeCountsRows(t, d);
      var n := Size(t);
      assert Rows(t, d)[n..] == [] && Rows(t, d)[..0] == [];
    } else {
      hide *;
      var i, off := InKid(t, k);
      PutSplicesRows(t.kids[i], off, r, d + 1);
      KidRowIn(t, i, off, d);
      PutKidRows(t, i, off, r, d);
      SpliceStep(t, t.kids[i], Before(t, i, d), Behind(t, i, d), k, off, r, d);
    }
  }

  lemma PutKidRows<K>(t: Outline<K>, i: nat, off: nat, r: seq<Outline<K>>, d: nat)
    requires i < |t.kids| && off < Size(t.kids[i])
    ensures RowsOf(Put(t, RowOf(t, i, off), r), d)
         == Before(t, i, d) + RowsOf(Put(t.kids[i], off, r), d + 1) + Behind(t, i, d)
  {
    hide *;
    KidPut(t, i, off, r);
    RowsOne(t.(kids := Around(t.kids, i, Put(t.kids[i], off, r))), d);
    AroundRows(t, i, Put(t.kids[i], off, r), d);
  }
}
