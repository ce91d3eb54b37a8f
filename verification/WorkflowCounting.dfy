// Which rows the update and the delete walk count, read off the list on screen alone: those outside the bodies of loops
// over items, in order.
module WorkflowCounting {
  import opened Domain
  import opened Blocks
  import opened WorkflowTree
  import opened WorkflowNumbering
  import O = Outlines
  import WorkflowEdits

  /// Rows inside a loop over items

  /** All rows behind row `i` up to row `j` lie further in. */
  predicate Deeper(rows: seq<Row>, i: nat, j: nat)
    requires i <= j < |rows|
  {
    forall m :: i < m <= j ==> rows[m].depth > rows[i].depth
  }

  predicate InLoop(rows: seq<Row>, j: nat)
    requires j < |rows|
  {
    exists i :: 0 <= i < j && rows[i].kind.ForEachRow? && Deeper(rows, i, j)
  }

  /** How many of the first `k` rows lie outside. */
  function Outside(rows: seq<Row>, k: nat): nat
    requires k <= |rows|
  {
    if k == 0 then 0 else Outside(rows, k - 1) + if InLoop(rows, k - 1) then 0 else 1
  }

  /** Rows behind a row make no difference to it. */
  lemma InLoopBefore(a: seq<Row>, b: seq<Row>, j: nat)
    requires j < |a|
    ensures InLoop(a + b, j) <==> InLoop(a, j)
  {
    var c := a + b;
    forall i | 0 <= i < j
      ensures c[i] == a[i] && (Deeper(c, i, j) <==> Deeper(a, i, j))
    {
      assert forall m :: 0 <= m <= j ==> c[m] == a[m];
    }
  }

  lemma {:induction false} OutsideBefore(a: seq<Row>, b: seq<Row>, k: nat)
    requires k <= |a|
    ensures Outside(a + b, k) == Outside(a, k)
  {
    hide InLoop;
    if k > 0 {
      OutsideBefore(a, b, k - 1);
      InLoopBefore(a, b, k - 1);
    }
  }

  /** No loop over items in `a` reaches into `b`: none stands further out than `b` begins. */
  predicate Closed(a: seq<Row>, b: seq<Row>) {
    b != [] ==> forall i :: 0 <= i < |a| && a[i].kind.ForEachRow? ==> a[i].depth >= b[0].depth
  }

  lemma InLoopBehind(a: seq<Row>, b: seq<Row>, j: nat)
    requires j < |b| && Closed(a, b)
    ensures InLoop(a + b, |a| + j) <==> InLoop(b, j)
  {
    var c := a + b;
    assert forall m :: 0 <= m < |b| ==> c[|a| + m] == b[m];
    if InLoop(b, j) {
      var i :| 0 <= i < j && b[i].kind.ForEachRow? && Deeper(b, i, j);
      assert Deeper(c, |a| + i, |a| + j) by {
        forall m | |a| + i < m <= |a| + j
          ensures c[m].depth > c[|a| + i].depth
        {
          assert c[m] == b[m - |a|];
        }
      }
    }
    if InLoop(c, |a| + j) {
      var i :| 0 <= i < |a| + j && c[i].kind.ForEachRow? && Deeper(c, i, |a| + j);
      if i < |a| {
        assert false;
      } else {
        assert Deeper(b, i - |a|, j) by {
          forall m | i - |a| < m <= j
            ensures b[m].depth > b[i - |a|].depth
          {
            assert c[|a| + m] == b[m];
          }
        }
      }
    }
  }

  lemma {:induction false} OutsideBehind(a: seq<Row>, b: seq<Row>, k: nat)
    requires k <= |b| && Closed(a, b)
    ensures Outside(a + b, |a| + k) == Outside(a, |a|) + Outside(b, k)
  {
    hide InLoop, Closed;
    if k == 0 {
      OutsideBefore(a, b, |a|);
    } else {
      OutsideBehind(a, b, k - 1);
      InLoopBehind(a, b, k - 1);
    }
  }

  /// Rows that carry numbers

  /** Row `k` is the one with number `p`: it lies outside, and `p` rows before it do. */
  predicate Carries(rows: seq<Row>, k: int, p: nat) {
    0 <= k < |rows| && !InLoop(rows, k) && Outside(rows, k) == p
  }

  lemma CarriesBefore(a: seq<Row>, b: seq<Row>, k: int, p: nat)
    requires Carries(a, k, p)
    ensures Carries(a + b, k, p)
  {
    hide InLoop, Outside;
    InLoopBefore(a, b, k);
    OutsideBefore(a, b, k);
  }

  lemma CarriesBehind(a: seq<Row>, b: seq<Row>, k: int, p: nat)
    requires Carries(b, k, p) && Closed(a, b)
    ensures Carries(a + b, |a| + k, Outside(a, |a|) + p)
  {
    hide InLoop, Outside, Closed;
    InLoopBehind(a, b, k);
    OutsideBehind(a, b, k);
  }

  /** The walks count `walk` of these rows. */
  predicate Walks(rows: seq<Row>, walk: nat) {
    Outside(rows, |rows|) == walk
  }

  lemma WalksBoth(a: seq<Row>, m: nat, b: seq<Row>, n: nat)
    requires Walks(a, m) && Walks(b, n) && Closed(a, b)
    ensures Walks(a + b, m + n)
  {
    hide InLoop, Outside, Closed;
    OutsideBehind(a, b, |b|);
  }

  /** Rows at depth `d` and further in, of which the first is at `d`. */
  predicate From(rows: seq<Row>, d: nat) {
    (rows != [] ==> rows[0].depth == d) && forall i :: 0 <= i < |rows| ==> rows[i].depth >= d
  }

  lemma FromBoth(a: seq<Row>, b: seq<Row>, d: nat, d': nat)
    requires From(a, d) && From(b, d') && d <= d' && a != []
    ensures From(a + b, d)
  {
  }

  lemma FromClosed(a: seq<Row>, b: seq<Row>, d: nat)
    requires From(a, d) && From(b, d)
    ensures Closed(a, b)
  {
  }

  lemma OneRow(kind: RowKind, d: nat)
    ensures From([O.Row(d, kind)], d) && Walks([O.Row(d, kind)], 1) && Carries([O.Row(d, kind)], 0, 0)
  {
  }

  lemma HeadClosed(kind: RowKind, d: nat, b: seq<Row>)
    requires !kind.ForEachRow?
    ensures Closed([O.Row(d, kind)], b)
  {
  }

  /// The tree

  /** The rows of `n` carry the numbers of the walks. */
  ghost predicate Counted(n: Node, d: nat) {
    var rows := Flat(n, d);
    && From(rows, d) && rows != [] && Walks(rows, WalkSize(n))
    && forall p: nat :: p < WalkSize(n) ==> Carries(rows, Seen(n, p), p)
  }

  lemma {:induction false} RowsCounted(n: Node, d: nat)
    ensures Counted(n, d)
    decreases n
  {
    if n.ForEach? {
      LoopCounted(n, d);
    } else if IsList(n) {
      ListCounted(n, d);
    } else if n.IfElse? {
      BranchesCounted(n, d);
    } else if n.IsWrapper() {
      BodyCounted(n, d);
    } else {
      LeafCounted(n, d);
    }
  }

  lemma LeafCounted(n: Node, d: nat)
    requires n.Action? || n.Wait?
    ensures Counted(n, d)
  {
    OneRow(KindOf(n), d);
  }

  lemma {:induction false} LoopCounted(n: Node, d: nat)
    requires n.ForEach?
    ensures Counted(n, d)
    decreases n, 0
  {
    var (head, body) := ([O.Row(d, KindOf(n))], Flat(n.body, d + 1));
    RowsCounted(n.body, d + 1);
    FromBoth(head, body, d, d + 1);
    OneRow(KindOf(n), d);
    AllInLoop(head + body, |head + body|);
    CarriesBefore(head, body, 0, 0);
  }

  lemma {:induction false} AllInLoop(rows: seq<Row>, k: nat)
    requires 0 < k <= |rows| && rows[0].kind.ForEachRow?
    requires forall m :: 0 < m < |rows| ==> rows[m].depth > rows[0].depth
    ensures Outside(rows, k) == 1
  {
    if k > 1 {
      AllInLoop(rows, k - 1);
      assert Deeper(rows, 0, k - 1);
    }
  }

  lemma {:induction false} BodyCounted(n: Node, d: nat)
    requires n.IsWrapper() && !n.ForEach?
    ensures Counted(n, d)
    decreases n, 0
  {
    hide InLoop, Outside, Closed, From, Walks, Carries, Flat;
    var (head, body) := ([O.Row(d, KindOf(n))], Flat(n.body, d + 1));
    OtherRows(n, d);
    RowsCounted(n.body, d + 1);
    OneRow(KindOf(n), d);
    HeadClosed(KindOf(n), d, body);
    HeadCounted(n, d, body, WalkSize(n.body));
    forall p: nat | 0 < p < WalkSize(n)
      ensures Carries(head + body, Seen(n, p), p)
    {
      HeadCarries(KindOf(n), d, body, Seen(n.body, p - 1), p - 1);
    }
  }

  /** A head row and then the rows below it. */
  lemma HeadCounted(n: Node, d: nat, rest: seq<Row>, walk: nat)
    requires !n.ForEach? && From(rest, d + 1) && Walks(rest, walk)
    ensures var rows := [O.Row(d, KindOf(n))] + rest;
      From(rows, d) && rows != [] && Walks(rows, 1 + walk) && Carries(rows, 0, 0)
  {
    hide InLoop, Outside, Closed, From, Walks, Carries;
    OneRow(KindOf(n), d);
    HeadClosed(KindOf(n), d, rest);
    FromBoth([O.Row(d, KindOf(n))], rest, d, d + 1);
    WalksBoth([O.Row(d, KindOf(n))], 1, rest, walk);
    CarriesBefore([O.Row(d, KindOf(n))], rest, 0, 0);
  }

  lemma HeadCarries(kind: RowKind, d: nat, rest: seq<Row>, k: int, p: nat)
    requires !kind.ForEachRow? && Carries(rest, k, p)
    ensures Carries([O.Row(d, kind)] + rest, 1 + k, 1 + p)
  {
    hide InLoop, Outside, Closed, Carries;
    OneRow(kind, d);
    HeadClosed(kind, d, rest);
    HeadWalks(kind, d);
    CarriesBehind([O.Row(d, kind)], rest, k, p);
  }

  lemma HeadWalks(kind: RowKind, d: nat)
    ensures Outside([O.Row(d, kind)], 1) == 1
  {
    assert Outside([O.Row(d, kind)], 0) == 0;
  }

  /// Lists

  lemma {:induction false} ListCounted(n: Node, d: nat)
    requires IsList(n)
    ensures Counted(n, d)
    decreases n, 0
  {
    hide InLoop, Outside, Closed, From, Walks, Carries, Flat, Start, Sum, Locate, WalkSize, Concat;
    var (kids, rest) := (n.kids, Concat(FlatEach(n.kids, d + 1)));
    OtherRows(n, d);
    KidsCounted(kids, |kids|, d + 1);
    AllOf(FlatEach(kids, d + 1));
    StartOfFirst(WalkSizes(kids));
    ListSize(n);
    HeadCounted(n, d, rest, Sum(WalkSizes(kids)));
    forall p: nat | p < WalkSize(n)
      ensures Carries([O.Row(d, KindOf(n))] + rest, Seen(n, p), p)
    {
      if p > 0 {
        ListFacts(n, p);
        var (i, off) := Locate(WalkSizes(kids), p - 1);
        KidCarries(kids, i, d + 1, off);
        HeadCarries(KindOf(n), d, rest, Start(Sizes(kids), i) + Seen(kids[i], off), p - 1);
      } else {
        SeenRoot(n);
      }
    }
  }

  lemma SeenRoot(n: Node)
    ensures Seen(n, 0) == 0
  {
  }

  lemma ListSize(n: Node)
    requires IsList(n)
    ensures WalkSize(n) == 1 + Sum(WalkSizes(n.kids))
  {
  }

  lemma AllOf<T>(xs: seq<T>)
    ensures xs[..|xs|] == xs
  {
  }

  /** The rows of the first `m` children. */
  lemma {:induction false} KidsCounted(kids: seq<Node>, m: nat, d: nat)
    requires m <= |kids|
    ensures var rows := Concat(FlatEach(kids, d)[..m]);
      From(rows, d) && Walks(rows, Start(WalkSizes(kids), m)) && |rows| == Start(Sizes(kids), m)
    decreases kids, m
  {
    hide InLoop, Outside, Closed, From, Walks, Carries, Flat, Start, WalkSize, Seen, Concat, Counted;
    if m == 0 {
      NoKids(kids, d);
    } else {
      KidsCounted(kids, m - 1, d);
      RowsCounted(kids[m - 1], d);
      KidsNext(kids, m - 1, d);
    }
  }

  lemma NoKids(kids: seq<Node>, d: nat)
    ensures var rows := Concat(FlatEach(kids, d)[..0]);
      From(rows, d) && Walks(rows, Start(WalkSizes(kids), 0)) && |rows| == Start(Sizes(kids), 0)
  {
    assert FlatEach(kids, d)[..0] == [] && WalkSizes(kids)[..0] == [] && Sizes(kids)[..0] == [];
  }

  lemma KidsNext(kids: seq<Node>, m: nat, d: nat)
    requires m < |kids| && Counted(kids[m], d)
    requires var rows := Concat(FlatEach(kids, d)[..m]);
      From(rows, d) && Walks(rows, Start(WalkSizes(kids), m)) && |rows| == Start(Sizes(kids), m)
    ensures var rows := Concat(FlatEach(kids, d)[..m + 1]);
      && rows == Concat(FlatEach(kids, d)[..m]) + Flat(kids[m], d)
      && From(rows, d) && Walks(rows, Start(WalkSizes(kids), m + 1)) && |rows| == Start(Sizes(kids), m + 1)
  {
    hide InLoop, Outside, Closed, From, Walks, Carries, Flat, Start, WalkSize, Seen, Concat;
    var (before, kid) := (Concat(FlatEach(kids, d)[..m]), Flat(kids[m], d));
    ConcatNext(FlatEach(kids, d), m);
    StartNext(WalkSizes(kids), m);
    StartNext(Sizes(kids), m);
    WorkflowEdits.RowCount(kids[m], d);
    FromClosed(before, kid, d);
    WalksBoth(before, Start(WalkSizes(kids), m), kid, WalkSize(kids[m]));
    FromAppend(before, kid, d);
  }

  lemma FromAppend(a: seq<Row>, b: seq<Row>, d: nat)
    requires From(a, d) && From(b, d)
    ensures From(a + b, d)
  {
  }

  lemma {:induction false} KidCarries(kids: seq<Node>, i: nat, d: nat, off: nat)
    requires i < |kids| && off < WalkSize(kids[i])
    ensures Carries(Concat(FlatEach(kids, d)), Start(Sizes(kids), i) + Seen(kids[i], off),
                    Start(WalkSizes(kids), i) + off)
    decreases kids, |kids| + 1
  {
    hide InLoop, Outside, Closed, From, Carries, Flat, Start, WalkSize, Seen, Concat;
    var blocks := FlatEach(kids, d);
    var (before, kid) := (Concat(blocks[..i]), Flat(kids[i], d));
    KidsCounted(kids, i, d);
    RowsCounted(kids[i], d);
    FromClosed(before, kid, d);
    CarriesBehind(before, kid, Seen(kids[i], off), off);
    ConcatNext(blocks, i);
    ConcatSplit(blocks, i);
    var rest := Concat(blocks[i + 1..]);
    CarriesBefore(before + kid, rest, |before| + Seen(kids[i], off), Start(WalkSizes(kids), i) + off);
    assert Concat(blocks) == before + kid + rest;
  }

  /// Branches

  lemma {:induction false} BranchesCounted(n: Node, d: nat)
    requires n.IfElse?
    ensures Counted(n, d)
    decreases n, 0
  {
    hide InLoop, Outside, Closed, From, Walks, Carries, Flat, WalkSize, Size;
    RowsCounted(n.thenNode, d + 2);
    BranchCounted(ThenRow, n.thenNode, d + 1);
    if n.otherwise.Some? {
      RowsCounted(n.otherwise.value, d + 2);
      BranchCounted(ElseRow, n.otherwise.value, d + 1);
    }
    BothCounted(n, d);
  }

  /** A label and the branch below it. */
  ghost predicate Labelled(head: RowKind, x: Node, d: nat) {
    var rows := [O.Row(d, head)] + Flat(x, d + 1);
    && From(rows, d) && Walks(rows, 1 + WalkSize(x)) && Carries(rows, 0, 0)
    && |rows| == 1 + Size(x)
    && forall p: nat :: p < WalkSize(x) ==> Carries(rows, 1 + Seen(x, p), 1 + p)
  }

  lemma BranchCounted(head: RowKind, x: Node, d: nat)
    requires !head.ForEachRow? && Counted(x, d + 1)
    ensures Labelled(head, x, d)
  {
    hide InLoop, Outside, Closed, From, Walks, Carries, Flat, WalkSize, Size, Seen;
    var (one, rest) := ([O.Row(d, head)], Flat(x, d + 1));
    OneRow(head, d);
    HeadClosed(head, d, rest);
    FromBoth(one, rest, d, d + 1);
    WalksBoth(one, 1, rest, WalkSize(x));
    CarriesBefore(one, rest, 0, 0);
    WorkflowEdits.RowCount(x, d + 1);
    forall p: nat | p < WalkSize(x)
      ensures Carries(one + rest, 1 + Seen(x, p), 1 + p)
    {
      HeadCarries(head, d, rest, Seen(x, p), p);
    }
  }

  lemma BothCounted(n: Node, d: nat)
    requires n.IfElse? && Labelled(ThenRow, n.thenNode, d + 1)
    requires n.otherwise.Some? ==> Labelled(ElseRow, n.otherwise.value, d + 1)
    ensures Counted(n, d)
  {
    hide InLoop, Outside, Closed, From, Walks, Carries, Flat, WalkSize, Size, Seen;
    var yes := [O.Row(d + 1, ThenRow)] + Flat(n.thenNode, d + 2);
    var no := if n.otherwise.Some? then [O.Row(d + 1, ElseRow)] + Flat(n.otherwise.value, d + 2) else [];
    BranchSizes(n);
    WorkflowEdits.ConditionalRows(n.cond, n.thenNode, n.otherwise, d);
    assert Flat(n, d) == [O.Row(d, KindOf(n))] + (yes + no);
    NoRowsCounted(d + 1);
    FromClosed(yes, no, d + 1);
    FromAppend(yes, no, d + 1);
    var rest := if n.otherwise.Some? then 1 + WalkSize(n.otherwise.value) else 0;
    WalksBoth(yes, 1 + WalkSize(n.thenNode), no, rest);
    HeadCounted(n, d, yes + no, 1 + WalkSize(n.thenNode) + rest);
    forall p: nat | p < WalkSize(n)
      ensures Carries(Flat(n, d), Seen(n, p), p)
    {
      if p == 0 {
        SeenRoot(n);
      } else {
        BothCarry(n, d, yes, no, p);
        HeadCarries(KindOf(n), d, yes + no, Seen(n, p) - 1, p - 1);
      }
    }
  }

  lemma NoRowsCounted(d: nat)
    ensures From([], d) && Walks([], 0)
  {
  }

  lemma BothCarry(n: Node, d: nat, yes: seq<Row>, no: seq<Row>, p: nat)
    requires n.IfElse? && 0 < p < WalkSize(n) && Labelled(ThenRow, n.thenNode, d + 1)
    requires n.otherwise.Some? ==> Labelled(ElseRow, n.otherwise.value, d + 1)
    requires yes == [O.Row(d + 1, ThenRow)] + Flat(n.thenNode, d + 2)
    requires no == if n.otherwise.Some? then [O.Row(d + 1, ElseRow)] + Flat(n.otherwise.value, d + 2) else []
    requires Closed(yes, no)
    ensures Carries(yes + no, Seen(n, p) - 1, p - 1)
  {
    hide InLoop, Outside, Closed, From, Carries, Flat, WalkSize, Size, Seen;
    BranchSizes(n);
    SeenBranch(n, p);
    var t := WalkSize(n.thenNode);
    SeenLabel(n.thenNode);
    if p < 2 + t {
      if p > 1 {
        assert Carries(yes, 1 + Seen(n.thenNode, p - 2), 1 + (p - 2));
      }
      CarriesBefore(yes, no, Seen(n, p) - 1, p - 1);
    } else {
      var (e, q) := (n.otherwise.value, p - 3 - t);
      SeenLabel(e);
      if q >= 0 {
        assert Carries(no, 1 + Seen(e, q), 1 + q);
      }
      CarriesBehind(yes, no, 1 + Seen(e, q), 1 + q);
    }
  }

  lemma SeenLabel(n: Node)
    ensures Seen(n, -1) == -1
  {
  }

  /// Results

  /** The number `p` of the two walks is carried by the row that has `p` rows before it outside loops over items, and
      lies outside them itself; they count no others. */
  lemma WalksCountRowsOutsideLoops(n: Node, p: nat)
    ensures Outside(Flat(n, 0), |Flat(n, 0)|) == WalkSize(n)
    ensures p < WalkSize(n) ==> Carries(Flat(n, 0), Seen(n, p), p)
    ensures p >= WalkSize(n) ==> Seen(n, p) >= |Flat(n, 0)|
  {
    RowsCounted(n, 0);
    WorkflowEdits.RowCount(n, 0);
  }
}
