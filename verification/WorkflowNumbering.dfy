// How the update and the delete walk number rows: neither knows `ForEach`, so both count it as one row and do not enter
// its body, while the list on screen and every other walk do.
module WorkflowNumbering {
  import opened Domain
  import opened Blocks
  import opened WorkflowTree
  import O = Outlines
  import WorkflowEdits

  /** The rows the two walks count. */
  function WalkSize(n: Node): (size: nat)
    ensures size >= 1
  {
    if IsList(n) then 1 + Sum(WalkSizes(n.kids))
    else if n.IfElse? then
      2 + WalkSize(n.thenNode) + match n.otherwise case Some(e) => 1 + WalkSize(e) case None => 0
    else if n.IsWrapper() && !n.ForEach? then 1 + WalkSize(n.body)
    else 1
  }

  function WalkSizes(ns: seq<Node>): seq<nat> {
    seq(|ns|, i requires 0 <= i < |ns| => WalkSize(ns[i]))
  }

  /** The row on screen that the two walks number `p`; numbers they do not reach lie outside the list. */
  function Seen(n: Node, p: int): int {
    if p <= 0 then p
    else if p >= WalkSize(n) then Size(n) + p - WalkSize(n)
    else if IsList(n) then
      var (i, off) := Locate(WalkSizes(n.kids), p - 1);
      1 + Start(Sizes(n.kids), i) + Seen(n.kids[i], off)
    else if n.IfElse? then
      var t := WalkSize(n.thenNode);
      if p < 2 + t then 2 + Seen(n.thenNode, p - 2)
      else 3 + Size(n.thenNode) + Seen(n.otherwise.value, p - 3 - t)
    else 1 + Seen(n.body, p - 1)
  }

  /// The first `ForEach`

  /** How many rows precede the first `ForEach` row. */
  function Lead(n: Node): nat {
    if n.ForEach? then 0
    else if IsList(n) then 1 + LeadIn(n.kids, |n.kids|)
    else if n.IfElse? then
      var t := n.thenNode;
      2 + if Lead(t) < Size(t) then Lead(t)
          else Size(t) + match n.otherwise case Some(e) => 1 + Lead(e) case None => 0
    else if n.IsWrapper() then 1 + Lead(n.body)
    else 1
  }

  /** The same for the first `m` nodes of a list. */
  function LeadIn(ns: seq<Node>, m: nat): nat
    requires m <= |ns|
    decreases ns, m
  {
    if m == 0 then 0
    else if LeadIn(ns, m - 1) < Start(Sizes(ns), m - 1) then LeadIn(ns, m - 1)
    else Start(Sizes(ns), m - 1) + Lead(ns[m - 1])
  }

  predicate Clear(lead: nat, walk: nat, size: nat) {
    lead == walk == size
  }

  predicate Blocked(lead: nat, walk: nat, size: nat) {
    lead < walk < size
  }

  lemma {:induction false} LeadOf(n: Node)
    ensures Clear(Lead(n), WalkSize(n), Size(n)) || Blocked(Lead(n), WalkSize(n), Size(n))
    decreases n
  {
    if IsList(n) {
      LeadOfList(n.kids, |n.kids|);
      assert Sizes(n.kids)[..|n.kids|] == Sizes(n.kids) && WalkSizes(n.kids)[..|n.kids|] == WalkSizes(n.kids);
    } else if n.IfElse? {
      LeadOf(n.thenNode);
      if n.otherwise.Some? {
        LeadOf(n.otherwise.value);
      }
    } else if n.IsWrapper() && !n.ForEach? {
      LeadOf(n.body);
    }
  }

  lemma {:induction false} LeadOfList(ns: seq<Node>, m: nat)
    requires m <= |ns|
    ensures var (lead, walk, size) := (LeadIn(ns, m), Start(WalkSizes(ns), m), Start(Sizes(ns), m));
      Clear(lead, walk, size) || Blocked(lead, walk, size)
    decreases ns, m
  {
    hide Start, Lead, Size, WalkSize;
    if m > 0 {
      LeadOfList(ns, m - 1);
      LeadOf(ns[m - 1]);
      StartNext(Sizes(ns), m - 1);
      StartNext(WalkSizes(ns), m - 1);
    } else {
      StartOfFirst(Sizes(ns));
      StartOfFirst(WalkSizes(ns));
    }
  }

  /** Later nodes do not move the first `ForEach`. */
  lemma {:induction false} LeadStays(ns: seq<Node>, i: nat, m: nat)
    requires i <= m <= |ns|
    ensures var (lead, size) := (LeadIn(ns, i), Start(Sizes(ns), i));
      if lead < size then LeadIn(ns, m) == lead else LeadIn(ns, m) >= size
    decreases m
  {
    hide Start, Lead, Size, WalkSize;
    LeadOfList(ns, i);
    if i < m {
      LeadStays(ns, i, m - 1);
      if i < m - 1 {
        StartMonotone(Sizes(ns), i, m - 1);
      }
    }
  }

  /// Where the numbers agree

  ghost predicate Numbered(n: Node, p: nat) {
    Seen(n, p) >= p && (Seen(n, p) == p <==> p <= Lead(n))
  }

  lemma {:induction false} SeenFromLead(n: Node, p: nat)
    requires p < Size(n)
    ensures Numbered(n, p)
  {
    LeadOf(n);
    if 0 < p < WalkSize(n) {
      if IsList(n) {
        SeenInList(n, p);
      } else if n.IfElse? {
        SeenInBranches(n, p);
      } else {
        LeadOf(n.body);
        SeenFromLead(n.body, p - 1);
      }
    }
  }

  lemma BranchSizes(n: Node)
    requires n.IfElse?
    ensures WalkSize(n)
         == 2 + WalkSize(n.thenNode) + if n.otherwise.Some? then 1 + WalkSize(n.otherwise.value) else 0
    ensures Size(n) == 2 + Size(n.thenNode) + if n.otherwise.Some? then 1 + Size(n.otherwise.value) else 0
  {
  }

  lemma SeenBranch(n: Node, p: int)
    requires n.IfElse? && 0 < p < WalkSize(n)
    ensures var t := WalkSize(n.thenNode);
      Seen(n, p) == if p < 2 + t then 2 + Seen(n.thenNode, p - 2)
                    else 3 + Size(n.thenNode) + Seen(n.otherwise.value, p - 3 - t)
  {
  }

  lemma {:induction false} SeenInBranches(n: Node, p: nat)
    requires n.IfElse? && 0 < p < WalkSize(n)
    ensures Numbered(n, p)
    decreases n, 0
  {
    hide Size, WalkSize, Sum;
    BranchSizes(n);
    SeenBranch(n, p);
    var t := WalkSize(n.thenNode);
    LeadOf(n.thenNode);
    if 2 <= p < 2 + t {
      SeenFromLead(n.thenNode, p - 2);
    } else if p > 2 + t {
      LeadOf(n.otherwise.value);
      SeenFromLead(n.otherwise.value, p - 3 - t);
    }
  }

  lemma {:induction false} SeenInList(n: Node, p: nat)
    requires IsList(n) && 0 < p < WalkSize(n)
    ensures Numbered(n, p)
    decreases n, 0
  {
    hide Start, Size, WalkSize, Locate, Sum;
    var ns := n.kids;
    ListFacts(n, p);
    var (i, off) := Locate(WalkSizes(ns), p - 1);
    LeadOf(ns[i]);
    SeenFromLead(ns[i], off);
    LeadOfList(ns, i);
    LeadStays(ns, i, |ns|);
    LeadStays(ns, i + 1, |ns|);
    StartNext(Sizes(ns), i);
  }

  lemma ListFacts(n: Node, p: nat)
    requires IsList(n) && 0 < p < WalkSize(n)
    ensures p - 1 < Sum(WalkSizes(n.kids))
    ensures var (i, off) := Locate(WalkSizes(n.kids), p - 1);
      Seen(n, p) == 1 + Start(Sizes(n.kids), i) + Seen(n.kids[i], off)
  {
  }

  /// The rows themselves

  /** The first `m` rows show no `ForEach`, and the next one, if any, does. */
  predicate LeadsTo(rows: seq<Row>, m: nat) {
    && m <= |rows|
    && (forall j :: 0 <= j < m ==> !rows[j].kind.ForEachRow?)
    && (m < |rows| ==> rows[m].kind.ForEachRow?)
  }

  lemma LeadsToBoth(a: seq<Row>, m: nat, b: seq<Row>, m': nat)
    requires LeadsTo(a, m) && LeadsTo(b, m')
    ensures LeadsTo(a + b, if m < |a| then m else |a| + m')
  {
  }

  lemma {:induction false} LeadRows(n: Node, d: nat)
    ensures LeadsTo(Flat(n, d), Lead(n))
    decreases n
  {
    hide LeadsTo, Flat, LeadIn, Concat;
    OneRow(KindOf(n), d);
    if !n.IfElse? {
      OtherRows(n, d);
    }
    if IsList(n) {
      LeadRowsOfList(n.kids, |n.kids|, d + 1);
      assert FlatEach(n.kids, d + 1)[..|n.kids|] == FlatEach(n.kids, d + 1);
      LeadsToBoth([O.Row(d, KindOf(n))], 1, Concat(FlatEach(n.kids, d + 1)), LeadIn(n.kids, |n.kids|));
    } else if n.IfElse? {
      LeadRowsOfBranches(n, d);
    } else if n.IsWrapper() {
      LeadRows(n.body, d + 1);
      LeadsToBoth([O.Row(d, KindOf(n))], if n.ForEach? then 0 else 1, Flat(n.body, d + 1), Lead(n.body));
    }
  }

  lemma OneRow(kind: RowKind, d: nat)
    ensures LeadsTo([O.Row(d, kind)], if kind.ForEachRow? then 0 else 1)
  {
  }

  lemma {:induction false} LeadRowsOfBranches(n: Node, d: nat)
    requires n.IfElse?
    ensures LeadsTo(Flat(n, d), Lead(n))
    decreases n, 0
  {
    hide LeadsTo, Flat, Size, WalkSize;
    IfRows(n, d);
    var head := [O.Row(d, KindOf(n)), O.Row(d + 1, ThenRow)];
    var branch := Flat(n.thenNode, d + 2);
    assert head == [O.Row(d, KindOf(n))] + [O.Row(d + 1, ThenRow)];
    OneRow(KindOf(n), d);
    OneRow(ThenRow, d + 1);
    LeadsToBoth([O.Row(d, KindOf(n))], 1, [O.Row(d + 1, ThenRow)], 1);
    LeadRows(n.thenNode, d + 2);
    LeadOf(n.thenNode);
    LeadsToBoth(head, 2, branch, Lead(n.thenNode));
    WorkflowEdits.RowCount(n.thenNode, d + 2);
    if n.otherwise.Some? {
      var e := n.otherwise.value;
      OneRow(ElseRow, d + 1);
      LeadRows(e, d + 2);
      LeadsToBoth([O.Row(d + 1, ElseRow)], 1, Flat(e, d + 2), Lead(e));
      LeadsToBoth(head + branch, 2 + Lead(n.thenNode), [O.Row(d + 1, ElseRow)] + Flat(e, d + 2), 1 + Lead(e));
    }
  }

  lemma IfRows(n: Node, d: nat)
    requires n.IfElse?
    ensures var rows := [O.Row(d, KindOf(n)), O.Row(d + 1, ThenRow)] + Flat(n.thenNode, d + 2);
      Flat(n, d)
        == if n.otherwise.Some? then rows + ([O.Row(d + 1, ElseRow)] + Flat(n.otherwise.value, d + 2)) else rows
  {
    assert [O.Row(d, KindOf(n))] + [O.Row(d + 1, ThenRow)] == [O.Row(d, KindOf(n)), O.Row(d + 1, ThenRow)];
    assert forall rows: seq<Row> :: rows + [] == rows;
  }

  lemma OtherRows(n: Node, d: nat)
    requires !n.IfElse?
    ensures IsList(n) ==> Flat(n, d) == [O.Row(d, KindOf(n))] + Concat(FlatEach(n.kids, d + 1))
    ensures n.IsWrapper() ==> Flat(n, d) == [O.Row(d, KindOf(n))] + Flat(n.body, d + 1)
    ensures !IsList(n) && !n.IsWrapper() ==> Flat(n, d) == [O.Row(d, KindOf(n))]
  {
  }

  lemma {:induction false} LeadRowsOfList(ns: seq<Node>, m: nat, d: nat)
    requires m <= |ns|
    ensures LeadsTo(Concat(FlatEach(ns, d)[..m]), LeadIn(ns, m))
    ensures |Concat(FlatEach(ns, d)[..m])| == Start(Sizes(ns), m)
    decreases ns, m
  {
    hide LeadsTo, Concat, Start, Flat, Lead;
    if m == 0 {
      NoRows(FlatEach(ns, d), Sizes(ns));
    } else {
      LeadRowsOfList(ns, m - 1, d);
      LeadRows(ns[m - 1], d);
      WorkflowEdits.RowCount(ns[m - 1], d);
      ConcatNext(FlatEach(ns, d), m - 1);
      StartNext(Sizes(ns), m - 1);
      LeadsToBoth(Concat(FlatEach(ns, d)[..m - 1]), LeadIn(ns, m - 1), Flat(ns[m - 1], d), Lead(ns[m - 1]));
    }
  }

  lemma NoRows(blocks: seq<seq<Row>>, sizes: seq<nat>)
    ensures Concat(blocks[..0]) == [] && LeadsTo([], 0) && Start(sizes, 0) == 0
  {
    assert blocks[..0] == [] && sizes[..0] == [];
  }

  /** The update and the delete walk agree with the screen on row `k` exactly when no `ForEach` row stands above it;
      otherwise they reach a row further down. */
  lemma NumbersAgree(n: Node, k: nat)
    requires k < |Flat(n, 0)|
    ensures Seen(n, k) >= k
    ensures Seen(n, k) == k <==> forall j :: 0 <= j < k ==> !Flat(n, 0)[j].kind.ForEachRow?
  {
    WorkflowEdits.RowCount(n, 0);
    SeenFromLead(n, k);
    LeadRows(n, 0);
  }

  /// What the buttons do

  /** Updating the action shown at row `k` replaces that row, whatever the new configuration, exactly when no `ForEach`
      row stands above it. */
  lemma UpdateIsRight(n: Node, k: nat, c: ActionConfig)
    requires k < |Flat(n, 0)| && Flat(n, 0)[k].kind.ActionRow? && Flat(n, 0)[k].kind.action != c
    ensures var rows := Flat(n, 0);
      Flat(UpdateAt(n, Seen(n, k), c), 0) == rows[k := O.Row(rows[k].depth, ActionRow(c))]
      <==> forall j :: 0 <= j < k ==> !rows[j].kind.ForEachRow?
  {
    hide Flat, Seen, UpdateAt;
    NumbersAgree(n, k);
    WorkflowEdits.UpdateChangesOneRow(n, Seen(n, k), c);
    var rows := Flat(n, 0);
    assert rows[k := O.Row(rows[k].depth, ActionRow(c))][k] != rows[k];
    if Seen(n, k) > k {
      assert Flat(UpdateAt(n, Seen(n, k), c), 0)[k] == rows[k];
    }
  }

  /** Below a `ForEach` a delete takes another node than the one on screen: here the row of the body is chosen, and the
      node behind the loop goes, while the chosen one stays. */
  lemma DeleteCanMiss(items: Value, v: string, a: ActionConfig, b: ActionConfig)
    ensures var root := Seq([ForEach(items, v, Action(a)), Action(b)]);
      && |Flat(root, 0)| == 4
      && Flat(root, 0)[2] == O.Row(2, ActionRow(a)) && Flat(root, 0)[3] == O.Row(1, ActionRow(b))
      && Seen(root, 2) == 3
      && Filled(Deleted(root, Seen(root, 2))) == ForEach(items, v, Action(a))
  {
    var kids := [ForEach(items, v, Action(a)), Action(b)];
    assert Size(kids[0]) == 2 && Size(kids[1]) == 1 && WalkSize(kids[0]) == 1 && WalkSize(kids[1]) == 1;
    assert Sizes(kids) == [2, 1] && WalkSizes(kids) == [1, 1];
    assert [2, 1][..1] == [2] && [1, 1][..1] == [1] && [2][..0] == [] && [1][..0] == [];
    assert Flat(kids[0], 1) == [O.Row(1, ForEachRow(items, v)), O.Row(2, ActionRow(a))];
    var blocks := FlatEach(kids, 1);
    assert Flat(kids[1], 1) == [O.Row(1, ActionRow(b))];
    assert blocks == [Flat(kids[0], 1), [O.Row(1, ActionRow(b))]];
    assert blocks[..1] == [Flat(kids[0], 1)];
    ConcatOne(Flat(kids[0], 1));
    DeleteSecond(kids[0], b);
  }

  lemma DeleteSecond(x: Node, b: ActionConfig)
    requires x.ForEach? && Size(x) == 2
    ensures Deleted(Seq([x, Action(b)]), 3) == Some(x)
  {
    var kids := [x, Action(b)];
    assert Size(kids[1]) == 1 && Sizes(kids) == [2, 1];
    assert [2, 1][..1] == [2] && [2][..0] == [];
    assert Start(Sizes(kids), 1) == 2;
    LocateUnique(Sizes(kids), 2, 1);
    assert Size(Seq(kids)) == 4 && PlaceOf(Seq(kids), 3) == (Kid(1), 0);
    assert PutKid(kids, 1, None) == [x];
    assert PutAt(kids[1], 0, None) == None;
    assert PutSub(Seq(kids), Kid(1), None) == Seq([x]);
    assert EraseAt(Seq(kids), 3) == Some(PutSub(Seq(kids), Kid(1), PutAt(kids[1], 0, None)));
    assert CollapseEach([x]) == [x];
  }
}
