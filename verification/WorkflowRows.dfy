// What an edit at a row number does to a workflow tree and to its flat rows.
module WorkflowRows {
  import opened Domain
  import opened Blocks
  import opened OutlineMoves
  import opened WorkflowTree
  import O = Outlines

  /// The tree and its outline agree on rows and sizes

  lemma BranchRows(head: RowKind, x: O.Outline<RowKind>, d: nat)
    ensures O.Rows(Branch(head, x), d) == [O.Row(d, head)] + O.Rows(x, d + 1)
    ensures O.Size(Branch(head, x)) == 1 + O.Size(x)
  {
    O.RowsOne(x, d + 1);
    assert O.Sizes([x]) == [O.Size(x)];
    SumOne(O.Size(x));
  }

  lemma PairRows(x: O.Outline<RowKind>, y: O.Outline<RowKind>, d: nat)
    ensures O.RowsOf([x, y], d) == O.Rows(x, d) + O.Rows(y, d)
    ensures Sum(O.Sizes([x, y])) == O.Size(x) + O.Size(y)
  {
    assert O.RowsEach([x, y], d) == [O.Rows(x, d)] + [O.Rows(y, d)];
    ConcatAppend([O.Rows(x, d)], [O.Rows(y, d)]);
    ConcatOne(O.Rows(x, d));
    ConcatOne(O.Rows(y, d));
    assert O.Sizes([x, y]) == [O.Size(x), O.Size(y)];
    assert [O.Size(x), O.Size(y)][..1] == [O.Size(x)];
    SumOne(O.Size(x));
  }

  lemma {:induction false} ShapeRows(n: Node, d: nat)
    ensures Flat(n, d) == O.Rows(Shape(n), d)
    decreases n
  {
    if IsList(n) {
      forall i | 0 <= i < |n.kids|
        ensures Flat(n.kids[i], d + 1) == O.Rows(Shape(n.kids[i]), d + 1)
      {
        ShapeRows(n.kids[i], d + 1);
      }
      assert FlatEach(n.kids, d + 1) == O.RowsEach(Shapes(n.kids), d + 1);
    } else if n.IfElse? {
      ShapeIfRows(n, d);
    } else if n.IsWrapper() {
      ShapeRows(n.body, d + 1);
      BranchRows(KindOf(n), Shape(n.body), d);
    }
  }

  lemma {:induction false} ShapeIfRows(n: Node, d: nat)
    requires n.IfElse?
    ensures Flat(n, d) == O.Rows(Shape(n), d)
    decreases n, 0
  {
    var x := Branch(ThenRow, Shape(n.thenNode));
    ShapeRows(n.thenNode, d + 2);
    BranchRows(ThenRow, Shape(n.thenNode), d + 1);
    O.RowsOne(Shape(n), d);
    if n.otherwise.Some? {
      var y := Branch(ElseRow, Shape(n.otherwise.value));
      ShapeRows(n.otherwise.value, d + 2);
      BranchRows(ElseRow, Shape(n.otherwise.value), d + 1);
      assert Shape(n).kids == [x, y];
      PairRows(x, y, d + 1);
    } else {
      assert Shape(n).kids == [x];
      O.RowsOne(x, d + 1);
    }
  }

  lemma {:induction false} ShapeSize(n: Node)
    ensures Size(n) == O.Size(Shape(n))
  {
    if IsList(n) {
      ShapeSizes(n.kids);
    } else if n.IfElse? {
      ShapeSize(n.thenNode);
      BranchRows(ThenRow, Shape(n.thenNode), 0);
      var x := Branch(ThenRow, Shape(n.thenNode));
      if n.otherwise.Some? {
        ShapeSize(n.otherwise.value);
        BranchRows(ElseRow, Shape(n.otherwise.value), 0);
        PairRows(x, Branch(ElseRow, Shape(n.otherwise.value)), 0);
        assert Shape(n).kids == [x, Branch(ElseRow, Shape(n.otherwise.value))];
      } else {
        assert Shape(n).kids == [x];
        assert O.Sizes([x]) == [O.Size(x)];
        SumOne(O.Size(x));
      }
    } else if n.IsWrapper() {
      ShapeSize(n.body);
      BranchRows(KindOf(n), Shape(n.body), 0);
    }
  }

  lemma {:induction false} ShapeSizes(ns: seq<Node>)
    ensures Sizes(ns) == O.Sizes(Shapes(ns))
  {
    forall i | 0 <= i < |ns|
      ensures Size(ns[i]) == O.Size(Shape(ns[i]))
    {
      ShapeSize(ns[i]);
    }
  }

  /// Where the rows below a node lie in its outline

  /** Row `k` of `t` is row `off` of its child `i`, which is `x`. */
  predicate Spot(t: O.Outline<RowKind>, k: nat, i: nat, x: O.Outline<RowKind>, off: nat) {
    i < |t.kids| && t.kids[i] == x && off < O.Size(x) && k == O.RowOf(t, i, off)
  }

  predicate BranchSpot(t: O.Outline<RowKind>, k: nat, i: nat, head: RowKind, x: O.Outline<RowKind>, off: nat) {
    Spot(t, k, i, Branch(head, x), off + 1) && Spot(Branch(head, x), off + 1, 0, x, off)
  }

  ghost predicate InPlace(n: Node, k: nat, at: Place, off: nat) {
    match at
    case Kid(i) => HasPlace(n, at) && Spot(Shape(n), k, i, Shape(Sub(n, at)), off)
    case Body => HasPlace(n, at) && Spot(Shape(n), k, 0, Shape(n.body), off)
    case Then => HasPlace(n, at) && BranchSpot(Shape(n), k, 0, ThenRow, Shape(n.thenNode), off)
    case Else => HasPlace(n, at) && BranchSpot(Shape(n), k, 1, ElseRow, Shape(n.otherwise.value), off)
    case Label =>
      n.IfElse? && if k == 1 then Spot(Shape(n), k, 0, Branch(ThenRow, Shape(n.thenNode)), 0)
      else n.otherwise.Some? && Spot(Shape(n), k, 1, Branch(ElseRow, Shape(n.otherwise.value)), 0)
  }

  lemma FirstSpot(t: O.Outline<RowKind>, off: nat)
    requires t.kids != [] && off < O.Size(t.kids[0])
    ensures Spot(t, 1 + off, 0, t.kids[0], off)
  {
    assert O.Sizes(t.kids)[..0] == [];
  }

  lemma SecondSpot(t: O.Outline<RowKind>, off: nat)
    requires |t.kids| == 2 && off < O.Size(t.kids[1])
    ensures Spot(t, 1 + O.Size(t.kids[0]) + off, 1, t.kids[1], off)
  {
    assert O.Sizes(t.kids)[..1] == [O.Size(t.kids[0])];
    SumOne(O.Size(t.kids[0]));
  }

  lemma PlaceInOutline(n: Node, k: nat)
    requires 0 < k < Size(n)
    ensures var (at, off) := PlaceOf(n, k); InPlace(n, k, at, off)
  {
    var (at, off) := PlaceOf(n, k);
    if IsList(n) {
      ShapeSizes(n.kids);
    } else if n.IfElse? {
      PlaceInBranches(n, k);
    } else {
      ShapeSize(n.body);
      FirstSpot(Shape(n), off);
    }
  }

  lemma PlaceInBranches(n: Node, k: nat)
    requires n.IfElse? && 0 < k < Size(n)
    ensures var (at, off) := PlaceOf(n, k); InPlace(n, k, at, off)
  {
    var x := Shape(n.thenNode);
    var t := Size(n.thenNode);
    ShapeSize(n.thenNode);
    BranchRows(ThenRow, x, 0);
    if k < 2 + t {
      FirstSpot(Shape(n), k - 1);
      if k > 1 {
        FirstSpot(Branch(ThenRow, x), k - 2);
      }
    } else {
      var y := Shape(n.otherwise.value);
      ShapeSize(n.otherwise.value);
      BranchRows(ElseRow, y, 0);
      SecondSpot(Shape(n), k - 2 - t);
      if k > 2 + t {
        FirstSpot(Branch(ElseRow, y), k - 3 - t);
      }
    }
  }

  /// Nodes

  lemma SpotNode(t: O.Outline<RowKind>, k: nat, i: nat, x: O.Outline<RowKind>, off: nat)
    requires Spot(t, k, i, x, off)
    ensures O.NodeAt(t, k).Some? && O.NodeAt(t, k) == O.NodeAt(x, off)
    ensures off == 0 ==> O.NodeAt(t, k) == Some(x)
  {
    hide O.NodeAt, O.Size, O.RowOf;
    O.KidNode(t, i, off);
    O.NodeOwnsRows(x, off, 0);
  }

  predicate IsLabel(t: O.Outline<RowKind>) {
    (t.kind.ThenRow? || t.kind.ElseRow?) && |t.kids| == 1
  }

  /** The outline has the shape of the node at row `k` there, or a branch's label. */
  ghost predicate ShapedNode(n: Node, k: nat) {
    var x := O.NodeAt(Shape(n), k);
    if NodeAt(n, k).Some? then x == Some(Shape(NodeAt(n, k).value))
    else k < Size(n) ==> x.Some? && IsLabel(x.value)
  }

  lemma {:induction false} ShapeNode(n: Node, k: nat)
    ensures ShapedNode(n, k)
  {
    if 0 < k < Size(n) {
      ShapeSubNode(n, k);
    } else {
      ShapeSize(n);
    }
  }

  lemma {:induction false} ShapeSubNode(n: Node, k: nat)
    requires 0 < k < Size(n)
    ensures ShapedNode(n, k)
    decreases n, 0
  {
    hide Shape, Size, O.NodeAt, PlaceOf, Spot;
    var (at, off) := PlaceOf(n, k);
    PlaceInOutline(n, k);
    if !at.Label? {
      ShapeNode(Sub(n, at), off);
    }
    match at
    case Kid(i) => SpotNode(Shape(n), k, i, Shape(Sub(n, at)), off);
    case Body => SpotNode(Shape(n), k, 0, Shape(n.body), off);
    case Then =>
      SpotNode(Shape(n), k, 0, Branch(ThenRow, Shape(n.thenNode)), off + 1);
      SpotNode(Branch(ThenRow, Shape(n.thenNode)), off + 1, 0, Shape(n.thenNode), off);
    case Else =>
      SpotNode(Shape(n), k, 1, Branch(ElseRow, Shape(n.otherwise.value)), off + 1);
      SpotNode(Branch(ElseRow, Shape(n.otherwise.value)), off + 1, 0, Shape(n.otherwise.value), off);
    case Label =>
      if k == 1 {
        SpotNode(Shape(n), k, 0, Branch(ThenRow, Shape(n.thenNode)), 0);
      } else {
        SpotNode(Shape(n), k, 1, Branch(ElseRow, Shape(n.otherwise.value)), 0);
      }
  }

  /// Replacing and erasing

  lemma SpotPut(t: O.Outline<RowKind>, k: nat, i: nat, x: O.Outline<RowKind>, off: nat,
                r: seq<O.Outline<RowKind>>, y: O.Outline<RowKind>)
    requires Spot(t, k, i, x, off) && O.Put(x, off, r) == [y]
    ensures O.Put(t, k, r) == [t.(kids := t.kids[i := y])]
  {
    hide O.Put, O.Size, O.RowOf;
    O.KidPut(t, i, off, r);
    assert O.Around(t.kids, i, [y]) == t.kids[i := y];
  }

  lemma BranchPut(head: RowKind, x: O.Outline<RowKind>, y: O.Outline<RowKind>)
    ensures Branch(head, x).(kids := Branch(head, x).kids[0 := y]) == Branch(head, y)
  {
  }

  /** A change inside a part shows as the same change in the outline of the whole. */
  lemma PutThrough(n: Node, k: nat, at: Place, off: nat, r: seq<O.Outline<RowKind>>, y: Node)
    requires InPlace(n, k, at, off) && !at.Label?
    requires O.Put(Shape(Sub(n, at)), off, r) == [Shape(y)]
    ensures O.Put(Shape(n), k, r) == [Shape(PutSub(n, at, Some(y)))]
  {
    hide Shape, Size, O.Put, PutSub, Spot;
    PutSubShape(n, at, y);
    match at
    case Kid(i) => SpotPut(Shape(n), k, i, Shape(Sub(n, at)), off, r, Shape(y));
    case Body => SpotPut(Shape(n), k, 0, Shape(n.body), off, r, Shape(y));
    case Then =>
      SpotPut(Branch(ThenRow, Shape(n.thenNode)), off + 1, 0, Shape(n.thenNode), off, r, Shape(y));
      BranchPut(ThenRow, Shape(n.thenNode), Shape(y));
      SpotPut(Shape(n), k, 0, Branch(ThenRow, Shape(n.thenNode)), off + 1, r, Branch(ThenRow, Shape(y)));
    case Else =>
      SpotPut(Branch(ElseRow, Shape(n.otherwise.value)), off + 1, 0, Shape(n.otherwise.value), off, r, Shape(y));
      BranchPut(ElseRow, Shape(n.otherwise.value), Shape(y));
      SpotPut(Shape(n), k, 1, Branch(ElseRow, Shape(n.otherwise.value)), off + 1, r, Branch(ElseRow, Shape(y)));
  }

  lemma PutSubShape(n: Node, at: Place, y: Node)
    requires HasPlace(n, at)
    ensures var kids := Shape(n).kids;
      var (i, x) := match at
        case Kid(i) => (i, Shape(y))
        case Body => (0, Shape(y))
        case Then => (0, Branch(ThenRow, Shape(y)))
        case Else => (1, Branch(ElseRow, Shape(y)));
      && i < |kids|
      && Shape(PutSub(n, at, Some(y))) == Shape(n).(kids := kids[i := x])
  {
    if at.Kid? {
      assert Shapes(PutKid(n.kids, at.i, Some(y))) == Shapes(n.kids)[at.i := Shape(y)];
    }
  }

  lemma {:induction false} ShapeReplace(n: Node, k: nat, r: Node)
    requires NodeAt(n, k).Some?
    ensures O.Put(Shape(n), k, [Shape(r)]) == [Shape(ReplaceAt(n, k, r))]
  {
    if k == 0 {
      ShapeSize(n);
    } else {
      hide Shape, O.Put, PlaceOf, InPlace, PutSub, Size;
      var (at, off) := PlaceOf(n, k);
      PlaceInOutline(n, k);
      ShapeReplace(Sub(n, at), off, r);
      PutThrough(n, k, at, off, [Shape(r)], ReplaceAt(Sub(n, at), off, r));
    }
  }

  /** The row above the node at row `k`. */
  function Above(n: Node, k: nat): Option<RowKind> {
    if 0 < k <= Size(n) && O.NodeAt(Shape(n), k - 1).Some? then Some(O.NodeAt(Shape(n), k - 1).value.kind) else None
  }

  /** A row that stands above exactly one body. */
  predicate OwnsBody(kind: RowKind) {
    kind.ThenRow? || kind.WhileRow? || kind.ForEachRow? || kind.RetryRow? || kind.TimeoutRow?
  }

  const NOTHING: O.Outline<RowKind> := Shape(Seq([]))

  /** Erasing row `k` drops its node. A lost body leaves an empty sequence behind, a lost else-branch takes its label
      along. */
  ghost predicate ErasesNode(n: Node, k: nat) {
    && EraseAt(n, k).Some? && Above(n, k).Some?
    && var above := Above(n, k).value;
      [Shape(EraseAt(n, k).value)]
        == if OwnsBody(above) then O.Put(Shape(n), k, [NOTHING])
           else if above.ElseRow? then O.Put(Shape(n), k - 1, [])
           else O.Put(Shape(n), k, [])
  }

  lemma SpotAbove(t: O.Outline<RowKind>, k: nat, i: nat, x: O.Outline<RowKind>, off: nat)
    requires Spot(t, k, i, x, off) && off > 0
    ensures k > 1 && Spot(t, k - 1, i, x, off - 1)
  {
  }

  /** Deeper in a part, the row above is the part's; right below a branch or a body it is its label or its owner. */
  lemma AboveInPlace(n: Node, k: nat, at: Place, off: nat)
    requires 0 < k < Size(n) && InPlace(n, k, at, off) && !at.Label?
    ensures off > 0 ==> k > 1 && InPlace(n, k - 1, at, off - 1)
    ensures off > 0 ==> O.NodeAt(Shape(n), k - 1) == O.NodeAt(Shape(Sub(n, at)), off - 1)
    ensures off == 0 && at.Body? ==> Above(n, k) == Some(KindOf(n))
    ensures off == 0 && at.Then? ==> Above(n, k) == Some(ThenRow)
    ensures off == 0 && at.Else? ==> k > 1 && Above(n, k) == Some(ElseRow)
  {
    RootNode(n);
    hide Shape, Size, O.NodeAt, Spot, O.Size;
    match at
    case Kid(i) =>
      if off > 0 {
        SpotAbove(Shape(n), k, i, Shape(Sub(n, at)), off);
        SpotNode(Shape(n), k - 1, i, Shape(Sub(n, at)), off - 1);
      }
    case Body =>
      if off > 0 {
        SpotAbove(Shape(n), k, 0, Shape(n.body), off);
        SpotNode(Shape(n), k - 1, 0, Shape(n.body), off - 1);
      } else {
        SpotFirst(Shape(n), k, Shape(n.body));
      }
    case Then => AboveInBranch(n, k, 0, ThenRow, Shape(n.thenNode), off);
    case Else => AboveInBranch(n, k, 1, ElseRow, Shape(n.otherwise.value), off);
  }

  lemma RootNode(n: Node)
    ensures O.NodeAt(Shape(n), 0) == Some(Shape(n)) && Shape(n).kind == KindOf(n)
  {
  }

  lemma SpotFirst(t: O.Outline<RowKind>, k: nat, x: O.Outline<RowKind>)
    requires Spot(t, k, 0, x, 0)
    ensures k == 1
  {
    O.FirstRow(t);
  }

  lemma AboveInBranch(n: Node, k: nat, i: nat, head: RowKind, x: O.Outline<RowKind>, off: nat)
    requires BranchSpot(Shape(n), k, i, head, x, off)
    ensures k > 1 && O.NodeAt(Shape(n), k - 1).Some?
    ensures off > 0 ==> BranchSpot(Shape(n), k - 1, i, head, x, off - 1)
    ensures off > 0 ==> O.NodeAt(Shape(n), k - 1) == O.NodeAt(x, off - 1)
    ensures off == 0 ==> O.NodeAt(Shape(n), k - 1).value.kind == head
  {
    hide Shape, Size, O.NodeAt, Spot, O.Size;
    SpotAbove(Shape(n), k, i, Branch(head, x), off + 1);
    SpotNode(Shape(n), k - 1, i, Branch(head, x), off);
    if off > 0 {
      SpotAbove(Branch(head, x), off + 1, 0, x, off);
      SpotNode(Branch(head, x), off, 0, x, off - 1);
    }
  }

  lemma AboveKid(n: Node, k: nat, i: nat)
    requires 0 < k < Size(n) && IsList(n) && InPlace(n, k, Kid(i), 0)
    ensures Above(n, k).Some? && !OwnsBody(Above(n, k).value) && !Above(n, k).value.ElseRow?
  {
    hide Shape, Size, O.NodeAt, O.RowOf, O.Size;
    O.RowAboveKid(Shape(n), i);
    ShapeNode(n, k - 1);
    RootNode(n);
    if NodeAt(n, k - 1).Some? {
      Childless(NodeAt(n, k - 1).value);
    }
  }

  lemma Childless(n: Node)
    ensures Shape(n).kind == KindOf(n)
    ensures Shape(n).kids == [] ==> !OwnsBody(KindOf(n))
  {
  }

  lemma {:induction false} ShapeErase(n: Node, k: nat)
    requires NodeAt(n, k).Some? && k > 0
    ensures ErasesNode(n, k)
  {
    hide Shape, O.Put, PlaceOf, InPlace, PutSub, Size, O.NodeAt;
    var (at, off) := PlaceOf(n, k);
    PlaceInOutline(n, k);
    AboveInPlace(n, k, at, off);
    if off > 0 {
      var x := Sub(n, at);
      ShapeErase(x, off);
      var y := EraseAt(x, off).value;
      var above := Above(x, off).value;
      if OwnsBody(above) {
        PutThrough(n, k, at, off, [NOTHING], y);
      } else if above.ElseRow? {
        PutThrough(n, k - 1, at, off - 1, [], y);
      } else {
        PutThrough(n, k, at, off, [], y);
      }
    } else {
      ErasePlace(n, k, at);
    }
  }

  lemma ErasePlace(n: Node, k: nat, at: Place)
    requires 0 < k < Size(n) && PlaceOf(n, k) == (at, 0) && InPlace(n, k, at, 0) && !at.Label?
    ensures ErasesNode(n, k)
  {
    hide Shape, O.Put, PlaceOf, InPlace, Size, O.NodeAt;
    ErasedPlace(n, k, at);
    AboveInPlace(n, k, at, 0);
    match at
    case Kid(i) =>
      AboveKid(n, k, i);
      DropKid(n, k, i);
    case Else => DropElse(n, k);
    case Body => FillPlace(n, k, at);
    case Then => FillPlace(n, k, at);
  }

  lemma FillPlace(n: Node, k: nat, at: Place)
    requires InPlace(n, k, at, 0) && (at.Body? || at.Then?)
    ensures O.Put(Shape(n), k, [NOTHING]) == [Shape(PutSub(n, at, None))]
    ensures at.Body? ==> OwnsBody(KindOf(n))
  {
    hide O.Put, Shape, Spot;
    PutRoot(Shape(Sub(n, at)), [NOTHING]);
    PutThrough(n, k, at, 0, [NOTHING], Seq([]));
    FillerRows(n, at);
  }

  lemma ErasedPlace(n: Node, k: nat, at: Place)
    requires 0 < k < Size(n) && PlaceOf(n, k) == (at, 0) && !at.Label?
    ensures HasPlace(n, at) && EraseAt(n, k) == Some(PutSub(n, at, None))
  {
    assert EraseAt(Sub(n, at), 0) == None;
  }

  lemma FillerRows(n: Node, at: Place)
    requires HasPlace(n, at) && (at.Body? || at.Then?)
    ensures PutSub(n, at, None) == PutSub(n, at, Some(Seq([])))
    ensures at.Body? ==> OwnsBody(KindOf(n))
  {
  }

  lemma PutRoot(t: O.Outline<RowKind>, r: seq<O.Outline<RowKind>>)
    ensures O.Put(t, 0, r) == r
  {
  }

  lemma DropKid(n: Node, k: nat, i: nat)
    requires InPlace(n, k, Kid(i), 0)
    ensures O.Put(Shape(n), k, []) == [Shape(PutSub(n, Kid(i), None))]
  {
    hide O.Put, Size, O.Size, O.RowOf;
    PutRoot(Shape(n.kids[i]), []);
    O.KidPut(Shape(n), i, 0, []);
    assert Shapes(PutKid(n.kids, i, None)) == O.Around(Shapes(n.kids), i, []);
  }

  lemma DropElse(n: Node, k: nat)
    requires k > 0 && InPlace(n, k, Else, 0)
    ensures O.Put(Shape(n), k - 1, []) == [Shape(PutSub(n, Else, None))]
  {
    hide O.Put, Size, O.Size, O.RowOf;
    var t := Shape(n);
    SpotAbove(t, k, 1, t.kids[1], 1);
    PutRoot(t.kids[1], []);
    O.KidPut(t, 1, 0, []);
    assert O.Around(t.kids, 1, []) == [t.kids[0]];
    assert Shape(n.(otherwise := None)).kids == [t.kids[0]];
  }

  /// Moving

  lemma SpotMove(t: O.Outline<RowKind>, k: nat, i: nat, x: O.Outline<RowKind>, off: nat, up: bool)
    requires Spot(t, k, i, x, off) && (off > 0 || !t.list)
    ensures Move(t, k, up) == t.(kids := t.kids[i := Move(x, off, up)])
  {
    MoveRoot(x, up);
    hide Move, O.Size, O.RowOf, Sibling;
    KidMove(t, i, off, up);
    assert t.kids[i := x] == t.kids;
  }

  lemma MoveRoot(t: O.Outline<RowKind>, up: bool)
    ensures Move(t, 0, up) == t
  {
  }

  lemma MoveThrough(n: Node, k: nat, at: Place, off: nat, y: Node, up: bool)
    requires InPlace(n, k, at, off) && !at.Label? && (off > 0 || !at.Kid?)
    requires Move(Shape(Sub(n, at)), off, up) == Shape(y)
    ensures Move(Shape(n), k, up) == Shape(PutSub(n, at, Some(y)))
  {
    hide Shape, Size, Move, PutSub, Spot;
    ListShape(n);
    PutSubShape(n, at, y);
    match at
    case Kid(i) => SpotMove(Shape(n), k, i, Shape(Sub(n, at)), off, up);
    case Body => SpotMove(Shape(n), k, 0, Shape(n.body), off, up);
    case Then =>
      SpotMove(Branch(ThenRow, Shape(n.thenNode)), off + 1, 0, Shape(n.thenNode), off, up);
      BranchPut(ThenRow, Shape(n.thenNode), Shape(y));
      SpotMove(Shape(n), k, 0, Branch(ThenRow, Shape(n.thenNode)), off + 1, up);
    case Else =>
      SpotMove(Branch(ElseRow, Shape(n.otherwise.value)), off + 1, 0, Shape(n.otherwise.value), off, up);
      BranchPut(ElseRow, Shape(n.otherwise.value), Shape(y));
      SpotMove(Shape(n), k, 1, Branch(ElseRow, Shape(n.otherwise.value)), off + 1, up);
  }

  lemma ListShape(n: Node)
    ensures Shape(n).list <==> IsList(n)
  {
  }

  lemma {:induction false} ShapeMove(n: Node, k: nat, up: bool)
    ensures Shape(MoveAt(n, k, up)) == Move(Shape(n), k, up)
  {
    if 0 < k < Size(n) {
      ShapeSubMove(n, k, up);
    } else {
      ShapeSize(n);
    }
  }

  lemma {:induction false} ShapeSubMove(n: Node, k: nat, up: bool)
    requires 0 < k < Size(n)
    ensures Shape(MoveAt(n, k, up)) == Move(Shape(n), k, up)
    decreases n, 0
  {
    hide Shape, Size, PlaceOf, Move, InPlace, PutSub;
    var (at, off) := PlaceOf(n, k);
    PlaceInOutline(n, k);
    match at
    case Label => LabelMove(n, k, off, up);
    case Kid(i) =>
      if off == 0 {
        KidSwap(n, k, i, up);
      } else {
        ShapeMove(Sub(n, at), off, up);
        MoveThrough(n, k, at, off, MoveAt(Sub(n, at), off, up), up);
      }
    case _ =>
      ShapeMove(Sub(n, at), off, up);
      MoveThrough(n, k, at, off, MoveAt(Sub(n, at), off, up), up);
  }

  lemma LabelMove(n: Node, k: nat, off: nat, up: bool)
    requires InPlace(n, k, Label, off)
    ensures Move(Shape(n), k, up) == Shape(n)
  {
    ListShape(n);
    var i := if k == 1 then 0 else 1;
    MoveRoot(Shape(n).kids[i], up);
    hide Size, Move, O.Size, O.RowOf;
    SpotMove(Shape(n), k, i, Shape(n).kids[i], 0, up);
    assert Shape(n).kids[i := Shape(n).kids[i]] == Shape(n).kids;
  }

  lemma KidSwap(n: Node, k: nat, i: nat, up: bool)
    requires InPlace(n, k, Kid(i), 0)
    ensures var j := Partner(i, |n.kids|, up);
      Move(Shape(n), k, up) == Shape(if j.Some? then WithKids(n, Swapped(n.kids, i, j.value)) else n)
  {
    hide Size, Move, O.Size, O.RowOf, Sibling;
    KidMove(Shape(n), i, 0, up);
    var j := Partner(i, |n.kids|, up);
    if j.Some? {
      assert Shapes(Swapped(n.kids, i, j.value)) == Swapped(Shapes(n.kids), i, j.value);
    }
  }

  lemma {:induction false} ShapeInjective(a: Node, b: Node)
    requires Shape(a) == Shape(b)
    ensures a == b
  {
    assert Shape(a).kind == KindOf(a) && Shape(b).kind == KindOf(b);
    var (x, y) := (Shape(a).kids, Shape(b).kids);
    if IsList(a) {
      forall i | 0 <= i < |x|
        ensures a.kids[i] == b.kids[i]
      {
        assert x[i] == Shape(a.kids[i]) && y[i] == Shape(b.kids[i]);
        ShapeInjective(a.kids[i], b.kids[i]);
      }
      assert |a.kids| == |x| == |b.kids|;
    } else if a.IfElse? {
      assert x[0].kids[0] == Shape(a.thenNode) && y[0].kids[0] == Shape(b.thenNode);
      ShapeInjective(a.thenNode, b.thenNode);
      if a.otherwise.Some? {
        assert x[1].kids[0] == Shape(a.otherwise.value) && y[1].kids[0] == Shape(b.otherwise.value);
        ShapeInjective(a.otherwise.value, b.otherwise.value);
      }
    } else if a.IsWrapper() {
      assert x[0] == Shape(a.body) && y[0] == Shape(b.body);
      ShapeInjective(a.body, b.body);
    }
  }
}
