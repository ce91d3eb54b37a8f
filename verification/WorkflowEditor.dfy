// The workflow editor's walks as the source writes them: recursion with a running row counter, and loops that rebuild
// a list's children (crates/app/src/tree_model.rs).
module WorkflowEditor {
  import opened Domain
  import opened Blocks
  import opened OutlineMoves
  import opened WorkflowTree
  import opened WorkflowNumbering
  import O = Outlines

  /// Flattening

  method FlattenWorkflow(node: Node) returns (rows: seq<Row>)
    ensures rows == Flat(node, 0)
  {
    rows := FlattenWorkflowRec(node, 0, []);
  }

  method FlattenWorkflowRec(node: Node, depth: nat, before: seq<Row>) returns (rows: seq<Row>)
    ensures rows == before + Flat(node, depth)
    decreases node
  {
    rows := before + [O.Row(depth, KindOf(node))];
    match node
    case Seq(children) =>
      rows := FlattenChildren(children, depth + 1, rows);
    case Parallel(children) =>
      rows := FlattenChildren(children, depth + 1, rows);
    case IfElse(_, thenNode, otherwise) =>
      rows := rows + [O.Row(depth + 1, ThenRow)];
      rows := FlattenWorkflowRec(thenNode, depth + 2, rows);
      if otherwise.Some? {
        rows := rows + [O.Row(depth + 1, ElseRow)];
        rows := FlattenWorkflowRec(otherwise.value, depth + 2, rows);
      }
    case While(_, body, _) =>
      rows := FlattenWorkflowRec(body, depth + 1, rows);
    case ForEach(_, _, body) =>
      rows := FlattenWorkflowRec(body, depth + 1, rows);
    case Retry(body, _, _) =>
      rows := FlattenWorkflowRec(body, depth + 1, rows);
    case Timeout(body, _) =>
      rows := FlattenWorkflowRec(body, depth + 1, rows);
    case _ =>
  }

  method FlattenChildren(children: seq<Node>, depth: nat, before: seq<Row>) returns (rows: seq<Row>)
    ensures rows == before + Concat(FlatEach(children, depth))
    decreases children
  {
    rows := before;
    ghost var blocks := FlatEach(children, depth);
    for i := 0 to |children|
      invariant rows == before + Concat(blocks[..i])
    {
      rows := FlattenWorkflowRec(children[i], depth, rows);
      ConcatNext(blocks, i);
    }
    assert blocks[..|children|] == blocks;
  }

  /// Rows the walks reach

  lemma {:induction false} SeenInside(n: Node, p: int)
    ensures 0 <= p < WalkSize(n) ==> 0 <= Seen(n, p) < Size(n)
    ensures p <= 0 ==> Seen(n, p) == p
    ensures p >= WalkSize(n) ==> Seen(n, p) >= Size(n)
    ensures p > 0 ==> Seen(n, p) > 0
    decreases n
  {
    SeenOutside(n, p);
    hide Seen, Size, WalkSize, Sum, Locate, Start;
    if 0 < p < WalkSize(n) {
      if IsList(n) {
        SeenInKid(n, p);
      } else if n.IfElse? {
        BranchSizes(n);
        SeenBranch(n, p);
        SeenInside(n.thenNode, p - 2);
        if n.otherwise.Some? {
          SeenInside(n.otherwise.value, p - 3 - WalkSize(n.thenNode));
        }
      } else {
        SeenBody(n, p);
        SeenInside(n.body, p - 1);
      }
    }
  }

  lemma SeenOutside(n: Node, p: int)
    ensures p <= 0 ==> Seen(n, p) == p
    ensures p > 0 && p >= WalkSize(n) ==> Seen(n, p) == Size(n) + p - WalkSize(n)
    ensures WalkSize(n) > 0 && Size(n) > 0
  {
  }

  lemma SeenBody(n: Node, p: int)
    requires 0 < p < WalkSize(n) && !IsList(n) && !n.IfElse?
    ensures n.IsWrapper() && !n.ForEach? && Seen(n, p) == 1 + Seen(n.body, p - 1)
    ensures WalkSize(n) == 1 + WalkSize(n.body) && Size(n) == 1 + Size(n.body)
  {
  }

  lemma {:induction false} SeenInKid(n: Node, p: int)
    requires IsList(n) && 0 < p < WalkSize(n)
    ensures p - 1 < Sum(WalkSizes(n.kids)) && 0 < Seen(n, p) < Size(n)
    ensures var (i, off) := Locate(WalkSizes(n.kids), p - 1);
      var x := Seen(n.kids[i], off);
      && 0 <= x < Size(n.kids[i]) && Seen(n, p) == 1 + Start(Sizes(n.kids), i) + x
      && PlaceOf(n, Seen(n, p)) == (Kid(i), x)
    decreases n, 0
  {
    hide Start, Sum, Locate, Size, WalkSize, Seen, PlaceOf;
    ListFacts(n, p);
    var (i, off) := Locate(WalkSizes(n.kids), p - 1);
    SeenInside(n.kids[i], off);
    KidPlace(n, i, Seen(n.kids[i], off));
  }

  lemma KidPlace(n: Node, i: nat, off: nat)
    requires IsList(n) && i < |n.kids| && off < Size(n.kids[i])
    ensures var k := 1 + Start(Sizes(n.kids), i) + off;
      k < Size(n) && PlaceOf(n, k) == (Kid(i), off)
  {
    hide Start, Sum, Locate;
    LocateUnique(Sizes(n.kids), Start(Sizes(n.kids), i) + off, i);
  }

  /// Whether a walk reports that it found its target

  /** Row `k` lies in an else-branch. */
  predicate InElse(n: Node, k: int) {
    && 0 < k < Size(n)
    && var (at, off) := PlaceOf(n, k);
      at.Else? || (!at.Label? && InElse(Sub(n, at), off))
  }

  /** Row `k` is a node, and an action unless any will do, and lies in no else-branch: what the walks find there they
      forget. */
  predicate HitAt(n: Node, k: int, any: bool) {
    NodeAt(n, k).Some? && (any || NodeAt(n, k).value.Action?) && !InElse(n, k)
  }

  predicate Hit(n: Node, p: int, any: bool) {
    HitAt(n, Seen(n, p), any)
  }

  function HitEach(ns: seq<Node>, p: int, any: bool): seq<bool> {
    seq(|ns|, i requires 0 <= i < |ns| => Hit(ns[i], p - Start(WalkSizes(ns), i), any))
  }

  lemma HitOutside(n: Node, p: int, any: bool)
    ensures p < 0 || p >= WalkSize(n) ==> !Hit(n, p, any)
    ensures Hit(n, 0, any) <==> any || n.Action?
  {
    SeenInside(n, p);
  }

  lemma HitInPlace(n: Node, k: nat, any: bool)
    requires 0 < k < Size(n)
    ensures var (at, off) := PlaceOf(n, k);
      HitAt(n, k, any) <==> !at.Label? && !at.Else? && HitAt(Sub(n, at), off, any)
  {
    hide PlaceOf, Size;
    NodeInPlace(n, k);
  }

  lemma HitList(n: Node, p: int, any: bool)
    requires IsList(n) && (p != 0 || !any)
    ensures Hit(n, p, any) <==> true in HitEach(n.kids, p - 1, any)
  {
    hide Sum, Start, Locate, Seen, Hit;
    var (ns, sizes, hits) := (n.kids, WalkSizes(n.kids), HitEach(n.kids, p - 1, any));
    forall j | 0 <= j < |ns| && (p < 1 || p >= WalkSize(n) || Locate(sizes, p - 1).0 != j)
      ensures !hits[j]
    {
      Elsewhere(sizes, p - 1, j);
      HitOutside(ns[j], p - 1 - Start(sizes, j), any);
    }
    if 1 <= p < WalkSize(n) {
      HitKid(n, p, any);
      var (i, off) := Locate(sizes, p - 1);
      assert hits[i] == Hit(ns[i], off, any);
    } else {
      HitOutside(n, p, any);
    }
  }

  lemma HitKid(n: Node, p: int, any: bool)
    requires IsList(n) && 0 < p < WalkSize(n)
    ensures p - 1 < Sum(WalkSizes(n.kids))
    ensures var (i, off) := Locate(WalkSizes(n.kids), p - 1);
      Hit(n, p, any) == Hit(n.kids[i], off, any)
  {
    hide Sum, Start, Locate, HitAt, PlaceOf, Seen;
    SeenInKid(n, p);
    HitInPlace(n, Seen(n, p), any);
  }

  lemma HitBody(n: Node, p: int, any: bool)
    requires n.IsWrapper() && (p != 0 || !any)
    ensures Hit(n, p, any) <==> !n.ForEach? && Hit(n.body, p - 1, any)
  {
    hide HitAt, Size, WalkSize, Seen, PlaceOf;
    BodySize(n);
    if 0 < p < WalkSize(n) {
      SeenBody(n, p);
      SeenInside(n.body, p - 1);
      BodyPlace(n, Seen(n, p));
      HitInPlace(n, Seen(n, p), any);
    } else {
      HitOutside(n, p, any);
      if !n.ForEach? {
        HitOutside(n.body, p - 1, any);
      }
    }
  }

  lemma HitBranches(n: Node, p: int, any: bool)
    requires n.IfElse? && (p != 0 || !any)
    ensures Hit(n, p, any) <==> Hit(n.thenNode, p - 2, any)
  {
    hide HitAt, Size, WalkSize, Seen, PlaceOf;
    BranchSizes(n);
    HitOutside(n, p, any);
    HitOutside(n.thenNode, p - 2, any);
    if 0 < p < WalkSize(n) {
      SeenPlace(n, p);
      HitInPlace(n, Seen(n, p), any);
    }
  }

  lemma HitLeaf(n: Node, p: int, any: bool)
    requires n.Action? || n.Wait?
    ensures Hit(n, p, any) <==> p == 0 && (any || n.Action?)
  {
    HitOutside(n, p, any);
  }

  /// Updating an action

  lemma UpdateOutside(n: Node, k: int, c: ActionConfig)
    requires k < 0 || k >= Size(n)
    ensures UpdateAt(n, k, c) == n
  {
  }

  lemma UpdateInPlace(n: Node, k: nat, c: ActionConfig)
    requires 0 < k < Size(n)
    ensures var (at, off) := PlaceOf(n, k);
      UpdateAt(n, k, c) == if at.Label? then n else PutSub(n, at, Some(UpdateAt(Sub(n, at), off, c)))
  {
    hide PlaceOf, PutSub, NodeAt, ReplaceAt;
    var (at, off) := PlaceOf(n, k);
    NodeInPlace(n, k);
    if !at.Label? {
      ReplaceInPlace(n, k, Action(c));
      PutBack(n, at);
    }
  }

  lemma NodeInPlace(n: Node, k: nat)
    requires 0 < k < Size(n)
    ensures var (at, off) := PlaceOf(n, k);
      NodeAt(n, k) == if at.Label? then None else NodeAt(Sub(n, at), off)
  {
  }

  lemma ReplaceInPlace(n: Node, k: nat, r: Node)
    requires 0 < k < Size(n) && !PlaceOf(n, k).0.Label?
    ensures var (at, off) := PlaceOf(n, k);
      ReplaceAt(n, k, r) == PutSub(n, at, Some(ReplaceAt(Sub(n, at), off, r)))
  {
    hide PlaceOf, PutSub;
    var (at, off) := PlaceOf(n, k);
    PutSome(Sub(n, at), off, r);
  }

  /** What the update walk makes of a node it numbers from `-p`. */
  function Walked(n: Node, p: int, c: ActionConfig): Node {
    UpdateAt(n, Seen(n, p), c)
  }

  function WalkedEach(ns: seq<Node>, p: int, c: ActionConfig): seq<Node> {
    seq(|ns|, i requires 0 <= i < |ns| => Walked(ns[i], p - Start(WalkSizes(ns), i), c))
  }

  lemma WalkedOutside(n: Node, p: int, c: ActionConfig)
    requires p < 0 || p >= WalkSize(n) || (p == 0 && !n.Action?)
    ensures Walked(n, p, c) == n
  {
    SeenInside(n, p);
    if p != 0 {
      UpdateOutside(n, Seen(n, p), c);
    }
  }

  lemma WalkedList(n: Node, p: int, c: ActionConfig)
    requires IsList(n)
    ensures Walked(n, p, c) == WithKids(n, WalkedEach(n.kids, p - 1, c))
  {
    hide Sum, Start, Locate, UpdateAt, PlaceOf, Seen, Walked;
    var (ns, sizes) := (n.kids, WalkSizes(n.kids));
    forall j | 0 <= j < |ns| && (p < 1 || p >= WalkSize(n) || Locate(sizes, p - 1).0 != j)
      ensures WalkedEach(ns, p - 1, c)[j] == ns[j]
    {
      Elsewhere(sizes, p - 1, j);
      WalkedOutside(ns[j], p - 1 - Start(sizes, j), c);
    }
    if 1 <= p < WalkSize(n) {
      WalkedKid(n, p, c);
      var (i, off) := Locate(sizes, p - 1);
      assert WalkedEach(ns, p - 1, c) == PutKid(ns, i, Some(Walked(ns[i], off, c)));
    } else {
      assert WalkedEach(ns, p - 1, c) == ns;
      WalkedOutside(n, p, c);
    }
  }

  lemma WalkedKid(n: Node, p: int, c: ActionConfig)
    requires IsList(n) && 0 < p < WalkSize(n)
    ensures p - 1 < Sum(WalkSizes(n.kids))
    ensures var (i, off) := Locate(WalkSizes(n.kids), p - 1);
      Walked(n, p, c) == WithKids(n, PutKid(n.kids, i, Some(Walked(n.kids[i], off, c))))
  {
    hide Sum, Start, Locate, UpdateAt, PlaceOf, Seen;
    SeenInKid(n, p);
    UpdateInPlace(n, Seen(n, p), c);
  }

  lemma WalkedBody(n: Node, p: int, c: ActionConfig)
    requires n.IsWrapper()
    ensures Walked(n, p, c) == if n.ForEach? then n else WithBody(n, Walked(n.body, p - 1, c))
  {
    hide UpdateAt;
    SeenInside(n, p);
    if 0 < p < WalkSize(n) {
      UpdateInPlace(n, Seen(n, p), c);
    } else {
      WalkedOutside(n, p, c);
      if !n.ForEach? {
        WalkedOutside(n.body, p - 1, c);
      }
    }
  }

  lemma WalkedBranches(n: Node, p: int, c: ActionConfig)
    requires n.IfElse?
    ensures Walked(n, p, c)
         == IfElse(n.cond, Walked(n.thenNode, p - 2, c),
                   match n.otherwise
                   case Some(e) => Some(Walked(e, p - 3 - WalkSize(n.thenNode), c))
                   case None => None)
  {
    hide UpdateAt, Walked;
    var t := n.thenNode;
    if p < 2 || p >= 2 + WalkSize(t) {
      WalkedOutside(t, p - 2, c);
    }
    if n.otherwise.Some? && (p < 3 + WalkSize(t) || p >= WalkSize(n)) {
      WalkedOutside(n.otherwise.value, p - 3 - WalkSize(t), c);
    }
    if 0 < p < WalkSize(n) {
      WalkedBranch(n, p, c);
    } else {
      WalkedOutside(n, p, c);
    }
  }

  /** The place of the row that the walks number `p`, in a conditional. */
  lemma SeenPlace(n: Node, p: int)
    requires n.IfElse? && 0 < p < WalkSize(n)
    ensures 0 < Seen(n, p) < Size(n)
    ensures var t := WalkSize(n.thenNode);
      PlaceOf(n, Seen(n, p)) ==
        if p == 1 || p == 2 + t then (Label, 0)
        else if p < 2 + t then (Then, Seen(n.thenNode, p - 2))
        else (Else, Seen(n.otherwise.value, p - 3 - t))
    ensures p > 2 + WalkSize(n.thenNode) ==> n.otherwise.Some?
  {
    hide Size, Sum, WalkSize, Seen;
    BranchSizes(n);
    SeenBranch(n, p);
    SeenInside(n.thenNode, p - 2);
    if n.otherwise.Some? {
      SeenInside(n.otherwise.value, p - 3 - WalkSize(n.thenNode));
    }
  }

  lemma WalkedBranch(n: Node, p: int, c: ActionConfig)
    requires n.IfElse? && 0 < p < WalkSize(n)
    ensures var t := WalkSize(n.thenNode);
      Walked(n, p, c) ==
        if p == 1 || p == 2 + t then n
        else if p < 2 + t then n.(thenNode := Walked(n.thenNode, p - 2, c))
        else n.(otherwise := Some(Walked(n.otherwise.value, p - 3 - t, c)))
  {
    hide UpdateAt, Size, Sum, WalkSize, Seen, PlaceOf;
    SeenPlace(n, p);
    UpdateInPlace(n, Seen(n, p), c);
  }

  /** The source returns the tree as it is when the text in the form does not parse. */
  method UpdateWorkflowAction(root: Node, pos: nat, parsed: Option<ActionConfig>) returns (result: Node)
    ensures result == if parsed.Some? then UpdateAt(root, Seen(root, pos), parsed.value) else root
  {
    hide UpdateAt, Seen;
    if parsed.None? {
      return root;
    }
    var found, counter;
    result, found, counter := ReplaceActionRec(root, pos, parsed.value, 0);
  }

  method ReplaceActionRec(node: Node, target: nat, c: ActionConfig, counter: nat)
    returns (out: Node, found: bool, next: nat)
    ensures out == Walked(node, target - counter, c)
    ensures found == Hit(node, target - counter, false)
    ensures next == counter + WalkSize(node)
    decreases node
  {
    hide Walked, Sum, WalkSizes, WalkedEach, Hit, HitEach;
    var pos := counter;
    found, next := false, counter + 1;
    match node
    case Action(_) =>
      WalkedLeaf(node, target - counter, c);
      HitLeaf(node, target - counter, false);
      out, found := if pos == target then Action(c) else node, pos == target;
    case Seq(children) =>
      WalkedList(node, target - counter, c);
      HitList(node, target - counter, false);
      var kids;
      kids, found, next := ReplaceChildren(children, target, c, next);
      out := Seq(kids);
    case Parallel(children) =>
      WalkedList(node, target - counter, c);
      HitList(node, target - counter, false);
      var kids;
      kids, found, next := ReplaceChildren(children, target, c, next);
      out := Parallel(kids);
    case IfElse(cond, thenNode, otherwise) =>
      WalkedBranches(node, target - counter, c);
      HitBranches(node, target - counter, false);
      next := next + 1;
      var newThen;
      newThen, found, next := ReplaceActionRec(thenNode, target, c, next);
      var newOtherwise := None;
      if otherwise.Some? {
        next := next + 1;
        var newElse, f;
        newElse, f, next := ReplaceActionRec(otherwise.value, target, c, next);
        newOtherwise := Some(newElse);
      }
      out := IfElse(cond, newThen, newOtherwise);
    case While(cond, body, maxIter) =>
      WalkedBody(node, target - counter, c);
      HitBody(node, target - counter, false);
      var newBody;
      newBody, found, next := ReplaceActionRec(body, target, c, next);
      out := While(cond, newBody, maxIter);
    case Retry(body, times, backoff) =>
      WalkedBody(node, target - counter, c);
      HitBody(node, target - counter, false);
      var newBody;
      newBody, found, next := ReplaceActionRec(body, target, c, next);
      out := Retry(newBody, times, backoff);
    case Timeout(body, millis) =>
      WalkedBody(node, target - counter, c);
      HitBody(node, target - counter, false);
      var newBody;
      newBody, found, next := ReplaceActionRec(body, target, c, next);
      out := Timeout(newBody, millis);
    case ForEach(_, _, _) =>
      WalkedBody(node, target - counter, c);
      HitBody(node, target - counter, false);
      out := node;
    case Wait(_) =>
      WalkedLeaf(node, target - counter, c);
      HitLeaf(node, target - counter, false);
      out := node;
  }

  lemma WalkedLeaf(n: Node, p: int, c: ActionConfig)
    requires n.Action? || n.Wait?
    ensures Walked(n, p, c) == if n.Action? && p == 0 then Action(c) else n
  {
  }

  method ReplaceChildren(children: seq<Node>, target: nat, c: ActionConfig, first: nat)
    returns (out: seq<Node>, found: bool, next: nat)
    ensures out == WalkedEach(children, target - first, c)
    ensures found <==> true in HitEach(children, target - first, false)
    ensures next == first + Sum(WalkSizes(children))
    decreases children
  {
    hide Sum, Start, WalkSize, Walked, Hit;
    StartOfFirst(WalkSizes(children));
    ghost var hits := HitEach(children, target - first, false);
    out, found, next := [], false, first;
    for i := 0 to |children|
      invariant out == WalkedEach(children, target - first, c)[..i]
      invariant found <==> true in hits[..i]
      invariant next == first + Start(WalkSizes(children), i)
    {
      var kid, f;
      kid, f, next := ReplaceActionRec(children[i], target, c, next);
      out := out + [kid];
      found := found || f;
      StartNext(WalkSizes(children), i);
      assert hits[..i + 1] == hits[..i] + [f];
    }
  }

  /// Deleting a subtree

  /** What the delete walk leaves of a node it numbers from `-p`. */
  function Removed(n: Node, p: int): Option<Node> {
    Deleted(n, Seen(n, p))
  }

  function RemovedEach(ns: seq<Node>, p: int): seq<Option<Node>> {
    seq(|ns|, i requires 0 <= i < |ns| => Removed(ns[i], p - Start(WalkSizes(ns), i)))
  }

  lemma RemovedOutside(n: Node, p: int)
    requires p < 0 || p >= WalkSize(n)
    ensures Removed(n, p) == Some(Collapse(n))
  {
    SeenInside(n, p);
  }

  lemma RemovedRoot(n: Node)
    ensures Removed(n, 0) == None
  {
  }

  lemma DeletedInPlace(n: Node, k: nat)
    requires 0 < k < Size(n)
    ensures var (at, off) := PlaceOf(n, k);
      Deleted(n, k) == Some(Collapse(if at.Label? then n else PutSub(n, at, EraseAt(Sub(n, at), off))))
  {
    hide PlaceOf, PutSub;
  }

  function Simplified(n: Node, kids: seq<Node>): Node
    requires IsList(n)
  {
    if n.Seq? then SimplifySeq(kids) else Parallel(kids)
  }

  lemma {:induction false} KeptCollapsed(opts: seq<Option<Node>>, ns: seq<Node>)
    requires |opts| == |ns| && forall i :: 0 <= i < |ns| ==> opts[i] == Some(Collapse(ns[i]))
    ensures Kept(opts) == CollapseEach(ns)
  {
    if ns != [] {
      var m := |ns| - 1;
      KeptCollapsed(opts[..m], ns[..m]);
      assert CollapseEach(ns) == CollapseEach(ns[..m]) + [Collapse(ns[m])];
    }
  }

  lemma RemovedList(n: Node, p: int)
    requires IsList(n) && p != 0
    ensures Removed(n, p) == Some(Simplified(n, Kept(RemovedEach(n.kids, p - 1))))
  {
    hide Sum, Start, Locate, Removed, WalkSize, Kept;
    var (ns, sizes, opts) := (n.kids, WalkSizes(n.kids), RemovedEach(n.kids, p - 1));
    forall j | 0 <= j < |ns| && (p < 1 || p - 1 >= Sum(sizes) || Locate(sizes, p - 1).0 != j)
      ensures opts[j] == Some(Collapse(ns[j]))
    {
      Elsewhere(sizes, p - 1, j);
      RemovedOutside(ns[j], p - 1 - Start(sizes, j));
    }
    if 1 <= p && p - 1 < Sum(sizes) {
      var (i, off) := Locate(sizes, p - 1);
      RemovedKid(n, p);
      KeptCollapsed(opts[..i], ns[..i]);
      KeptCollapsed(opts[i + 1..], ns[i + 1..]);
      KeptAround(opts, i);
    } else {
      KeptCollapsed(opts, ns);
      RemovedMissed(n, p);
    }
  }

  lemma RemovedMissed(n: Node, p: int)
    requires IsList(n) && p != 0 && (p < 1 || p - 1 >= Sum(WalkSizes(n.kids)))
    ensures Removed(n, p) == Some(Simplified(n, CollapseEach(n.kids)))
  {
    RemovedOutside(n, p);
  }

  lemma RemovedKid(n: Node, p: int)
    requires IsList(n) && 1 <= p && p - 1 < Sum(WalkSizes(n.kids))
    ensures var (ns, (i, off)) := (n.kids, Locate(WalkSizes(n.kids), p - 1));
      Removed(n, p)
        == Some(Simplified(n, CollapseEach(ns[..i]) + OptSeq(Removed(ns[i], off)) + CollapseEach(ns[i + 1..])))
  {
    hide Sum, Start, Locate, PlaceOf, Seen, PutAt, PutKid;
    ListWalkSize(n);
    SeenInKid(n, p);
    DeletedInPlace(n, Seen(n, p));
    var (ns, (i, off)) := (n.kids, Locate(WalkSizes(n.kids), p - 1));
    CollapseAround(ns, i, EraseAt(ns[i], Seen(ns[i], off)));
  }

  lemma ListWalkSize(n: Node)
    requires IsList(n)
    ensures WalkSize(n) == 1 + Sum(WalkSizes(n.kids))
  {
  }

  lemma CollapseAround(ns: seq<Node>, i: nat, kid: Option<Node>)
    requires i < |ns|
    ensures CollapseEach(PutKid(ns, i, kid))
         == CollapseEach(ns[..i]) + (if kid.Some? then [Collapse(kid.value)] else []) + CollapseEach(ns[i + 1..])
  {
  }

  lemma RemovedBody(n: Node, p: int)
    requires n.IsWrapper() && p != 0
    ensures Removed(n, p) == Some(if n.ForEach? then n else WithBody(n, Filled(Removed(n.body, p - 1))))
  {
    hide PutAt, Size, WalkSize, Seen, Sum, Collapse;
    BodySize(n);
    SeenInside(n, p);
    if 0 < p < WalkSize(n) {
      SeenBody(n, p);
      SeenInside(n.body, p - 1);
      DeletedInPlace(n, Seen(n, p));
      CollapsedBody(WithBody(n, Filled(EraseAt(n.body, Seen(n.body, p - 1)))));
      EmptySeq();
    } else {
      RemovedOutside(n, p);
      CollapsedBody(n);
      if !n.ForEach? {
        RemovedOutside(n.body, p - 1);
      }
    }
  }

  lemma CollapsedBody(n: Node)
    requires n.IsWrapper()
    ensures Collapse(n) == if n.ForEach? then n else WithBody(n, Collapse(n.body))
  {
  }

  lemma EmptySeq()
    ensures Collapse(Seq([])) == Seq([])
  {
    assert CollapseEach([]) == [];
  }

  lemma RemovedBranches(n: Node, p: int)
    requires n.IfElse? && p != 0
    ensures Removed(n, p)
         == Some(IfElse(n.cond, Filled(Removed(n.thenNode, p - 2)),
                        match n.otherwise
                        case Some(e) => Removed(e, p - 3 - WalkSize(n.thenNode))
                        case None => None))
  {
    hide Removed, Size, WalkSize;
    BranchSizes(n);
    var t := n.thenNode;
    if p < 2 || p >= 2 + WalkSize(t) {
      RemovedOutside(t, p - 2);
    }
    if n.otherwise.Some? && (p < 3 + WalkSize(t) || p >= WalkSize(n)) {
      RemovedOutside(n.otherwise.value, p - 3 - WalkSize(t));
    }
    if 0 < p < WalkSize(n) {
      RemovedBranch(n, p);
    } else {
      RemovedOutside(n, p);
    }
  }

  lemma RemovedBranch(n: Node, p: int)
    requires n.IfElse? && 0 < p < WalkSize(n)
    ensures var t := WalkSize(n.thenNode);
      Removed(n, p) == Some(
        if p == 1 || p == 2 + t then Collapse(n)
        else if p < 2 + t then Collapse(n).(thenNode := Filled(Removed(n.thenNode, p - 2)))
        else Collapse(n).(otherwise := Removed(n.otherwise.value, p - 3 - t)))
  {
    hide PutAt, Size, Sum, WalkSize, Seen, PlaceOf, Collapse;
    var t := WalkSize(n.thenNode);
    SeenPlace(n, p);
    DeletedInPlace(n, Seen(n, p));
    EmptySeq();
    CollapsedBranches(n);
    if 2 <= p < 2 + t {
      CollapsedBranches(n.(thenNode := Filled(EraseAt(n.thenNode, Seen(n.thenNode, p - 2)))));
    } else if p > 2 + t {
      CollapsedBranches(n.(otherwise := EraseAt(n.otherwise.value, Seen(n.otherwise.value, p - 3 - t))));
    }
  }

  lemma CollapsedBranches(n: Node)
    requires n.IfElse?
    ensures Collapse(n) == IfElse(n.cond, Collapse(n.thenNode),
      if n.otherwise.Some? then Some(Collapse(n.otherwise.value)) else None)
  {
  }

  method DeleteWorkflowAt(root: Node, pos: nat) returns (result: Node)
    ensures result == Filled(Deleted(root, Seen(root, pos)))
  {
    hide Deleted, Seen, Hit;
    var opt, found, counter := DeleteWorkflowRec(root, pos, 0);
    result := if opt.Some? then opt.value else Seq([]);
  }

  /** The walk has passed the node it deletes: the counter stands at `next`, beyond the target. */
  predicate Passed(target: nat, counter: nat, size: nat, next: nat) {
    if counter <= target < counter + size then next > target else next == counter + size
  }

  method DeleteWorkflowRec(node: Node, target: nat, counter: nat)
    returns (out: Option<Node>, found: bool, next: nat)
    ensures out == Removed(node, target - counter)
    ensures found == Hit(node, target - counter, true)
    ensures Passed(target, counter, WalkSize(node), next)
    decreases node
  {
    hide Removed, Sum, WalkSizes, RemovedEach, Size, Hit, HitEach;
    var pos := counter;
    found, next := false, counter + 1;
    if pos == target {
      RemovedRoot(node);
      HitOutside(node, 0, true);
      next := SkipWorkflowCount(node, next);
      return None, true, next;
    }
    match node
    case Seq(children) =>
      RemovedList(node, target - counter);
      HitList(node, target - counter, true);
      var kids;
      kids, found, next := DeleteWorkflowChildren(children, target, next);
      out := Some(if |kids| == 1 then kids[0] else Seq(kids));
    case Parallel(children) =>
      RemovedList(node, target - counter);
      HitList(node, target - counter, true);
      var kids;
      kids, found, next := DeleteWorkflowChildren(children, target, next);
      out := Some(Parallel(kids));
    case IfElse(cond, thenNode, otherwise) =>
      RemovedBranches(node, target - counter);
      HitBranches(node, target - counter, true);
      next := next + 1;
      var newThen;
      newThen, found, next := DeleteWorkflowRec(thenNode, target, next);
      var newOtherwise := None;
      if otherwise.Some? {
        next := next + 1;
        RemovedBehind(otherwise.value, target, counter + 3 + WalkSize(thenNode), next);
        var f;
        newOtherwise, f, next := DeleteWorkflowRec(otherwise.value, target, next);
      }
      out := Some(IfElse(cond, if newThen.Some? then newThen.value else Seq([]), newOtherwise));
    case While(cond, body, maxIter) =>
      RemovedBody(node, target - counter);
      HitBody(node, target - counter, true);
      var newBody;
      newBody, found, next := DeleteWorkflowRec(body, target, next);
      out := Some(While(cond, if newBody.Some? then newBody.value else Seq([]), maxIter));
    case Retry(body, times, backoff) =>
      RemovedBody(node, target - counter);
      HitBody(node, target - counter, true);
      var newBody;
      newBody, found, next := DeleteWorkflowRec(body, target, next);
      out := Some(Retry(if newBody.Some? then newBody.value else Seq([]), times, backoff));
    case Timeout(body, millis) =>
      RemovedBody(node, target - counter);
      HitBody(node, target - counter, true);
      var newBody;
      newBody, found, next := DeleteWorkflowRec(body, target, next);
      out := Some(Timeout(if newBody.Some? then newBody.value else Seq([]), millis));
    case _ =>
      RemovedLeaf(node, target - counter);
      out := Some(node);
  }

  lemma RemovedLeaf(n: Node, p: int)
    requires (n.Action? || n.Wait? || n.ForEach?) && p != 0
    ensures Removed(n, p) == Some(n) && !Hit(n, p, true)
  {
    RemovedOutside(n, p);
    HitOutside(n, p, true);
  }

  /** Once the target has been passed, where the counter stands makes no difference. */
  lemma RemovedBehind(n: Node, target: nat, expected: nat, counter: nat)
    requires counter == expected || (counter > target && expected > target)
    ensures Removed(n, target - counter) == Removed(n, target - expected)
    ensures Hit(n, target - counter, true) == Hit(n, target - expected, true)
  {
    if counter != expected {
      HitOutside(n, target - counter, true);
      HitOutside(n, target - expected, true);
      RemovedOutside(n, target - counter);
      RemovedOutside(n, target - expected);
    }
  }

  method DeleteWorkflowChildren(children: seq<Node>, target: nat, first: nat)
    returns (out: seq<Node>, found: bool, next: nat)
    ensures out == Kept(RemovedEach(children, target - first))
    ensures found <==> true in HitEach(children, target - first, true)
    ensures Passed(target, first, Sum(WalkSizes(children)), next)
    decreases children
  {
    hide Sum, Start, WalkSize, Removed, Kept, Hit;
    StartOfFirst(WalkSizes(children));
    ghost var opts := RemovedEach(children, target - first);
    ghost var hits := HitEach(children, target - first, true);
    out, found, next := [], false, first;
    for i := 0 to |children|
      invariant out == Kept(opts[..i])
      invariant found <==> true in hits[..i]
      invariant Passed(target, first, Start(WalkSizes(children), i), next)
    {
      RemovedBehind(children[i], target, first + Start(WalkSizes(children), i), next);
      var opt, f;
      opt, f, next := DeleteWorkflowRec(children[i], target, next);
      if opt.Some? {
        out := out + [opt.value];
      }
      found := found || f;
      assert hits[..i + 1] == hits[..i] + [f];
      KeptNext(opts, i);
      StartNext(WalkSizes(children), i);
    }
    assert opts[..|children|] == opts;
  }

  /** Advances the counter over all rows of a subtree whose first row has been counted, `ForEach` bodies included. */
  method SkipWorkflowCount(node: Node, counter: nat) returns (next: nat)
    ensures next == counter + Size(node) - 1
    decreases node
  {
    match node
    case Seq(children) =>
      next := SkipEach(children, counter);
    case Parallel(children) =>
      next := SkipEach(children, counter);
    case IfElse(_, thenNode, otherwise) =>
      next := SkipWorkflowCount(thenNode, counter + 2);
      if otherwise.Some? {
        next := SkipWorkflowCount(otherwise.value, next + 2);
      }
    case While(_, body, _) =>
      next := SkipWorkflowCount(body, counter + 1);
    case ForEach(_, _, body) =>
      next := SkipWorkflowCount(body, counter + 1);
    case Retry(body, _, _) =>
      next := SkipWorkflowCount(body, counter + 1);
    case Timeout(body, _) =>
      next := SkipWorkflowCount(body, counter + 1);
    case _ =>
      next := counter;
  }

  method SkipEach(children: seq<Node>, counter: nat) returns (next: nat)
    ensures next == counter + Sum(Sizes(children))
    decreases children
  {
    hide Sum, Start, Size;
    StartOfFirst(Sizes(children));
    next := counter;
    for i := 0 to |children|
      invariant next == counter + Start(Sizes(children), i)
    {
      next := next + 1;
      next := SkipWorkflowCount(children[i], next);
      StartNext(Sizes(children), i);
    }
  }

  /// Moving

  /** The loop that computes every child's first row; `workflow_subtree_size` is `Size`. */
  method ChildStarts(children: seq<Node>, first: nat) returns (starts: seq<nat>)
    ensures |starts| == |children|
    ensures forall i :: 0 <= i < |children| ==> starts[i] == first + Start(Sizes(children), i)
  {
    hide Sum, Start, Size;
    StartOfFirst(Sizes(children));
    var cur := first;
    starts := [];
    for i := 0 to |children|
      invariant |starts| == i && cur == first + Start(Sizes(children), i)
      invariant forall j :: 0 <= j < i ==> starts[j] == first + Start(Sizes(children), j)
    {
      starts := starts + [cur];
      cur := cur + Size(children[i]);
      StartNext(Sizes(children), i);
    }
  }

  method MoveWorkflowNode(root: Node, target: nat, up: bool) returns (result: Node)
    ensures result == MoveAt(root, target, up)
  {
    hide MoveAt;
    var found;
    result, found := TryMoveInSeq(root, target, up, 0);
  }

  /** The children of a list after a move at row `k`, counted from the first child. */
  function MovedKids(ns: seq<Node>, k: int, up: bool): seq<Node> {
    if k < 0 || k >= Sum(Sizes(ns)) then ns
    else
      var (i, off) := Locate(Sizes(ns), k);
      var j := Partner(i, |ns|, up);
      if off > 0 then ns[i := MoveAt(ns[i], off, up)]
      else if j.Some? then Swapped(ns, i, j.value) else ns
  }

  /** Row `k` is a child of a sequence or a parallel block: the move walk reports such a node as found, whether or not
      there is a sibling to trade places with. */
  predicate InList(n: Node, k: int) {
    && 0 < k < Size(n)
    && var (at, off) := PlaceOf(n, k);
      (at.Kid? && off == 0) || (!at.Label? && InList(Sub(n, at), off))
  }

  predicate AmongKids(ns: seq<Node>, k: int) {
    && 0 <= k < Sum(Sizes(ns))
    && var (i, off) := Locate(Sizes(ns), k);
      off == 0 || InList(ns[i], off)
  }

  lemma InListParts(n: Node, k: int)
    ensures n.Action? || n.Wait? ==> !InList(n, k)
    ensures IsList(n) ==> InList(n, k) == AmongKids(n.kids, k - 1)
    ensures n.IsWrapper() ==> InList(n, k) == InList(n.body, k - 1)
  {
    hide Sum, Locate, Start;
  }

  lemma InListBranches(n: Node, k: int)
    requires n.IfElse?
    ensures var (t, e) := (n.thenNode, n.otherwise);
      InList(n, k) <==>
        || (2 <= k < 2 + Size(t) && InList(t, k - 2))
        || (e.Some? && 0 <= k - 3 - Size(t) < Size(e.value) && InList(e.value, k - 3 - Size(t)))
  {
    hide Size, PlaceOf;
    BranchSizes(n);
    if n.otherwise.Some? {
      InListInside(n.otherwise.value, k - 3 - Size(n.thenNode));
    }
    if 0 < k < Size(n) {
      BranchPlace(n, k);
    }
  }

  lemma InListInside(n: Node, k: int)
    ensures InList(n, k) ==> 0 < k < Size(n)
  {
  }

  lemma MovedList(n: Node, k: int, up: bool)
    requires IsList(n)
    ensures MoveAt(n, k, up) == WithKids(n, MovedKids(n.kids, k - 1, up))
  {
    hide Sum, Locate, Start, Swapped;
    if 0 < k < Size(n) {
      var (i, off) := Locate(Sizes(n.kids), k - 1);
      assert PutKid(n.kids, i, Some(MoveAt(n.kids[i], off, up))) == n.kids[i := MoveAt(n.kids[i], off, up)];
    }
  }

  lemma MovedLeaf(n: Node, k: int, up: bool)
    requires n.Action? || n.Wait?
    ensures MoveAt(n, k, up) == n
  {
  }

  lemma MovedBody(n: Node, k: int, up: bool)
    requires n.IsWrapper()
    ensures MoveAt(n, k, up) == WithBody(n, MoveAt(n.body, k - 1, up))
  {
    hide Size, Sum, Locate;
    BodySize(n);
    if 0 < k < Size(n) {
      BodyPlace(n, k);
    } else {
      assert WithBody(n, n.body) == n;
    }
  }

  lemma BodyPlace(n: Node, k: nat)
    requires n.IsWrapper() && 0 < k < Size(n)
    ensures PlaceOf(n, k) == (Body, k - 1)
  {
  }

  lemma BodySize(n: Node)
    requires n.IsWrapper()
    ensures Size(n) == 1 + Size(n.body) && WalkSize(n) == if n.ForEach? then 1 else 1 + WalkSize(n.body)
  {
  }

  lemma MovedBranches(n: Node, k: int, up: bool)
    requires n.IfElse?
    ensures MoveAt(n, k, up) ==
      if 2 <= k < 2 + Size(n.thenNode) then n.(thenNode := MoveAt(n.thenNode, k - 2, up))
      else if n.otherwise.Some? && 0 <= k - 3 - Size(n.thenNode) < Size(n.otherwise.value)
      then n.(otherwise := Some(MoveAt(n.otherwise.value, k - 3 - Size(n.thenNode), up)))
      else n
  {
    hide Size, PlaceOf;
    BranchSizes(n);
    if 0 < k < Size(n) {
      BranchPlace(n, k);
    }
  }

  lemma BranchPlace(n: Node, k: nat)
    requires n.IfElse? && 0 < k < Size(n)
    ensures var t := Size(n.thenNode);
      PlaceOf(n, k) ==
        if k == 1 || k == 2 + t then (Label, 0) else if k < 2 + t then (Then, k - 2) else (Else, k - 3 - t)
  {
  }

  method TryMoveInSeq(node: Node, target: nat, up: bool, start: nat) returns (out: Node, found: bool)
    ensures out == MoveAt(node, target - start, up)
    ensures found == InList(node, target - start)
    decreases node
  {
    hide MoveAt, MovedKids, Sum, Sizes, InList, AmongKids;
    InListParts(node, target - start);
    if node.IsWrapper() {
      MovedBody(node, target - start, up);
    } else if node.Action? || node.Wait? {
      MovedLeaf(node, target - start, up);
    }
    match node
    case Seq(children) =>
      MovedList(node, target - start, up);
      var kids;
      kids, found := MoveInChildren(children, target, up, start + 1);
      out := Seq(kids);
    case Parallel(children) =>
      MovedList(node, target - start, up);
      var kids;
      kids, found := MoveInChildren(children, target, up, start + 1);
      out := Parallel(kids);
    case IfElse(cond, thenNode, otherwise) =>
      MovedBranches(node, target - start, up);
      InListBranches(node, target - start);
      var thenStart := start + 2;
      var thenSize := Size(thenNode);
      if thenStart <= target < thenStart + thenSize {
        var newThen;
        newThen, found := TryMoveInSeq(thenNode, target, up, thenStart);
        return IfElse(cond, newThen, otherwise), found;
      }
      if otherwise.Some? {
        var elseStart := thenStart + thenSize + 1;
        if elseStart <= target < elseStart + Size(otherwise.value) {
          var newElse;
          newElse, found := TryMoveInSeq(otherwise.value, target, up, elseStart);
          return IfElse(cond, thenNode, Some(newElse)), found;
        }
      }
      out, found := node, false;
    case While(cond, body, maxIter) =>
      var newBody;
      newBody, found := TryMoveInSeq(body, target, up, start + 1);
      out := While(cond, newBody, maxIter);
    case Retry(body, times, backoff) =>
      var newBody;
      newBody, found := TryMoveInSeq(body, target, up, start + 1);
      out := Retry(newBody, times, backoff);
    case Timeout(body, millis) =>
      var newBody;
      newBody, found := TryMoveInSeq(body, target, up, start + 1);
      out := Timeout(newBody, millis);
    case ForEach(items, varName, body) =>
      var newBody;
      newBody, found := TryMoveInSeq(body, target, up, start + 1);
      out := ForEach(items, varName, newBody);
    case _ =>
      out, found := node, false;
  }

  method MoveInChildren(children: seq<Node>, target: nat, up: bool, first: nat) returns (out: seq<Node>, found: bool)
    ensures out == MovedKids(children, target - first, up)
    ensures found == AmongKids(children, target - first)
    decreases children
  {
    hide Sum, Start, Locate, Size, MovedKids, MoveAt, InList, AmongKids;
    var starts := ChildStarts(children, first);
    for i := 0 to |children|
      invariant forall j :: 0 <= j < i ==> starts[j] != target
    {
      if starts[i] == target {
        MovedKid(children, i, 0, up);
        var j := Partner(i, |children|, up);
        return if j.Some? then Swapped(children, i, j.value) else children, true;
      }
    }
    for i := 0 to |children|
      invariant forall j :: 0 <= j < i ==> !(0 <= target - starts[j] < Size(children[j]))
    {
      if starts[i] <= target < starts[i] + Size(children[i]) {
        MovedKid(children, i, target - starts[i], up);
        var child;
        child, found := TryMoveInSeq(children[i], target, up, starts[i]);
        return children[i := child], found;
      }
    }
    MovedOutside(children, target - first, up);
    out, found := children, false;
  }

  lemma MovedKid(ns: seq<Node>, i: nat, off: nat, up: bool)
    requires i < |ns| && off < Size(ns[i])
    ensures AmongKids(ns, Start(Sizes(ns), i) + off) <==> off == 0 || InList(ns[i], off)
    ensures var (k, j) := (Start(Sizes(ns), i) + off, Partner(i, |ns|, up));
      MovedKids(ns, k, up) == if off > 0 then ns[i := MoveAt(ns[i], off, up)]
                              else if j.Some? then Swapped(ns, i, j.value) else ns
  {
    hide Sum, Start, Locate, Size, MoveAt;
    LocateUnique(Sizes(ns), Start(Sizes(ns), i) + off, i);
  }

  lemma MovedOutside(ns: seq<Node>, k: int, up: bool)
    requires forall j :: 0 <= j < |ns| ==> !(0 <= k - Start(Sizes(ns), j) < Size(ns[j]))
    ensures MovedKids(ns, k, up) == ns && !AmongKids(ns, k)
  {
    hide Sum, Start, Locate, Size, MoveAt;
    if 0 <= k < Sum(Sizes(ns)) {
      var (i, off) := Locate(Sizes(ns), k);
    }
  }

  /// Adding: an action, an empty conditional, or two empty parallel branches

  method AddWorkflowAction(root: Node, c: ActionConfig) returns (result: Node)
    ensures result == AddNode(root, Action(c))
  {
    match root
    case Seq(children) =>
      var longer := children + [Action(c)];
      result := Seq(longer);
    case _ =>
      result := Seq([root, Action(c)]);
  }

  method AddWorkflowIf(root: Node) returns (result: Node)
    ensures result == AddNode(root, IfElse(Always, Seq([]), None))
  {
    var ifNode := IfElse(Always, Seq([]), None);
    match root
    case Seq(children) =>
      var longer := children + [ifNode];
      result := Seq(longer);
    case _ =>
      result := Seq([root, ifNode]);
  }

  method AddWorkflowParallel(root: Node) returns (result: Node)
    ensures result == AddNode(root, Parallel([Seq([]), Seq([])]))
  {
    var parNode := Parallel([Seq([]), Seq([])]);
    match root
    case Seq(children) =>
      var longer := children + [parNode];
      result := Seq(longer);
    case _ =>
      result := Seq([root, parNode]);
  }
}
