// Consecutive blocks: the flat rows of a group are the rows of its children, one block after another.
module Blocks {
  import opened Domain

  function Sum(xs: seq<nat>): nat {
    if xs == [] then 0 else Sum(xs[..|xs| - 1]) + xs[|xs| - 1]
  }

  /** Where block `i` starts, relative to the first block. */
  function Start(sizes: seq<nat>, i: nat): nat
    requires i <= |sizes|
  {
    Sum(sizes[..i])
  }

  lemma StartNext(sizes: seq<nat>, i: nat)
    requires i < |sizes|
    ensures Start(sizes, i + 1) == Start(sizes, i) + sizes[i]
    ensures Start(sizes, |sizes|) == Sum(sizes)
  {
    assert sizes[..i + 1][..i] == sizes[..i];
    assert sizes[..|sizes|] == sizes;
  }

  lemma StartOfFirst(sizes: seq<nat>)
    ensures Start(sizes, 0) == 0 && Start(sizes, |sizes|) == Sum(sizes)
  {
    assert sizes[..0] == [] && sizes[..|sizes|] == sizes;
  }

  lemma SumOne(n: nat)
    ensures Sum([n]) == n
  {
    assert [n][..0] == [];
  }

  lemma {:induction false} StartMonotone(sizes: seq<nat>, i: nat, j: nat)
    requires i < j <= |sizes|
    ensures Start(sizes, i) + sizes[i] <= Start(sizes, j) <= Sum(sizes)
    decreases |sizes| - i
  {
    StartNext(sizes, i);
    if i + 1 < j {
      StartMonotone(sizes, i + 1, j);
    } else if j < |sizes| {
      StartMonotone(sizes, j, |sizes|);
    }
  }

  /** The block that owns row `k`, and the row's offset in it. */
  function Locate(sizes: seq<nat>, k: nat): (r: (nat, nat))
    requires k < Sum(sizes)
    ensures r.0 < |sizes| && r.1 < sizes[r.0] && k == Start(sizes, r.0) + r.1
  {
    var n := |sizes| - 1;
    if k >= Sum(sizes[..n]) then (n, k - Sum(sizes[..n]))
    else
      var (i, off) := Locate(sizes[..n], k);
      assert sizes[..n][..i] == sizes[..i];
      (i, off)
  }

  lemma LocateOnly(sizes: seq<nat>, k: int, i: nat, j: nat)
    requires i < |sizes| && 0 <= k - Start(sizes, i) < sizes[i] && j < |sizes| && j != i
    ensures !(0 <= k - Start(sizes, j) < sizes[j])
    ensures k < Sum(sizes)
  {
    StartMonotone(sizes, i, |sizes|);
    if j < i {
      StartMonotone(sizes, j, i);
    } else {
      StartMonotone(sizes, i, j);
    }
  }

  /** Only the block that owns row `k` sees it inside its own rows. */
  lemma Elsewhere(sizes: seq<nat>, k: int, j: nat)
    requires j < |sizes|
    requires k < 0 || k >= Sum(sizes) || Locate(sizes, k).0 != j
    ensures !(0 <= k - Start(sizes, j) < sizes[j])
  {
    StartMonotone(sizes, j, |sizes|);
    if 0 <= k < Sum(sizes) {
      LocateOnly(sizes, k, Locate(sizes, k).0, j);
    }
  }

  lemma LocateUnique(sizes: seq<nat>, k: nat, i: nat)
    requires i < |sizes| && 0 <= k - Start(sizes, i) < sizes[i]
    ensures k < Sum(sizes) && Locate(sizes, k) == (i, k - Start(sizes, i))
  {
    StartMonotone(sizes, i, |sizes|);
    StartNext(sizes, |sizes| - 1);
    if Locate(sizes, k).0 != i {
      LocateOnly(sizes, k, i, Locate(sizes, k).0);
    }
  }

  lemma {:induction false} SumUpdate(sizes: seq<nat>, i: nat, v: nat)
    requires i < |sizes|
    ensures Sum(sizes[i := v]) + sizes[i] == Sum(sizes) + v
  {
    var n := |sizes| - 1;
    if i < n {
      SumUpdate(sizes[..n], i, v);
      assert sizes[i := v][..n] == sizes[..n][i := v];
    } else {
      assert sizes[i := v][..n] == sizes[..n];
    }
  }

  /// Sequences of blocks

  function Concat<T>(blocks: seq<seq<T>>): seq<T> {
    if blocks == [] then [] else Concat(blocks[..|blocks| - 1]) + blocks[|blocks| - 1]
  }

  function Lens<T>(blocks: seq<seq<T>>): seq<nat> {
    seq(|blocks|, i requires 0 <= i < |blocks| => |blocks[i]|)
  }

  lemma {:induction false} ConcatLength<T>(blocks: seq<seq<T>>)
    ensures |Concat(blocks)| == Sum(Lens(blocks))
  {
    if blocks != [] {
      ConcatLength(blocks[..|blocks| - 1]);
      assert Lens(blocks)[..|blocks| - 1] == Lens(blocks[..|blocks| - 1]);
    }
  }

  lemma {:induction false} ConcatAppend<T>(a: seq<seq<T>>, b: seq<seq<T>>)
    ensures Concat(a + b) == Concat(a) + Concat(b)
  {
    if b == [] {
      assert a + b == a;
    } else {
      var n := |b| - 1;
      assert (a + b)[..|a + b| - 1] == a + b[..n];
      ConcatAppend(a, b[..n]);
    }
  }

  lemma ConcatOne<T>(block: seq<T>)
    ensures Concat([block]) == block
  {
    assert [block][..0] == [];
  }

  lemma ConcatSplit<T>(blocks: seq<seq<T>>, i: nat)
    requires i < |blocks|
    ensures Concat(blocks) == Concat(blocks[..i]) + blocks[i] + Concat(blocks[i + 1..])
    ensures |Concat(blocks[..i])| == Start(Lens(blocks), i)
  {
    assert blocks == blocks[..i] + [blocks[i]] + blocks[i + 1..];
    ConcatAppend(blocks[..i] + [blocks[i]], blocks[i + 1..]);
    ConcatAppend(blocks[..i], [blocks[i]]);
    ConcatOne(blocks[i]);
    ConcatLength(blocks[..i]);
    assert Lens(blocks)[..i] == Lens(blocks[..i]);
  }

  lemma ConcatNext<T>(blocks: seq<seq<T>>, i: nat)
    requires i < |blocks|
    ensures Concat(blocks[..i + 1]) == Concat(blocks[..i]) + blocks[i]
  {
    assert blocks[..i + 1][..i] == blocks[..i];
  }

  /** `xs` with the rows `[from, to)` replaced by `ys`. */
  function Spliced<T>(xs: seq<T>, from: nat, to: nat, ys: seq<T>): seq<T>
    requires from <= to <= |xs|
  {
    xs[..from] + ys + xs[to..]
  }

  /** `xs` with the adjacent blocks `[a, b)` and `[b, c)` exchanged. */
  function Exchanged<T>(xs: seq<T>, a: nat, b: nat, c: nat): seq<T>
    requires a <= b <= c <= |xs|
  {
    xs[..a] + xs[b..c] + xs[a..b] + xs[c..]
  }

  lemma SpliceOne<T>(rows: seq<T>, k: nat, row: T)
    requires k < |rows|
    ensures Spliced(rows, k, k + 1, [row]) == rows[k := row]
  {
  }

  lemma ExchangeMiddle<T>(pre: seq<T>, x: seq<T>, y: seq<T>, post: seq<T>)
    ensures Exchanged(pre + x + y + post, |pre|, |pre| + |x|, |pre| + |x| + |y|) == pre + y + x + post
  {
    var all := pre + x + y + post;
    assert all[..|pre|] == pre && all[|pre|..|pre| + |x|] == x;
    assert all[|pre| + |x|..|pre| + |x| + |y|] == y && all[|pre| + |x| + |y|..] == post;
  }

  function Swapped<T>(xs: seq<T>, i: nat, j: nat): (r: seq<T>)
    requires i < |xs| && j < |xs|
    ensures |r| == |xs|
  {
    xs[i := xs[j]][j := xs[i]]
  }

  lemma ConcatPair<T>(pre: seq<seq<T>>, x: seq<T>, y: seq<T>, post: seq<seq<T>>)
    ensures Concat(pre + [x, y] + post) == Concat(pre) + x + y + Concat(post)
  {
    ConcatAppend(pre + [x, y], post);
    assert pre + [x, y] == pre + [x] + [y];
    ConcatAppend(pre + [x], [y]);
    ConcatAppend(pre, [x]);
    ConcatOne(x);
    ConcatOne(y);
  }

  lemma SplitPair<T>(xs: seq<T>, i: nat)
    requires 0 < i < |xs|
    ensures xs == xs[..i - 1] + [xs[i - 1], xs[i]] + xs[i + 1..]
    ensures Swapped(xs, i, i - 1) == xs[..i - 1] + [xs[i], xs[i - 1]] + xs[i + 1..]
  {
  }

  lemma ConcatSwap<T>(blocks: seq<seq<T>>, i: nat)
    requires 0 < i < |blocks|
    ensures var (s, m, n) := (Start(Lens(blocks), i), |blocks[i - 1]|, |blocks[i]|);
      && m <= s && s + n <= |Concat(blocks)|
      && Start(Lens(blocks), i - 1) == s - m
      && Concat(Swapped(blocks, i, i - 1)) == Exchanged(Concat(blocks), s - m, s, s + n)
  {
    hide Concat, Swapped;
    var (x, y) := (blocks[i - 1], blocks[i]);
    var (p, q) := (Concat(blocks[..i - 1]), Concat(blocks[i + 1..]));
    SplitPair(blocks, i);
    assert Concat(blocks) == p + x + y + q by {
      ConcatPair(blocks[..i - 1], x, y, blocks[i + 1..]);
    }
    assert Concat(Swapped(blocks, i, i - 1)) == p + y + x + q by {
      ConcatPair(blocks[..i - 1], y, x, blocks[i + 1..]);
    }
    assert |p| == Start(Lens(blocks), i - 1) by {
      ConcatSplit(blocks, i - 1);
    }
    StartNext(Lens(blocks), i - 1);
    ExchangeMiddle(p, x, y, q);
  }

  /** A splice, or an exchange, inside one part of a longer list. */
  lemma SpliceInside<T>(pre: seq<T>, xs: seq<T>, post: seq<T>, from: nat, to: nat, ys: seq<T>)
    requires from <= to <= |xs|
    ensures Spliced(pre + xs + post, |pre| + from, |pre| + to, ys) == pre + Spliced(xs, from, to, ys) + post
  {
  }

  lemma ExchangeInside<T>(pre: seq<T>, xs: seq<T>, post: seq<T>, a: nat, b: nat, c: nat)
    requires a <= b <= c <= |xs|
    ensures Exchanged(pre + xs + post, |pre| + a, |pre| + b, |pre| + c) == pre + Exchanged(xs, a, b, c) + post
  {
    var (p, x, y, q) := (xs[..a], xs[a..b], xs[b..c], xs[c..]);
    assert xs == p + x + y + q;
    Regroup(pre, p, x, y, q, post);
    Regroup(pre, p, y, x, q, post);
    hide Exchanged;
    ExchangeMiddle(pre + p, x, y, q + post);
    ExchangeMiddle(p, x, y, q);
  }

  lemma Regroup<T>(pre: seq<T>, p: seq<T>, x: seq<T>, y: seq<T>, q: seq<T>, post: seq<T>)
    ensures pre + (p + x + y + q) + post == (pre + p) + x + y + (q + post)
  {
  }

  /// Optional elements

  function Kept<T>(opts: seq<Option<T>>): (kept: seq<T>)
    ensures |kept| <= |opts|
  {
    if opts == [] then []
    else Kept(opts[..|opts| - 1]) + OptSeq(opts[|opts| - 1])
  }

  function OptSeq<T>(opt: Option<T>): seq<T> {
    if opt.Some? then [opt.value] else []
  }

  lemma {:induction false} KeptAppend<T>(a: seq<Option<T>>, b: seq<Option<T>>)
    ensures Kept(a + b) == Kept(a) + Kept(b)
  {
    if b == [] {
      assert a + b == a;
    } else {
      var n := |b| - 1;
      assert (a + b)[..|a + b| - 1] == a + b[..n];
      KeptAppend(a, b[..n]);
    }
  }

  lemma KeptNext<T>(opts: seq<Option<T>>, i: nat)
    requires i < |opts|
    ensures Kept(opts[..i + 1]) == Kept(opts[..i]) + OptSeq(opts[i])
  {
    assert opts[..i + 1][..i] == opts[..i];
  }

  lemma TakeDrop<T>(xs: seq<T>, k: nat)
    requires k <= |xs|
    ensures xs[..k] + xs[k..] == xs
  {
  }

  lemma KeptAround<T>(opts: seq<Option<T>>, i: nat)
    requires i < |opts|
    ensures Kept(opts) == Kept(opts[..i]) + OptSeq(opts[i]) + Kept(opts[i + 1..])
  {
    hide *;
    KeptNext(opts, i);
    KeptAppend(opts[..i + 1], opts[i + 1..]);
    TakeDrop(opts, i + 1);
  }
}
