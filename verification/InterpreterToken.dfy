// What is threaded through one run: its steps, the global store, and the shared cancel token.
module InterpreterToken {
  import opened Interpreter

  /// Branches

  /** The two branches were forked together: up to some fork they agree, and there they part. */
  ghost predicate Siblings(p: Branch, q: Branch) {
    exists m :: 0 <= m < |p| && m < |q| && p[..m] == q[..m] && p[m].0 == q[m].0 && p[m].1 != q[m].1
  }

  /** The mark lies in branch `i` of a fork, or deeper. */
  predicate InBranch(m: Mark, here: Branch, fork: nat, i: nat) {
    here + [(fork, i)] <= m.at.branch
  }

  lemma ForkedApart(here: Branch, fork: nat, i: nat, j: nat, m: Mark, m': Mark)
    requires i != j && InBranch(m, here, fork, i) && InBranch(m', here, fork, j)
    ensures Siblings(m.at.branch, m'.at.branch)
  {
    var (p, q, n) := (m.at.branch, m'.at.branch, |here|);
    assert p[n] == (fork, i) && q[n] == (fork, j);
    assert p[..n] == here == q[..n];
  }

  /// Marks

  /** The token has been set, or was found set. */
  predicate Sets(m: Mark) {
    m.TokenSet? || (m.Checked? && m.cancelled)
  }

  /** The task went on: it found the token unset, or started an action. */
  predicate Goes(m: Mark) {
    m.Started? || (m.Checked? && !m.cancelled)
  }

  predicate SomeSets(trace: seq<Mark>) {
    exists i :: 0 <= i < |trace| && Sets(trace[i])
  }

  lemma SomeSetsBoth(a: seq<Mark>, b: seq<Mark>)
    ensures SomeSets(a + b) <==> SomeSets(a) || SomeSets(b)
  {
    if SomeSets(a) {
      var i :| 0 <= i < |a| && Sets(a[i]);
      assert Sets((a + b)[i]);
    }
    if SomeSets(b) {
      var i :| 0 <= i < |b| && Sets(b[i]);
      assert Sets((a + b)[|a| + i]);
    }
  }

  predicate NoneGoes(trace: seq<Mark>) {
    forall i :: 0 <= i < |trace| ==> !Goes(trace[i])
  }

  /** Nothing goes on behind a set token, but for branches forked together. */
  ghost predicate Heeded(trace: seq<Mark>) {
    forall i, j :: 0 <= i < j < |trace| && Sets(trace[i]) && Goes(trace[j]) ==>
      Siblings(trace[i].at.branch, trace[j].at.branch)
  }

  /** Steps grow along the trace and lie in the task's branch. */
  predicate Placed(here: Branch, from: nat, to: nat, trace: seq<Mark>) {
    && from <= to
    && (forall i :: 0 <= i < |trace| ==> here <= trace[i].at.branch && from <= trace[i].at.step < to)
    && (forall i, j :: 0 <= i < j < |trace| ==> trace[i].at.step < trace[j].at.step)
  }

  /** A check finds the token set only for a reason: someone else has set it by now, the task knew before, or an earlier
      mark says so. */
  ghost predicate Reasoned(s: Setup, known: bool, trace: seq<Mark>) {
    forall j :: 0 <= j < |trace| && trace[j].Checked? && trace[j].cancelled ==>
      known || s.answer(trace[j].at.step).cancelled || SomeSets(trace[..j])
  }

  lemma ReasonedBoth(s: Setup, known: bool, later: bool, a: seq<Mark>, b: seq<Mark>)
    requires Reasoned(s, known, a) && Reasoned(s, later, b) && (later ==> known || SomeSets(a))
    ensures Reasoned(s, known, a + b)
  {
    hide SomeSets;
    var c := a + b;
    forall j | 0 <= j < |c| && c[j].Checked? && c[j].cancelled
      ensures known || s.answer(c[j].at.step).cancelled || SomeSets(c[..j])
    {
      if j < |a| {
        assert c[..j] == a[..j];
      } else {
        assert c[..j] == a + b[..j - |a|];
        SomeSetsBoth(a, b[..j - |a|]);
      }
    }
  }

  /** The store that the started actions leave, in the order of the trace. */
  function Applied(s: Setup, trace: seq<Mark>, store: Store): Store {
    if trace == [] then store
    else
      var (before, last) := (Applied(s, trace[..|trace| - 1], store), trace[|trace| - 1]);
      if last.Started? then s.answer(last.at.step).effect(before) else before
  }

  lemma {:induction false} AppliedBoth(s: Setup, a: seq<Mark>, b: seq<Mark>, store: Store)
    ensures Applied(s, a + b, store) == Applied(s, b, Applied(s, a, store))
  {
    if b == [] {
      assert a + b == a;
    } else {
      assert (a + b)[..|a + b| - 1] == a + b[..|b| - 1];
      AppliedBoth(s, a, b[..|b| - 1], store);
    }
  }

  /** What a run of a task that started as `t` keeps: its store is what its actions make of it; it knows at its end
      that the token is set exactly if it knew before or has a mark that says so, and behind such a mark, or
      knowledge, nothing goes on. */
  ghost predicate Threaded(s: Setup, t: Task, r: Run) {
    && r.after.here == t.here
    && Placed(t.here, t.next, r.after.next, r.trace)
    && r.after.store == Applied(s, r.trace, t.store)
    && (r.after.token <==> t.token || SomeSets(r.trace))
    && (t.token ==> NoneGoes(r.trace))
    && Heeded(r.trace)
    && Reasoned(s, t.token, r.trace)
  }

  lemma PlacedBoth(here: Branch, from: nat, mid: nat, to: nat, a: seq<Mark>, b: seq<Mark>)
    requires Placed(here, from, mid, a) && Placed(here, mid, to, b)
    ensures Placed(here, from, to, a + b)
  {
  }

  lemma HeededBoth(a: seq<Mark>, b: seq<Mark>)
    requires Heeded(a) && Heeded(b)
    requires forall i, j :: 0 <= i < |a| && 0 <= j < |b| && Sets(a[i]) && Goes(b[j]) ==>
               Siblings(a[i].at.branch, b[j].at.branch)
    ensures Heeded(a + b)
  {
    hide Siblings, Sets, Goes;
    var c := a + b;
    forall i, j | 0 <= i < j < |c| && Sets(c[i]) && Goes(c[j])
      ensures Siblings(c[i].at.branch, c[j].at.branch)
    {
      assert c[i] == if i < |a| then a[i] else b[i - |a|];
      assert c[j] == if j < |a| then a[j] else b[j - |a|];
    }
  }

  /** One run after another. */
  lemma ThreadedThen(s: Setup, t: Task, a: Run, r: Run)
    requires Threaded(s, t, a) && Threaded(s, a.after, r)
    ensures Threaded(s, t, a.Then(r))
  {
    hide Siblings, Sets, Goes, Placed;
    PlacedBoth(t.here, t.next, a.after.next, r.after.next, a.trace, r.trace);
    SomeSetsBoth(a.trace, r.trace);
    AppliedBoth(s, a.trace, r.trace, t.store);
    assert a.after.token ==> NoneGoes(r.trace);
    if !SomeSets(a.trace) {
      assert forall i :: 0 <= i < |a.trace| ==> !Sets(a.trace[i]);
    }
    HeededBoth(a.trace, r.trace);
    ReasonedBoth(s, t.token, a.after.token, a.trace, r.trace);
    assert t.token ==> NoneGoes(a.trace + r.trace);
  }

  /** A single step with at most one mark. */
  lemma ThreadedStep(s: Setup, t: Task, r: Run)
    requires r.after.here == t.here && t.next <= r.after.next && |r.trace| <= 1
    requires r.trace != [] ==> r.trace[0].at.branch == t.here && t.next <= r.trace[0].at.step < r.after.next
    requires r.after.token <==> t.token || (r.trace != [] && Sets(r.trace[0]))
    requires t.token && r.trace != [] ==> !Goes(r.trace[0])
    requires r.trace != [] && r.trace[0].Checked? && r.trace[0].cancelled ==>
               t.token || s.answer(r.trace[0].at.step).cancelled
    requires r.after.store
          == if r.trace != [] && r.trace[0].Started? then s.answer(r.trace[0].at.step).effect(t.store) else t.store
    ensures Threaded(s, t, r)
  {
    if r.trace != [] {
      assert r.trace[..0] == [];
    }
  }

  lemma CheckThreaded(s: Setup, t: Task)
    ensures Threaded(s, t, Check(s, t))
  {
    ThreadedStep(s, t, Check(s, t));
  }

  lemma SameMarks(s: Setup, t: Task, r: Run, flow: Flow, events: seq<EngineEvent>)
    requires Threaded(s, t, r)
    ensures Threaded(s, t, r.(flow := flow, events := events))
  {
  }

  /// Joining branches

  /** Whatever says, since the fork, that the token is set lies in one of the branches before `i`. */
  ghost predicate FromBranches(trace: seq<Mark>, here: Branch, fork: nat, i: nat) {
    forall x :: 0 <= x < |trace| && Sets(trace[x]) ==> exists j :: 0 <= j < i && InBranch(trace[x], here, fork, j)
  }

  lemma JoinThreaded(s: Setup, t: Task, parent: Task, fork: nat, i: nat, acc: Run, r: Run)
    requires Threaded(s, t, acc) && parent.here == t.here && !t.token && !parent.token
    requires FromBranches(acc.trace, t.here, fork, i)
    requires Threaded(s, Forked(parent, fork, i, acc.after), r)
    ensures Threaded(s, t, WithBranch(parent, acc, r))
    ensures FromBranches(WithBranch(parent, acc, r).trace, t.here, fork, i + 1)
  {
    hide Siblings, Sets, Goes;
    var (a, b, mine) := (acc.trace, r.trace, t.here + [(fork, i)]);
    SomeSetsBoth(a, b);
    AppliedBoth(s, a, b, t.store);
    assert forall y :: 0 <= y < |b| ==> InBranch(b[y], t.here, fork, i);
    forall x, y | 0 <= x < |a| && 0 <= y < |b| && Sets(a[x]) && Goes(b[y])
      ensures Siblings(a[x].at.branch, b[y].at.branch)
    {
      var j :| 0 <= j < i && InBranch(a[x], t.here, fork, j);
      ForkedApart(t.here, fork, j, i, a[x], b[y]);
    }
    HeededBoth(a, b);
    ReasonedBoth(s, false, false, a, b);
    JoinPlaced(t.here, mine, t.next, acc.after.next, r.after.next, a, b);
    JoinFrom(a, b, t.here, fork, i);
  }

  lemma JoinPlaced(here: Branch, mine: Branch, from: nat, mid: nat, to: nat, a: seq<Mark>, b: seq<Mark>)
    requires Placed(here, from, mid, a) && Placed(mine, mid, to, b) && here <= mine
    ensures Placed(here, from, to, a + b)
  {
    assert Placed(here, mid, to, b);
    PlacedBoth(here, from, mid, to, a, b);
  }

  lemma JoinFrom(a: seq<Mark>, b: seq<Mark>, here: Branch, fork: nat, i: nat)
    requires FromBranches(a, here, fork, i)
    requires forall y :: 0 <= y < |b| ==> InBranch(b[y], here, fork, i)
    ensures FromBranches(a + b, here, fork, i + 1)
  {
    var c := a + b;
    forall x | 0 <= x < |c| && Sets(c[x])
      ensures exists j :: 0 <= j < i + 1 && InBranch(c[x], here, fork, j)
    {
      if x < |a| {
        assert c[x] == a[x];
        var j :| 0 <= j < i && InBranch(a[x], here, fork, j);
        assert InBranch(c[x], here, fork, j);
      } else {
        assert InBranch(c[x], here, fork, i);
      }
    }
  }
}
