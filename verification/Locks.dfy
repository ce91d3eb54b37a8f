// Resource locks (crates/core/src/context.rs) and how concurrent actions take them (crates/core/src/workflow.rs).
module Locks {

  type Resource = string

  /// The pool

  class Mutex {
    constructor () {}
  }

  /** One mutex per resource name, made on first request. */
  class ResourcePool {
    var locks: map<Resource, Mutex>

    /** Different names have different mutexes. */
    ghost predicate Valid()
      reads this
    {
      forall a, b :: a in locks && b in locks && locks[a] == locks[b] ==> a == b
    }

    constructor ()
      ensures Valid() && locks == map[]
    {
      locks := map[];
    }

    /** The mutex of `id`: the same one at every request, shared with no other name. */
    method GetLock(id: Resource) returns (lock: Mutex)
      requires Valid()
      modifies this
      ensures Valid() && id in locks && locks[id] == lock
      ensures locks.Keys == old(locks).Keys + {id}
      ensures forall other :: other in old(locks) ==> locks[other] == old(locks)[other]
      ensures id !in old(locks) ==> fresh(lock)
    {
      if id !in locks {
        var made := new Mutex();
        locks := locks[id := made];
      }
      lock := locks[id];
    }
  }

  /// Tasks that share a pool

  type Tid = nat

  /** Where a task stands with the action it is about to run, whose resources are `list` in the order of acquisition. */
  datatype Phase =
    | Idle
    | Acquiring(list: seq<Resource>, got: nat)
    | Executing(list: seq<Resource>)

  datatype Sys = Sys(phase: map<Tid, Phase>, holder: map<Resource, Tid>)

  const INIT := Sys(map[], map[])

  function PhaseOf(s: Sys, t: Tid): Phase {
    if t in s.phase then s.phase[t] else Idle
  }

  datatype Step =
    | Begin(t: Tid, list: seq<Resource>)
    | Acquire(t: Tid)
    | Execute(t: Tid)
    | Finish(t: Tid)
    | GiveUp(t: Tid)

  /** A task takes the locks of its action one by one, waiting for each; it runs the action when it has them all, and
      gives them back when the action ends, or when the task is dropped while it waits or runs. */
  predicate Enabled(s: Sys, step: Step) {
    match step
    case Begin(t, _) => PhaseOf(s, t).Idle?
    case Acquire(t) =>
      var p := PhaseOf(s, t);
      p.Acquiring? && p.got < |p.list| && p.list[p.got] !in s.holder
    case Execute(t) => PhaseOf(s, t).Acquiring? && PhaseOf(s, t).got == |PhaseOf(s, t).list|
    case Finish(t) => PhaseOf(s, t).Executing?
    case GiveUp(t) => !PhaseOf(s, t).Idle?
  }

  function Released(s: Sys, t: Tid): Sys {
    Sys(s.phase[t := Idle], map r | r in s.holder && s.holder[r] != t :: s.holder[r])
  }

  function Apply(s: Sys, step: Step): Sys {
    if !Enabled(s, step) then s else
    match step
    case Begin(t, list) => s.(phase := s.phase[t := Acquiring(list, 0)])
    case Acquire(t) =>
      var p := s.phase[t];
      Sys(s.phase[t := Acquiring(p.list, p.got + 1)], s.holder[p.list[p.got] := t])
    case Execute(t) => s.(phase := s.phase[t := Executing(s.phase[t].list)])
    case Finish(t) => Released(s, t)
    case GiveUp(t) => Released(s, t)
  }

  /** The state after an arbitrary interleaving. */
  function After(steps: seq<Step>): Sys {
    if steps == [] then INIT else Apply(After(steps[..|steps| - 1]), steps[|steps| - 1])
  }

  /// Mutual exclusion

  /** The locks a task has taken. */
  function Taken(p: Phase): seq<Resource> {
    match p
    case Idle => []
    case Acquiring(list, got) => if got <= |list| then list[..got] else list
    case Executing(list) => list
  }

  predicate Held(s: Sys) {
    && (forall t <- s.phase :: s.phase[t].Acquiring? ==> s.phase[t].got <= |s.phase[t].list|)
    && (forall t <- s.phase, r <- Taken(s.phase[t]) :: r in s.holder && s.holder[r] == t)
    && (forall r <- s.holder :: s.holder[r] in s.phase && r in Taken(s.phase[s.holder[r]]))
  }

  lemma ReleasedHeld(s: Sys, t: Tid)
    requires Held(s) && t in s.phase
    ensures Held(Released(s, t))
  {
  }

  lemma AcquiredHeld(s: Sys, t: Tid)
    requires Held(s) && Enabled(s, Acquire(t))
    ensures Held(Apply(s, Acquire(t)))
  {
    var p := s.phase[t];
    var s' := Apply(s, Acquire(t));
    assert Taken(s'.phase[t]) == Taken(p) + [p.list[p.got]];
  }

  lemma {:induction false} HeldAfter(steps: seq<Step>)
    ensures Held(After(steps))
  {
    if steps != [] {
      var (s, step) := (After(steps[..|steps| - 1]), steps[|steps| - 1]);
      HeldAfter(steps[..|steps| - 1]);
      if Enabled(s, step) {
        match step
        case Begin(t, list) =>
        case Acquire(t) => AcquiredHeld(s, t);
        case Execute(t) => assert Taken(Executing(s.phase[t].list)) == Taken(s.phase[t]);
        case Finish(t) => ReleasedHeld(s, t);
        case GiveUp(t) => ReleasedHeld(s, t);
      }
    }
  }

  /** In every interleaving, two actions that name the same resource never execute at once. */
  lemma MutualExclusion(steps: seq<Step>, t: Tid, u: Tid, r: Resource)
    requires t != u && PhaseOf(After(steps), t).Executing? && PhaseOf(After(steps), u).Executing?
    requires r in PhaseOf(After(steps), t).list
    ensures r !in PhaseOf(After(steps), u).list
  {
    HeldAfter(steps);
    var s := After(steps);
    assert r in Taken(s.phase[t]) && s.holder[r] == t;
    assert forall x <- Taken(s.phase[u]) :: s.holder[x] == u;
  }

  /** A task that waits holds exactly the first of its action's locks, in the order of the list; one that executes holds
      all of them, and one that does neither holds none. */
  lemma LocksAreTakenInOrder(steps: seq<Step>, t: Tid, r: Resource)
    ensures var (s, p) := (After(steps), PhaseOf(After(steps), t));
      var mine := r in s.holder && s.holder[r] == t;
      match p
      case Idle => !mine
      case Acquiring(list, got) => got <= |list| && (mine <==> r in list[..got])
      case Executing(list) => mine <==> r in list
  {
    HeldAfter(steps);
  }

  /// Deadlock

  /** Every list is free of repeats and follows one order of all resources. */
  predicate Ordered(list: seq<Resource>, rank: Resource -> nat) {
    forall i, j :: 0 <= i < j < |list| ==> rank(list[i]) < rank(list[j])
  }

  predicate AllOrdered(steps: seq<Step>, rank: Resource -> nat) {
    forall step <- steps :: step.Begin? ==> Ordered(step.list, rank)
  }

  predicate ListsOrdered(s: Sys, rank: Resource -> nat) {
    forall t <- s.phase :: !s.phase[t].Idle? ==> Ordered(s.phase[t].list, rank)
  }

  lemma {:induction false} OrderedAfter(steps: seq<Step>, rank: Resource -> nat)
    requires AllOrdered(steps, rank)
    ensures ListsOrdered(After(steps), rank)
  {
    if steps != [] {
      assert forall step <- steps[..|steps| - 1] :: step in steps;
      OrderedAfter(steps[..|steps| - 1], rank);
      assert steps[|steps| - 1] in steps;
    }
  }

  predicate Waits(s: Sys, t: Tid) {
    && t in s.phase && s.phase[t].Acquiring? && s.phase[t].got < |s.phase[t].list|
    && s.phase[t].list[s.phase[t].got] in s.holder
  }

  /** A step of a task that is neither new nor dropped. */
  predicate Progress(step: Step) {
    step.Acquire? || step.Execute? || step.Finish?
  }

  /** Following holders from a waiting task meets ever higher ranks, so it ends at a task that can step. */
  lemma {:induction false} ChainEnds(s: Sys, t: Tid, rank: Resource -> nat, top: nat) returns (step: Step)
    requires Held(s) && ListsOrdered(s, rank) && Waits(s, t)
    requires forall r <- s.holder :: rank(r) <= top
    ensures Progress(step) && Enabled(s, step)
    decreases top - rank(s.phase[t].list[s.phase[t].got])
  {
    var wanted := s.phase[t].list[s.phase[t].got];
    var h := s.holder[wanted];
    var p := s.phase[h];
    match p
    case Executing(_) => step := Finish(h);
    case Acquiring(list, got) =>
      if got == |list| {
        step := Execute(h);
      } else if list[got] !in s.holder {
        step := Acquire(h);
      } else {
        step := ChainEnds(s, h, rank, top);
      }
  }

  lemma {:induction false} HighestRank(rs: set<Resource>, rank: Resource -> nat) returns (top: nat)
    ensures forall r <- rs :: rank(r) <= top
  {
    if rs == {} {
      top := 0;
    } else {
      var r :| r in rs;
      var rest := HighestRank(rs - {r}, rank);
      top := if rank(r) > rest then rank(r) else rest;
    }
  }

  /** When all actions list their resources without repeats in one global order, then in every reachable state with an
      unfinished task some task can step. */
  lemma DeadlockFree(steps: seq<Step>, rank: Resource -> nat, t: Tid)
    requires AllOrdered(steps, rank) && !PhaseOf(After(steps), t).Idle?
    ensures exists step :: Progress(step) && Enabled(After(steps), step)
  {
    var s := After(steps);
    HeldAfter(steps);
    OrderedAfter(steps, rank);
    if Waits(s, t) {
      var top := HighestRank(s.holder.Keys, rank);
      var step := ChainEnds(s, t, rank, top);
    } else {
      var p := s.phase[t];
      var step := if p.Executing? then Finish(t) else if p.got == |p.list| then Execute(t) else Acquire(t);
      assert Progress(step) && Enabled(s, step);
    }
  }

  lemma AfterNext(steps: seq<Step>, step: Step)
    ensures After(steps + [step]) == Apply(After(steps), step)
    ensures After([]) == INIT
  {
    assert (steps + [step])[..|steps|] == steps;
  }

  /** Without the order two tasks can wait for each other for good. */
  lemma OppositeOrdersDeadlock(a: Resource, b: Resource)
    requires a != b
    ensures var s := After([] + [Begin(0, [a, b])] + [Begin(1, [b, a])] + [Acquire(0)] + [Acquire(1)]);
      && !PhaseOf(s, 0).Idle? && !PhaseOf(s, 1).Idle?
      && forall step :: Progress(step) ==> !Enabled(s, step)
  {
    AfterNext([], Begin(0, [a, b]));
    AfterNext([] + [Begin(0, [a, b])], Begin(1, [b, a]));
    AfterNext([] + [Begin(0, [a, b])] + [Begin(1, [b, a])], Acquire(0));
    AfterNext([] + [Begin(0, [a, b])] + [Begin(1, [b, a])] + [Acquire(0)], Acquire(1));
  }

  /** With a repeat one task waits for itself. */
  lemma RepeatDeadlocks(a: Resource)
    ensures var s := After([] + [Begin(0, [a, a])] + [Acquire(0)]);
      !PhaseOf(s, 0).Idle? && forall step :: Progress(step) ==> !Enabled(s, step)
  {
    AfterNext([], Begin(0, [a, a]));
    AfterNext([] + [Begin(0, [a, a])], Acquire(0));
  }

  /** A task that gives up, waiting or executing, unblocks exactly the tasks that wait for what it had taken: any other
      task waits afterwards exactly if it waited before, and for something else. */
  lemma GivingUpUnblocks(steps: seq<Step>, t: Tid, u: Tid)
    requires !PhaseOf(After(steps), t).Idle? && u != t
    requires var p := PhaseOf(After(steps), u); p.Acquiring? && p.got < |p.list|
    ensures var (s, s') := (After(steps), After(steps + [GiveUp(t)]));
      var wanted := PhaseOf(s, u).list[PhaseOf(s, u).got];
      && PhaseOf(s', u) == PhaseOf(s, u)
      && (Waits(s', u) <==> Waits(s, u) && wanted !in Taken(PhaseOf(s, t)))
      && (Enabled(s', Acquire(u)) <==> !Waits(s', u))
  {
    AfterNext(steps, GiveUp(t));
    HeldAfter(steps);
  }

  /** So giving up ends a deadlock: in the one above, when either task is dropped, the other can step. */
  lemma GivingUpEndsDeadlock(a: Resource, b: Resource)
    requires a != b
    ensures var steps := [] + [Begin(0, [a, b])] + [Begin(1, [b, a])] + [Acquire(0)] + [Acquire(1)];
      Enabled(After(steps + [GiveUp(0)]), Acquire(1)) && Enabled(After(steps + [GiveUp(1)]), Acquire(0))
  {
    var steps := [] + [Begin(0, [a, b])] + [Begin(1, [b, a])] + [Acquire(0)];
    AfterNext([], Begin(0, [a, b]));
    AfterNext([] + [Begin(0, [a, b])], Begin(1, [b, a]));
    AfterNext([] + [Begin(0, [a, b])] + [Begin(1, [b, a])], Acquire(0));
    AfterNext(steps, Acquire(1));
    var s := After(steps + [Acquire(1)]);
    assert PhaseOf(s, 0) == Acquiring([a, b], 1) && PhaseOf(s, 1) == Acquiring([b, a], 1);
    GivingUpUnblocks(steps + [Acquire(1)], 0, 1);
    GivingUpUnblocks(steps + [Acquire(1)], 1, 0);
    assert b in Taken(PhaseOf(s, 1)) by { assert [b, a][..1] == [b]; }
    assert a in Taken(PhaseOf(s, 0)) by { assert [a, b][..1] == [a]; }
  }
}
