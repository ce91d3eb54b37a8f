// The event router (crates/core/src/router.rs): an index from event kinds to candidate macros, kept by the commands
// of the engine loop (crates/core/src/engine_loop.rs), against a scan over all macros.
module Router {
  import opened Domain
  import opened ConstraintMeaning
  import opened ConstraintTruth
  import opened Triggers

  /** For each kind of event the macros that may fire, an id once per push. */
  type Index = map<EventKind, seq<MacroId>>

  datatype Routes = Routes(index: Index, macros: map<MacroId, Macro>)

  const EMPTY := Routes(map[], map[])

  function EventKindOf(t: TriggerConfig): EventKind {
    match t
    case Hotkey(_) => HotkeyEvent
    case WindowFocus(_, _) => WindowFocusEvent
    case ProcessTrigger(_, _) => ProcessEvent
    case Schedule(_) => TimerEvent
    case FileChange(_, _) => FileChangeEvent
    case Manual => ManualEvent
    case CustomTrigger(_, _) => CustomEvent
  }

  function Bucket(index: Index, kind: EventKind): seq<MacroId> {
    if kind in index then index[kind] else []
  }

  /// Commands, as functions of the routes

  function PushOne(index: Index, id: MacroId, kind: EventKind): Index {
    index[kind := Bucket(index, kind) + [id]]
  }

  function Pushed(index: Index, id: MacroId, ts: seq<TriggerConfig>): Index {
    if ts == [] then index
    else PushOne(Pushed(index, id, ts[..|ts| - 1]), id, EventKindOf(ts[|ts| - 1]))
  }

  function Without(ids: seq<MacroId>, id: MacroId): seq<MacroId> {
    if ids == [] then []
    else Without(ids[..|ids| - 1], id) + if ids[|ids| - 1] == id then [] else [ids[|ids| - 1]]
  }

  lemma {:induction false} WithoutNone(ids: seq<MacroId>, id: MacroId)
    ensures multiset(Without(ids, id)) == multiset(ids)[id := 0]
  {
    if ids != [] {
      WithoutNone(ids[..|ids| - 1], id);
      assert ids == ids[..|ids| - 1] + [ids[|ids| - 1]];
    }
  }

  function Dropped(index: Index, id: MacroId, ts: seq<TriggerConfig>): Index {
    if ts == [] then index
    else
      var (rest, kind) := (Dropped(index, id, ts[..|ts| - 1]), EventKindOf(ts[|ts| - 1]));
      if kind in rest then rest[kind := Without(rest[kind], id)] else rest
  }

  function Added(r: Routes, m: Macro): Routes {
    Routes(Pushed(r.index, m.id, m.triggers), r.macros[m.id := m])
  }

  function Removed(r: Routes, id: MacroId): Routes {
    if id in r.macros then Routes(Dropped(r.index, id, r.macros[id].triggers), r.macros - {id}) else r
  }

  function Switched(r: Routes, id: MacroId, enabled: bool): Routes {
    if id in r.macros then r.(macros := r.macros[id := r.macros[id].(enabled := enabled)]) else r
  }

  datatype Command =
    | AddMacro(m: Macro)
    | UpdateMacro(m: Macro)
    | DeleteMacro(id: MacroId)
    | SetEnabled(id: MacroId, enabled: bool)

  function Handled(r: Routes, c: Command): Routes {
    match c
    case AddMacro(m) => Added(r, m)
    case UpdateMacro(m) => Added(Removed(r, m.id), m)
    case DeleteMacro(id) => Removed(r, id)
    case SetEnabled(id, enabled) => Switched(r, id, enabled)
  }

  /** The routes after a history of commands. */
  function Replayed(r: Routes, cs: seq<Command>): Routes {
    if cs == [] then r else Handled(Replayed(r, cs[..|cs| - 1]), cs[|cs| - 1])
  }

  /// Buckets after a command

  /** How many triggers of one kind a list holds. */
  function Count(ts: seq<TriggerConfig>, kind: EventKind): nat {
    if ts == [] then 0
    else Count(ts[..|ts| - 1], kind) + if EventKindOf(ts[|ts| - 1]) == kind then 1 else 0
  }

  lemma {:induction false} CountPositive(ts: seq<TriggerConfig>, t: TriggerConfig)
    requires t in ts
    ensures Count(ts, EventKindOf(t)) > 0
  {
    if ts[|ts| - 1] != t {
      assert t in ts[..|ts| - 1];
      CountPositive(ts[..|ts| - 1], t);
    }
  }

  lemma PushOneBucket(index: Index, id: MacroId, to: EventKind, kind: EventKind)
    ensures Bucket(PushOne(index, id, to), kind) == Bucket(index, kind) + if to == kind then [id] else []
  {
  }

  lemma {:induction false} PushedBucket(index: Index, id: MacroId, ts: seq<TriggerConfig>, kind: EventKind)
    ensures var (was, now) := (multiset(Bucket(index, kind)), multiset(Bucket(Pushed(index, id, ts), kind)));
      now == was[id := was[id] + Count(ts, kind)]
  {
    hide Bucket, PushOne, EventKindOf;
    if ts != [] {
      PushedBucket(index, id, ts[..|ts| - 1], kind);
      PushOneBucket(Pushed(index, id, ts[..|ts| - 1]), id, EventKindOf(ts[|ts| - 1]), kind);
    }
  }

  lemma {:induction false} DroppedBucket(index: Index, id: MacroId, ts: seq<TriggerConfig>, kind: EventKind)
    ensures var (was, now) := (multiset(Bucket(index, kind)), multiset(Bucket(Dropped(index, id, ts), kind)));
      now == if Count(ts, kind) > 0 then was[id := 0] else was
  {
    if ts != [] {
      DroppedBucket(index, id, ts[..|ts| - 1], kind);
      WithoutNone(Bucket(Dropped(index, id, ts[..|ts| - 1]), kind), id);
    }
  }

  /// The index misses no candidate, whatever the history

  predicate Indexed(r: Routes) {
    forall id <- r.macros ::
      && r.macros[id].id == id
      && forall t <- r.macros[id].triggers :: id in Bucket(r.index, EventKindOf(t))
  }

  lemma AddedIndexed(r: Routes, m: Macro)
    requires Indexed(r)
    ensures Indexed(Added(r, m))
  {
    var r' := Added(r, m);
    forall id, t | id in r'.macros && t in r'.macros[id].triggers
      ensures id in Bucket(r'.index, EventKindOf(t))
    {
      PushedBucket(r.index, m.id, m.triggers, EventKindOf(t));
      assert id in multiset(Bucket(r'.index, EventKindOf(t))) by {
        if id == m.id {
          CountPositive(m.triggers, t);
        } else {
          assert id in multiset(Bucket(r.index, EventKindOf(t)));
        }
      }
    }
  }

  lemma RemovedIndexed(r: Routes, id: MacroId)
    requires Indexed(r)
    ensures Indexed(Removed(r, id))
  {
    if id in r.macros {
      var r' := Removed(r, id);
      forall other, t | other in r'.macros && t in r'.macros[other].triggers
        ensures other in Bucket(r'.index, EventKindOf(t))
      {
        DroppedBucket(r.index, id, r.macros[id].triggers, EventKindOf(t));
        assert other in multiset(Bucket(r.index, EventKindOf(t)));
        assert other in multiset(Bucket(r'.index, EventKindOf(t)));
      }
    }
  }

  lemma {:induction false} ReplayedIndexed(r: Routes, cs: seq<Command>)
    requires Indexed(r)
    ensures Indexed(Replayed(r, cs))
  {
    if cs != [] {
      var (before, c) := (Replayed(r, cs[..|cs| - 1]), cs[|cs| - 1]);
      ReplayedIndexed(r, cs[..|cs| - 1]);
      match c
      case AddMacro(m) => AddedIndexed(before, m);
      case UpdateMacro(m) =>
        RemovedIndexed(before, m.id);
        AddedIndexed(Removed(before, m.id), m);
      case DeleteMacro(id) => RemovedIndexed(before, id);
      case SetEnabled(_, _) =>
    }
  }

  /// Dispatching one event

  /** What the registry answers while one event is dispatched: whether a trigger builds and matches, and what each leaf
      of a macro's constraints yields. */
  datatype Registry = Registry(matches: (TriggerConfig, Event) -> bool, leaf: (MacroId, ConstraintConfig) -> Verdict)

  /** Every trigger matches only events of the kind it is written for. */
  ghost predicate OwnKind(reg: Registry) {
    forall t, e :: reg.matches(t, e) ==> Fits(t, e.kind)
  }

  /** The specs that ship do. */
  lemma ShippedOwnKind(f: Folding, leaf: (MacroId, ConstraintConfig) -> Verdict)
    ensures OwnKind(Registry((t, e) => TriggerMatches(f, t, e), leaf))
  {
    var reg := Registry((t, e) => TriggerMatches(f, t, e), leaf);
    forall t, e | reg.matches(t, e)
      ensures Fits(t, e.kind)
    {
      SpecsKeepTheirKind(f, t, e);
    }
  }

  /** The index files a trigger under the one kind it is written for. */
  lemma FiledWhereItFits(t: TriggerConfig, kind: EventKind)
    ensures EventKindOf(t) == kind <==> Fits(t, kind)
  {
  }

  predicate Matched(m: Macro, e: Event, reg: Registry) {
    m.enabled && exists t <- m.triggers :: reg.matches(t, e)
  }

  function Judged(m: Macro, reg: Registry): Verdict {
    Eval(m.constraints, c => reg.leaf(m.id, c))
  }

  predicate Fires(m: Macro, e: Event, reg: Registry) {
    Matched(m, e, reg) && Judged(m, reg) == Holds(true)
  }

  predicate Errs(m: Macro, e: Event, reg: Registry) {
    Matched(m, e, reg) && Judged(m, reg).Fails?
  }

  datatype EngineEvent = MacroFired(id: MacroId, name: string) | Error(macroId: MacroId, message: string)

  /** The candidates that fire, in bucket order; an id stands as often as in the bucket. */
  function Firing(r: Routes, e: Event, reg: Registry, ids: seq<MacroId>): seq<MacroId> {
    if ids == [] then []
    else
      var id := ids[|ids| - 1];
      Firing(r, e, reg, ids[..|ids| - 1]) + if id in r.macros && Fires(r.macros[id], e, reg) then [id] else []
  }

  function Erring(r: Routes, e: Event, reg: Registry, ids: seq<MacroId>): seq<EngineEvent> {
    if ids == [] then []
    else
      var id := ids[|ids| - 1];
      Erring(r, e, reg, ids[..|ids| - 1])
        + if id in r.macros && Errs(r.macros[id], e, reg)
          then [Error(id, Judged(r.macros[id], reg).error)] else []
  }

  lemma {:induction false} FiringCounts(r: Routes, e: Event, reg: Registry, ids: seq<MacroId>, id: MacroId)
    ensures multiset(Firing(r, e, reg, ids))[id]
         == if id in r.macros && Fires(r.macros[id], e, reg) then multiset(ids)[id] else 0
  {
    if ids != [] {
      FiringCounts(r, e, reg, ids[..|ids| - 1], id);
      assert ids == ids[..|ids| - 1] + [ids[|ids| - 1]];
    }
  }

  lemma {:induction false} ErringIds(r: Routes, e: Event, reg: Registry, ids: seq<MacroId>, ev: EngineEvent)
    ensures ev in Erring(r, e, reg, ids) <==>
      && ev.Error? && ev.macroId in ids && ev.macroId in r.macros
      && Errs(r.macros[ev.macroId], e, reg) && ev.message == Judged(r.macros[ev.macroId], reg).error
  {
    if ids != [] {
      ErringIds(r, e, reg, ids[..|ids| - 1], ev);
      assert ids == ids[..|ids| - 1] + [ids[|ids| - 1]];
    }
  }

  /** The macros that a scan over all of them finds to fire, and those whose constraints it finds to fail. */
  function ScanFires(r: Routes, e: Event, reg: Registry): set<MacroId> {
    set id | id in r.macros && Fires(r.macros[id], e, reg)
  }

  function ScanErrs(r: Routes, e: Event, reg: Registry): set<EngineEvent> {
    set id | id in r.macros && Errs(r.macros[id], e, reg) :: Error(id, Judged(r.macros[id], reg).error)
  }

  function ToSet<T>(xs: seq<T>): set<T> {
    set x | x in xs
  }

  lemma CandidatesIndexed(r: Routes, e: Event, reg: Registry)
    requires Indexed(r) && OwnKind(reg)
    ensures forall id <- r.macros :: Matched(r.macros[id], e, reg) ==> id in Bucket(r.index, e.kind)
  {
    forall id | id in r.macros && Matched(r.macros[id], e, reg)
      ensures id in Bucket(r.index, e.kind)
    {
      var t :| t in r.macros[id].triggers && reg.matches(t, e);
      FiledWhereItFits(t, e.kind);
    }
  }

  /** After any history of commands, the indexed dispatch fires exactly the macros of a full scan and reports exactly
      its errors. */
  lemma IndexAgreesWithScan(cs: seq<Command>, e: Event, reg: Registry)
    requires OwnKind(reg)
    ensures var r := Replayed(EMPTY, cs);
      var ids := Bucket(r.index, e.kind);
      && ToSet(Firing(r, e, reg, ids)) == ScanFires(r, e, reg)
      && ToSet(Erring(r, e, reg, ids)) == ScanErrs(r, e, reg)
  {
    hide Replayed, Firing, Erring, Bucket, Matched, Judged;
    var r := Replayed(EMPTY, cs);
    var ids := Bucket(r.index, e.kind);
    ReplayedIndexed(EMPTY, cs);
    CandidatesIndexed(r, e, reg);
    forall id: MacroId
      ensures id in Firing(r, e, reg, ids) <==> id in ScanFires(r, e, reg)
    {
      FiringCounts(r, e, reg, ids, id);
      InMultiset(Firing(r, e, reg, ids), id);
      InMultiset(ids, id);
    }
    forall ev: EngineEvent
      ensures ev in Erring(r, e, reg, ids) <==> ev in ScanErrs(r, e, reg)
    {
      ErringIds(r, e, reg, ids, ev);
    }
  }

  /** What a dispatch does about one macro, after any history: with the shipped specs it schedules it exactly if the
      macro is registered and enabled, one of its triggers matches, and its constraints hold; it reports an error
      exactly if they cannot be evaluated. */
  lemma DispatchMeans(cs: seq<Command>, e: Event, f: Folding, leaf: (MacroId, ConstraintConfig) -> Verdict, id: MacroId)
    ensures var (r, reg) := (Replayed(EMPTY, cs), Registry((t, e) => TriggerMatches(f, t, e), leaf));
      var (ids, mine) := (Bucket(r.index, e.kind), (c: ConstraintConfig) => leaf(id, c));
      var wanted :=
        id in r.macros && r.macros[id].enabled && exists t <- r.macros[id].triggers :: TriggerMatches(f, t, e);
      && (id in Firing(r, e, reg, ids) <==> wanted && Eval(r.macros[id].constraints, mine) == Holds(true))
      && (forall why :: Error(id, why) in Erring(r, e, reg, ids) <==>
                          wanted && Eval(r.macros[id].constraints, mine) == Fails(why))
      && (wanted && Errorless(r.macros[id].constraints, mine) ==>
           (id in Firing(r, e, reg, ids) <==> Truth(r.macros[id].constraints, Held(mine))))
  {
    hide Replayed, Firing, Erring, Bucket, TriggerMatches, Eval, Errorless, Truth;
    var (r, reg) := (Replayed(EMPTY, cs), Registry((t, e) => TriggerMatches(f, t, e), leaf));
    var mine := (c: ConstraintConfig) => leaf(id, c);
    ShippedOwnKind(f, leaf);
    IndexAgreesWithScan(cs, e, reg);
    ReplayedIndexed(EMPTY, cs);
    if id in r.macros {
      JudgedBy(r.macros[id], reg, mine);
      if Errorless(r.macros[id].constraints, mine) {
        EvalIsTruth(r.macros[id].constraints, mine);
      }
    }
    MatchedBy(r, id, e, f, reg);
    assert id in Firing(r, e, reg, Bucket(r.index, e.kind)) <==> id in ScanFires(r, e, reg);
    forall why
      ensures Error(id, why) in Erring(r, e, reg, Bucket(r.index, e.kind)) <==> Error(id, why) in ScanErrs(r, e, reg)
    {
    }
  }

  lemma MatchedBy(r: Routes, id: MacroId, e: Event, f: Folding, reg: Registry)
    requires reg.matches == ((t, e) => TriggerMatches(f, t, e))
    ensures id in r.macros ==> (Matched(r.macros[id], e, reg) <==>
              r.macros[id].enabled && exists t <- r.macros[id].triggers :: TriggerMatches(f, t, e))
  {
    hide TriggerMatches;
  }

  lemma JudgedBy(m: Macro, reg: Registry, mine: ConstraintConfig -> Verdict)
    requires forall c :: mine(c) == reg.leaf(m.id, c)
    ensures Judged(m, reg) == Eval(m.constraints, mine)
  {
    SameLeaves(m.constraints, c => reg.leaf(m.id, c), mine);
  }

  lemma {:induction false} SameLeaves(e: ConstraintExpr, leaf: ConstraintConfig -> Verdict,
                                      leaf': ConstraintConfig -> Verdict)
    requires forall c :: leaf(c) == leaf'(c)
    ensures Eval(e, leaf) == Eval(e, leaf')
  {
    if e.Not? {
      SameLeaves(e.inner, leaf, leaf');
    } else if e.All? || e.Any? {
      forall i | 0 <= i < |e.exprs|
        ensures Eval(e.exprs[i], leaf) == Eval(e.exprs[i], leaf')
      {
        SameLeaves(e.exprs[i], leaf, leaf');
      }
      assert Verdicts(e.exprs, leaf) == Verdicts(e.exprs, leaf');
    }
  }

  lemma InMultiset<T>(xs: seq<T>, x: T)
    ensures x in xs <==> multiset(xs)[x] > 0
  {
  }

  /// What each command does, after any history

  lemma ReplayedNext(r: Routes, cs: seq<Command>, c: Command)
    ensures Replayed(r, cs + [c]) == Handled(Replayed(r, cs), c)
  {
    assert (cs + [c])[..|cs|] == cs;
  }

  /** Adding and updating leave the new macro under its id, deleting leaves none, and no other macro changes. */
  lemma RegistrationMeans(cs: seq<Command>, m: Macro, id: MacroId)
    ensures var was := Replayed(EMPTY, cs).macros;
      && Replayed(EMPTY, cs + [AddMacro(m)]).macros == was[m.id := m]
      && Replayed(EMPTY, cs + [UpdateMacro(m)]).macros == was[m.id := m]
      && Replayed(EMPTY, cs + [DeleteMacro(id)]).macros == was - {id}
  {
    ReplayedNext(EMPTY, cs, AddMacro(m));
    ReplayedNext(EMPTY, cs, UpdateMacro(m));
    ReplayedNext(EMPTY, cs, DeleteMacro(id));
  }

  /** Switching a registered macro on or off sets its flag to what was asked for, keeps all its other fields, every
      other macro and every bucket; switching an unknown id changes nothing. */
  lemma SetEnabledMeans(cs: seq<Command>, id: MacroId, b: bool)
    ensures var (was, now) := (Replayed(EMPTY, cs), Replayed(EMPTY, cs + [SetEnabled(id, b)]));
      && now.index == was.index && now.macros.Keys == was.macros.Keys
      && (forall other <- was.macros :: other != id ==> now.macros[other] == was.macros[other])
      && (id in was.macros ==> now.macros[id].enabled == b && now.macros[id] == was.macros[id].(enabled := b))
  {
    ReplayedNext(EMPTY, cs, SetEnabled(id, b));
  }

  /** Commands that neither switch `id` on nor register a macro under it. */
  predicate LeavesOff(cs: seq<Command>, id: MacroId) {
    forall c <- cs ::
      match c
      case AddMacro(m) => m.id != id
      case UpdateMacro(m) => m.id != id
      case DeleteMacro(_) => true
      case SetEnabled(other, b) => other == id ==> !b
  }

  predicate Off(r: Routes, id: MacroId) {
    id in r.macros ==> !r.macros[id].enabled
  }

  lemma {:induction false} StaysOff(r: Routes, cs: seq<Command>, id: MacroId)
    requires Off(r, id) && LeavesOff(cs, id)
    ensures Off(Replayed(r, cs), id)
  {
    if cs != [] {
      var (front, c) := (cs[..|cs| - 1], cs[|cs| - 1]);
      assert c in cs && forall x <- front :: x in cs;
      StaysOff(r, front, id);
    }
  }

  lemma {:induction false} ReplayedBoth(r: Routes, a: seq<Command>, b: seq<Command>)
    ensures Replayed(r, a + b) == Replayed(Replayed(r, a), b)
  {
    if b == [] {
      assert a + b == a;
    } else {
      ReplayedBoth(r, a, b[..|b| - 1]);
      assert (a + b)[..|a + b| - 1] == a + b[..|b| - 1];
    }
  }

  /** A macro that was switched off is neither scheduled nor reported by any dispatch, until a command switches it on or
      registers one in its place. */
  lemma DisabledIsQuiet(cs: seq<Command>, later: seq<Command>, id: MacroId, e: Event, reg: Registry)
    requires LeavesOff(later, id)
    ensures var r := Replayed(EMPTY, cs + [SetEnabled(id, false)] + later);
      && id !in Firing(r, e, reg, Bucket(r.index, e.kind))
      && forall why :: Error(id, why) !in Erring(r, e, reg, Bucket(r.index, e.kind))
  {
    hide Replayed, Firing, Erring, Bucket;
    var before := Replayed(EMPTY, cs + [SetEnabled(id, false)]);
    var r := Replayed(EMPTY, cs + [SetEnabled(id, false)] + later);
    var ids := Bucket(r.index, e.kind);
    SetEnabledMeans(cs, id, false);
    StaysOff(before, later, id);
    ReplayedBoth(EMPTY, cs + [SetEnabled(id, false)], later);
    FiringCounts(r, e, reg, ids, id);
    InMultiset(Firing(r, e, reg, ids), id);
    forall why
      ensures Error(id, why) !in Erring(r, e, reg, ids)
    {
      ErringIds(r, e, reg, ids, Error(id, why));
    }
  }

  /// How often an id stands in a bucket

  function Times(r: Routes, kind: EventKind, id: MacroId): nat {
    multiset(Bucket(r.index, kind))[id]
  }

  /** How often it should: once per trigger of that kind. */
  function Owed(r: Routes, kind: EventKind, id: MacroId): nat {
    if id in r.macros then Count(r.macros[id].triggers, kind) else 0
  }

  ghost predicate Exact(r: Routes) {
    forall kind, id :: Times(r, kind, id) == Owed(r, kind, id)
  }

  lemma RemovedExact(r: Routes, id: MacroId)
    requires Exact(r)
    ensures Exact(Removed(r, id)) && id !in Removed(r, id).macros
  {
    if id in r.macros {
      forall kind, other: MacroId
        ensures Times(Removed(r, id), kind, other) == Owed(Removed(r, id), kind, other)
      {
        RemovedTimes(r, id, kind, other);
      }
    }
  }

  lemma RemovedTimes(r: Routes, id: MacroId, kind: EventKind, other: MacroId)
    requires id in r.macros && forall i :: Times(r, kind, i) == Owed(r, kind, i)
    ensures Times(Removed(r, id), kind, other) == Owed(Removed(r, id), kind, other)
  {
    DroppedBucket(r.index, id, r.macros[id].triggers, kind);
    assert Times(r, kind, id) == Owed(r, kind, id) && Times(r, kind, other) == Owed(r, kind, other);
  }

  lemma AddedTimes(r: Routes, m: Macro, kind: EventKind, id: MacroId)
    ensures Times(Added(r, m), kind, id) == Times(r, kind, id) + if id == m.id then Count(m.triggers, kind) else 0
    ensures Owed(Added(r, m), kind, id) == if id == m.id then Count(m.triggers, kind) else Owed(r, kind, id)
  {
    PushedBucket(r.index, m.id, m.triggers, kind);
  }

  /** Adding a macro keeps the multiplicities right exactly when its id is not registered yet, or registered without
      triggers; the old entries of a replaced macro are not cleared. */
  lemma AddKeepsCountsWhenNew(r: Routes, m: Macro)
    requires Exact(r)
    ensures Exact(Added(r, m)) <==> (m.id in r.macros ==> r.macros[m.id].triggers == [])
  {
    hide Times, Added;
    forall kind, id
      ensures Times(Added(r, m), kind, id) == Owed(r, kind, id) + if id == m.id then Count(m.triggers, kind) else 0
      ensures Owed(Added(r, m), kind, id) == if id == m.id then Count(m.triggers, kind) else Owed(r, kind, id)
    {
      AddedTimes(r, m, kind, id);
    }
    if m.id in r.macros && r.macros[m.id].triggers != [] {
      var t := r.macros[m.id].triggers[0];
      CountPositive(r.macros[m.id].triggers, t);
      assert Times(Added(r, m), EventKindOf(t), m.id) != Owed(Added(r, m), EventKindOf(t), m.id);
    }
  }

  lemma SwitchedExact(r: Routes, id: MacroId, enabled: bool)
    requires Exact(r)
    ensures Exact(Switched(r, id, enabled))
  {
    var r' := Switched(r, id, enabled);
    forall kind, other
      ensures Times(r', kind, other) == Owed(r', kind, other)
    {
      assert Times(r, kind, other) == Owed(r, kind, other);
    }
  }

  /** Macros are added only under ids that are not registered. */
  predicate AddsOnlyNew(r: Routes, cs: seq<Command>) {
    cs == [] ||
    (&& AddsOnlyNew(r, cs[..|cs| - 1])
     && (cs[|cs| - 1].AddMacro? ==> cs[|cs| - 1].m.id !in Replayed(r, cs[..|cs| - 1]).macros))
  }

  lemma {:induction false} ReplayedExact(r: Routes, cs: seq<Command>)
    requires Exact(r) && AddsOnlyNew(r, cs)
    ensures Exact(Replayed(r, cs))
  {
    if cs != [] {
      var (before, c) := (Replayed(r, cs[..|cs| - 1]), cs[|cs| - 1]);
      ReplayedExact(r, cs[..|cs| - 1]);
      match c
      case AddMacro(m) => AddKeepsCountsWhenNew(before, m);
      case UpdateMacro(m) =>
        RemovedExact(before, m.id);
        AddKeepsCountsWhenNew(Removed(before, m.id), m);
      case DeleteMacro(id) => RemovedExact(before, id);
      case SetEnabled(id, enabled) => SwitchedExact(before, id, enabled);
    }
  }

  /** When ids are only added while unregistered, a macro that fires does so once per trigger of the event's kind,
      whichever of them match. */
  lemma FiresOncePerTrigger(cs: seq<Command>, e: Event, reg: Registry, id: MacroId)
    requires AddsOnlyNew(EMPTY, cs)
    ensures var r := Replayed(EMPTY, cs);
      multiset(Firing(r, e, reg, Bucket(r.index, e.kind)))[id]
        == if id in r.macros && Fires(r.macros[id], e, reg) then Count(r.macros[id].triggers, e.kind) else 0
  {
    var r := Replayed(EMPTY, cs);
    ReplayedExact(EMPTY, cs);
    assert Times(r, e.kind, id) == Owed(r, e.kind, id);
    FiringCounts(r, e, reg, Bucket(r.index, e.kind), id);
  }

  /** A macro with two hotkeys fires twice on one key press. */
  lemma TwoHotkeysFireTwice(m: Macro, e: Event, reg: Registry, keys: seq<KeyCombo>, other: seq<KeyCombo>)
    requires Fires(m, e, reg) && e.kind == HotkeyEvent && m.triggers == [Hotkey(keys), Hotkey(other)]
    ensures var r := Added(EMPTY, m);
      multiset(Firing(r, e, reg, Bucket(r.index, e.kind)))[m.id] == 2
  {
    hide Fires;
    assert [Hotkey(keys), Hotkey(other)][..1] == [Hotkey(keys)] && [Hotkey(keys)][..0] == [];
    assert Count([Hotkey(keys)], HotkeyEvent) == 1;
    AddedTimes(EMPTY, m, e.kind, m.id);
    FiringCounts(Added(EMPTY, m), e, reg, Bucket(Added(EMPTY, m).index, e.kind), m.id);
  }

  /** So does a macro with one hotkey that was added twice, though it counts as silently replaced. */
  lemma ReAddedFiresTwice(m: Macro, e: Event, reg: Registry, keys: seq<KeyCombo>)
    requires Fires(m, e, reg) && e.kind == HotkeyEvent && m.triggers == [Hotkey(keys)]
    ensures var r := Added(Added(EMPTY, m), m);
      multiset(Firing(r, e, reg, Bucket(r.index, e.kind)))[m.id] == 2
  {
    hide Fires;
    assert [Hotkey(keys)][..0] == [];
    var r := Added(EMPTY, m);
    AddedTimes(EMPTY, m, e.kind, m.id);
    AddedTimes(r, m, e.kind, m.id);
    FiringCounts(Added(r, m), e, reg, Bucket(Added(r, m).index, e.kind), m.id);
  }

  /// Priorities

  function PriorityOf(r: Routes, id: MacroId): int {
    if id in r.macros then r.macros[id].priority else 0
  }

  predicate Descending(r: Routes, ids: seq<MacroId>) {
    forall i, j :: 0 <= i < j < |ids| ==> PriorityOf(r, ids[i]) >= PriorityOf(r, ids[j])
  }

  /** The sort is not stable, so any order with descending priorities will do; here each id goes before the first of
      lower priority. */
  method SortByPriority(r: Routes, ids: seq<MacroId>) returns (sorted: seq<MacroId>)
    ensures multiset(sorted) == multiset(ids) && Descending(r, sorted)
  {
    sorted := [];
    for n := 0 to |ids|
      invariant multiset(sorted) == multiset(ids[..n]) && Descending(r, sorted)
    {
      hide Descending, PriorityOf;
      sorted := InsertByPriority(r, sorted, ids[n]);
      assert ids[..n + 1] == ids[..n] + [ids[n]];
    }
    assert ids[..|ids|] == ids;
  }

  method InsertByPriority(r: Routes, ids: seq<MacroId>, id: MacroId) returns (longer: seq<MacroId>)
    requires Descending(r, ids)
    ensures multiset(longer) == multiset(ids) + multiset{id} && Descending(r, longer)
  {
    hide PriorityOf;
    var k := 0;
    while k < |ids| && PriorityOf(r, ids[k]) >= PriorityOf(r, id)
      invariant k <= |ids|
      invariant forall j :: 0 <= j < k ==> PriorityOf(r, ids[j]) >= PriorityOf(r, id)
    {
      k := k + 1;
    }
    longer := ids[..k] + [id] + ids[k..];
    InsertedMultiset(ids, k, id);
  }

  lemma InsertedMultiset(ids: seq<MacroId>, k: nat, id: MacroId)
    requires k <= |ids|
    ensures multiset(ids[..k] + [id] + ids[k..]) == multiset(ids) + multiset{id}
  {
    assert ids == ids[..k] + ids[k..];
  }

  lemma PrioritiesFall(r: Routes, ids: seq<MacroId>)
    requires Descending(r, ids) && forall id <- ids :: id in r.macros
    ensures forall i, j :: 0 <= i < j < |ids| ==> r.macros[ids[i]].priority >= r.macros[ids[j]].priority
  {
  }

  function Announced(r: Routes, ids: seq<MacroId>): seq<EngineEvent>
    requires forall id <- ids :: id in r.macros
  {
    seq(|ids|, i requires 0 <= i < |ids| => MacroFired(ids[i], r.macros[ids[i]].name))
  }

  lemma {:induction false} FiringRegistered(r: Routes, e: Event, reg: Registry, ids: seq<MacroId>)
    ensures forall id <- Firing(r, e, reg, ids) :: id in r.macros
  {
    if ids != [] {
      FiringRegistered(r, e, reg, ids[..|ids| - 1]);
    }
  }

  /// The router in place

  class EventRouter {
    var index: Index
    var macros: map<MacroId, Macro>

    function Value(): Routes
      reads this
    {
      Routes(index, macros)
    }

    constructor ()
      ensures Value() == EMPTY
    {
      index, macros := map[], map[];
    }

    method RegisterMacro(m: Macro)
      modifies this
      ensures Value() == Added(old(Value()), m)
    {
      for i := 0 to |m.triggers|
        invariant index == Pushed(old(index), m.id, m.triggers[..i]) && macros == old(macros)
      {
        assert m.triggers[..i + 1][..i] == m.triggers[..i];
        var kind := EventKindOf(m.triggers[i]);
        if kind !in index {
          index := index[kind := []];
        }
        index := index[kind := index[kind] + [m.id]];
      }
      assert m.triggers[..|m.triggers|] == m.triggers;
      macros := macros[m.id := m];
    }

    method RemoveMacro(id: MacroId)
      modifies this
      ensures Value() == Removed(old(Value()), id)
    {
      if id in macros {
        var triggers := macros[id].triggers;
        macros := macros - {id};
        for i := 0 to |triggers|
          invariant index == Dropped(old(index), id, triggers[..i]) && macros == old(macros) - {id}
        {
          assert triggers[..i + 1][..i] == triggers[..i];
          var kind := EventKindOf(triggers[i]);
          if kind in index {
            var kept := Retain(index[kind], id);
            index := index[kind := kept];
          }
        }
        assert triggers[..|triggers|] == triggers;
      }
    }

    static method Retain(ids: seq<MacroId>, id: MacroId) returns (kept: seq<MacroId>)
      ensures kept == Without(ids, id)
    {
      kept := [];
      for i := 0 to |ids|
        invariant kept == Without(ids[..i], id)
      {
        assert ids[..i + 1][..i] == ids[..i];
        if ids[i] != id {
          kept := kept + [ids[i]];
        }
      }
      assert ids[..|ids|] == ids;
    }

    method Enable(id: MacroId, enabled: bool)
      modifies this
      ensures Value() == Switched(old(Value()), id, enabled)
    {
      if id in macros {
        macros := macros[id := macros[id].(enabled := enabled)];
      }
    }

    /** One turn of the engine loop for a command that touches the router. */
    method Handle(c: Command)
      modifies this
      ensures Value() == Handled(old(Value()), c)
    {
      match c
      case AddMacro(m) =>
        RegisterMacro(m);
      case UpdateMacro(m) =>
        RemoveMacro(m.id);
        RegisterMacro(m);
      case DeleteMacro(id) =>
        RemoveMacro(id);
      case SetEnabled(id, enabled) =>
        Enable(id, enabled);
    }

    /** The events of one dispatch, and the ids handed to the scheduler in that order. */
    method DispatchScheduled(e: Event, reg: Registry) returns (output: seq<EngineEvent>, scheduled: seq<MacroId>)
      ensures forall id <- scheduled :: id in macros
      ensures multiset(scheduled) == multiset(Firing(Value(), e, reg, Bucket(index, e.kind)))
      ensures forall i, j :: 0 <= i < j < |scheduled| ==> macros[scheduled[i]].priority >= macros[scheduled[j]].priority
      ensures var errors := Erring(Value(), e, reg, Bucket(index, e.kind));
        && |output| == |errors| + |scheduled| && errors <= output
        && forall i :: 0 <= i < |scheduled| ==>
             output[|errors| + i] == MacroFired(scheduled[i], macros[scheduled[i]].name)
    {
      hide Descending, Firing, Erring;
      var toFire;
      output, toFire := Evaluated(e, reg, if e.kind in index then index[e.kind] else []);
      FiringRegistered(Value(), e, reg, Bucket(index, e.kind));
      scheduled := SortByPriority(Value(), toFire);
      SameMembers(scheduled, toFire);
      PrioritiesFall(Value(), scheduled);
      ghost var errors := output;
      for i := 0 to |scheduled|
        invariant output == errors + Announced(Value(), scheduled)[..i]
      {
        output := output + [MacroFired(scheduled[i], macros[scheduled[i]].name)];
      }
      assert output == errors + Announced(Value(), scheduled);
    }

    /** The loop over the candidates: the errors met, and the ids that fire. */
    method Evaluated(e: Event, reg: Registry, candidates: seq<MacroId>)
      returns (errors: seq<EngineEvent>, toFire: seq<MacroId>)
      ensures toFire == Firing(Value(), e, reg, candidates)
      ensures errors == Erring(Value(), e, reg, candidates)
    {
      hide Matched, Judged;
      errors, toFire := [], [];
      for i := 0 to |candidates|
        invariant toFire == Firing(Value(), e, reg, candidates[..i])
        invariant errors == Erring(Value(), e, reg, candidates[..i])
      {
        var id := candidates[i];
        assert candidates[..i + 1][..i] == candidates[..i];
        if id in macros && Matched(macros[id], e, reg) {
          var verdict := Judged(macros[id], reg);
          match verdict
          case Holds(fires) =>
            if fires {
              toFire := toFire + [id];
            }
          case Fails(error) =>
            errors := errors + [Error(id, error)];
        }
      }
      assert candidates[..|candidates|] == candidates;
    }
  }

  lemma SameMembers<T>(xs: seq<T>, ys: seq<T>)
    requires multiset(xs) == multiset(ys)
    ensures forall x <- xs :: x in ys
  {
    assert forall x <- xs :: x in multiset(xs) && x in multiset(ys);
  }
}
