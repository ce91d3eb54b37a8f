// Hot reload: the watcher turns a reloaded macro list into commands (crates/app/src/watcher.rs), and the engine loop
// replays them on its router (crates/core/src/engine_loop.rs).
module Reload {
  import opened Domain
  import opened Router

  function Ids(ms: seq<Macro>): set<MacroId> {
    set m | m in ms :: m.id
  }

  function Upserts(olds: set<MacroId>, ms: seq<Macro>): seq<Command> {
    seq(|ms|, i requires 0 <= i < |ms| => if ms[i].id in olds then UpdateMacro(ms[i]) else AddMacro(ms[i]))
  }

  function Deletes(ids: seq<MacroId>): seq<Command> {
    seq(|ids|, i requires 0 <= i < |ids| => DeleteMacro(ids[i]))
  }

  /** `gone` lists, in any order, the ids of `current` that `latest` no longer has. */
  predicate Gone(current: seq<Macro>, latest: seq<Macro>, gone: seq<MacroId>) {
    && (forall id <- gone :: id in Ids(current) - Ids(latest))
    && (forall id <- Ids(current) - Ids(latest) :: id in gone)
  }

  function Diff(current: seq<Macro>, latest: seq<Macro>, gone: seq<MacroId>): seq<Command> {
    Upserts(Ids(current), latest) + Deletes(gone)
  }

  /** The watcher's loop; the order of the deletes is that of a hash set. */
  method Reloaded(current: seq<Macro>, latest: seq<Macro>)
    returns (sent: seq<Command>, current': seq<Macro>, ghost gone: seq<MacroId>)
    ensures Gone(current, latest, gone) && sent == Diff(current, latest, gone)
    ensures current' == latest
  {
    var olds, news := Ids(current), Ids(latest);
    sent := [];
    for i := 0 to |latest|
      invariant sent == Upserts(olds, latest)[..i]
    {
      if latest[i].id in olds {
        sent := sent + [UpdateMacro(latest[i])];
      } else {
        sent := sent + [AddMacro(latest[i])];
      }
    }
    var left := olds - news;
    gone := [];
    while left != {}
      invariant left <= olds - news
      invariant forall id <- gone :: id in olds - news
      invariant forall id <- olds - news :: id in left || id in gone
      invariant sent == Upserts(olds, latest) + Deletes(gone)
    {
      var id :| id in left;
      assert Deletes(gone + [id]) == Deletes(gone) + [DeleteMacro(id)];
      sent := sent + [DeleteMacro(id)];
      gone, left := gone + [id], left - {id};
    }
    current' := latest;
  }

  /// The macros after a replay

  lemma {:induction false} ReplayedBoth(r: Routes, a: seq<Command>, b: seq<Command>)
    ensures Replayed(r, a + b) == Replayed(Replayed(r, a), b)
  {
    if b == [] {
      assert a + b == a;
    } else {
      assert (a + b)[..|a + b| - 1] == a + b[..|b| - 1];
      ReplayedBoth(r, a, b[..|b| - 1]);
    }
  }

  /** `base` with the macros of a list put in, one after another. */
  function Overlaid(base: map<MacroId, Macro>, ms: seq<Macro>): map<MacroId, Macro> {
    if ms == [] then base
    else Overlaid(base, ms[..|ms| - 1])[ms[|ms| - 1].id := ms[|ms| - 1]]
  }

  lemma {:induction false} UpsertsOverlay(r: Routes, olds: set<MacroId>, ms: seq<Macro>)
    ensures Replayed(r, Upserts(olds, ms)).macros == Overlaid(r.macros, ms)
  {
    if ms != [] {
      var front := ms[..|ms| - 1];
      UpsertsOverlay(r, olds, front);
      assert Upserts(olds, ms)[..|ms| - 1] == Upserts(olds, front);
    }
  }

  lemma {:induction false} DeletesShrink(r: Routes, ids: seq<MacroId>)
    ensures Replayed(r, Deletes(ids)).macros == r.macros - (set id | id in ids)
  {
    if ids != [] {
      var front := ids[..|ids| - 1];
      DeletesShrink(r, front);
      assert Deletes(ids)[..|ids| - 1] == Deletes(front);
      assert ids == front + [ids[|ids| - 1]];
    } else {
      assert (set id | id in ids) == {};
    }
  }

  lemma {:induction false} OverlaidSplit(base: map<MacroId, Macro>, ms: seq<Macro>)
    ensures Overlaid(base, ms) == base + Overlaid(map[], ms)
    ensures Overlaid(map[], ms).Keys == Ids(ms)
  {
    if ms != [] {
      var (front, last) := (ms[..|ms| - 1], ms[|ms| - 1]);
      OverlaidSplit(base, front);
      assert ms == front + [last];
      assert Ids(ms) == Ids(front) + {last.id};
    }
  }

  /** The router a start with the new list would build. */
  function Loaded(ms: seq<Macro>): Routes {
    Replayed(EMPTY, Upserts({}, ms))
  }

  lemma DiffMacros(r: Routes, current: seq<Macro>, latest: seq<Macro>, gone: seq<MacroId>)
    ensures Replayed(r, Diff(current, latest, gone)).macros
         == (r.macros + Loaded(latest).macros) - (set id | id in gone)
    ensures Loaded(latest).macros.Keys == Ids(latest)
  {
    ReplayedBoth(r, Upserts(Ids(current), latest), Deletes(gone));
    UpsertsOverlay(r, Ids(current), latest);
    UpsertsOverlay(EMPTY, {}, latest);
    OverlaidSplit(r.macros, latest);
    DeletesShrink(Replayed(r, Upserts(Ids(current), latest)), gone);
  }

  /** Replaying the diff leaves the macros of the new list, duplicates included, exactly when the router held no macro
      that neither list knows. */
  lemma ReloadConverges(r: Routes, current: seq<Macro>, latest: seq<Macro>, gone: seq<MacroId>)
    requires Gone(current, latest, gone)
    ensures Replayed(r, Diff(current, latest, gone)).macros == Loaded(latest).macros
       <==> r.macros.Keys <= Ids(current) + Ids(latest)
  {
    hide Replayed, Loaded, Diff;
    var (m, l) := (Replayed(r, Diff(current, latest, gone)).macros, Loaded(latest).macros);
    var dropped := set id | id in gone;
    DiffMacros(r, current, latest, gone);
    assert dropped == Ids(current) - Ids(latest);
    assert m.Keys == (r.macros.Keys + Ids(latest)) - dropped;
    if r.macros.Keys <= Ids(current) + Ids(latest) {
      assert m.Keys == l.Keys;
    } else {
      var id :| id in r.macros.Keys && id !in Ids(current) + Ids(latest);
      assert id in m.Keys && id !in l.Keys;
    }
  }

  /// The index after a replay

  predicate UniqueIds(ms: seq<Macro>) {
    forall i, j :: 0 <= i < j < |ms| ==> ms[i].id != ms[j].id
  }

  lemma {:induction false} UpsertsAddOnlyNew(r: Routes, olds: set<MacroId>, ms: seq<Macro>)
    requires r.macros.Keys <= olds && UniqueIds(ms)
    ensures AddsOnlyNew(r, Upserts(olds, ms))
  {
    if ms != [] {
      var (front, last) := (ms[..|ms| - 1], ms[|ms| - 1]);
      UpsertsAddOnlyNew(r, olds, front);
      assert Upserts(olds, ms)[..|ms| - 1] == Upserts(olds, front);
      UpsertsOverlay(r, olds, front);
      OverlaidSplit(r.macros, front);
      assert last.id !in Ids(front);
    }
  }

  lemma {:induction false} DeletesAddNothing(r: Routes, ids: seq<MacroId>)
    ensures AddsOnlyNew(r, Deletes(ids))
  {
    if ids != [] {
      DeletesAddNothing(r, ids[..|ids| - 1]);
      assert Deletes(ids)[..|ids| - 1] == Deletes(ids[..|ids| - 1]);
    }
  }

  /** With unique ids in the new list, and a router that held only macros of the old one with exact multiplicities,
      the replay also ends with the buckets a latest start would build, up to order. */
  lemma ReloadConvergesIndex(r: Routes, current: seq<Macro>, latest: seq<Macro>, gone: seq<MacroId>, kind: EventKind)
    requires Gone(current, latest, gone) && UniqueIds(latest)
    requires Exact(r) && r.macros.Keys <= Ids(current)
    ensures var r' := Replayed(r, Diff(current, latest, gone));
      && Exact(r')
      && r'.macros == Loaded(latest).macros
      && multiset(Bucket(r'.index, kind)) == multiset(Bucket(Loaded(latest).index, kind))
  {
    ReloadConverges(r, current, latest, gone);
    var half := Replayed(r, Upserts(Ids(current), latest));
    UpsertsAddOnlyNew(r, Ids(current), latest);
    ReplayedExact(r, Upserts(Ids(current), latest));
    DeletesAddNothing(half, gone);
    ReplayedExact(half, Deletes(gone));
    ReplayedBoth(r, Upserts(Ids(current), latest), Deletes(gone));
    UpsertsAddOnlyNew(EMPTY, {}, latest);
    ReplayedExact(EMPTY, Upserts({}, latest));
    SameBuckets(Replayed(r, Diff(current, latest, gone)), Loaded(latest), kind);
  }

  lemma SameBuckets(a: Routes, b: Routes, kind: EventKind)
    requires Exact(a) && Exact(b) && a.macros == b.macros
    ensures multiset(Bucket(a.index, kind)) == multiset(Bucket(b.index, kind))
  {
    forall id: MacroId
      ensures multiset(Bucket(a.index, kind))[id] == multiset(Bucket(b.index, kind))[id]
    {
      assert Times(a, kind, id) == Owed(a, kind, id) && Times(b, kind, id) == Owed(b, kind, id);
    }
  }

  /** An engine that loaded the first list and then replayed one diff per reload. */
  function Reloads(lists: seq<seq<Macro>>, gones: seq<seq<MacroId>>): Routes
    requires |lists| == |gones| + 1
  {
    var n := |gones|;
    if n == 0 then Loaded(lists[0])
    else Replayed(Reloads(lists[..n], gones[..n - 1]), Diff(lists[n - 1], lists[n], gones[n - 1]))
  }

  /** However often the file changes, the router holds the macros of the last list. */
  lemma {:induction false} ReloadsConverge(lists: seq<seq<Macro>>, gones: seq<seq<MacroId>>, kind: EventKind)
    requires |lists| == |gones| + 1 && forall ms <- lists :: UniqueIds(ms)
    requires forall i :: 0 <= i < |gones| ==> Gone(lists[i], lists[i + 1], gones[i])
    ensures var (r, last) := (Reloads(lists, gones), lists[|gones|]);
      && Exact(r) && r.macros == Loaded(last).macros && r.macros.Keys == Ids(last)
      && multiset(Bucket(r.index, kind)) == multiset(Bucket(Loaded(last).index, kind))
  {
    var n := |gones|;
    UpsertsOverlay(EMPTY, {}, lists[n]);
    OverlaidSplit(map[], lists[n]);
    if n == 0 {
      UpsertsAddOnlyNew(EMPTY, {}, lists[0]);
      ReplayedExact(EMPTY, Upserts({}, lists[0]));
    } else {
      ReloadsConverge(lists[..n], gones[..n - 1], kind);
      ReloadConvergesIndex(Reloads(lists[..n], gones[..n - 1]), lists[n - 1], lists[n], gones[n - 1], kind);
    }
  }
}
