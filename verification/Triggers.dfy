// The trigger specs that ship with the engine (crates/hooks/src/trigger_spec.rs, crates/core/src/builtins.rs): which
// events each configuration matches.
module Triggers {
  import opened Domain

  datatype Event = Event(kind: EventKind, payload: Value)

  /** Unicode lower-casing, and equality of two strings up to the case of ASCII letters. */
  datatype Folding = Folding(lower: string -> string, sameKey: (string, string) -> bool)

  /** The string under a key of a map payload. */
  function Field(e: Event, key: string): Option<string> {
    if e.payload.Map? && key in e.payload.entries && e.payload.entries[key].Str? then Some(e.payload.entries[key].s)
    else None
  }

  predicate Contains(text: string, part: string) {
    exists i :: 0 <= i <= |text| && part <= text[i..]
  }

  /// Hotkeys

  /** The strings of a list, lower-cased. */
  function Lowered(f: Folding, vs: seq<Value>): seq<string> {
    if vs == [] then []
    else (if vs[0].Str? then [f.lower(vs[0].s)] else []) + Lowered(f, vs[1..])
  }

  function Pressed(f: Folding, e: Event): seq<string> {
    if e.payload.Map? && "modifiers" in e.payload.entries && e.payload.entries["modifiers"].List?
    then Lowered(f, e.payload.entries["modifiers"].elems) else []
  }

  function LowerEach(f: Folding, xs: seq<string>): seq<string> {
    seq(|xs|, i requires 0 <= i < |xs| => f.lower(xs[i]))
  }

  predicate ModifiersMatch(f: Folding, combo: KeyCombo, pressed: seq<string>) {
    |combo.modifiers| == |pressed| && forall m <- combo.modifiers :: f.lower(m) in pressed
  }

  predicate HotkeyMatches(f: Folding, keys: seq<KeyCombo>, e: Event) {
    && e.kind == HotkeyEvent && Field(e, "key").Some?
    && exists combo <- keys :: f.sameKey(combo.key, Field(e, "key").value) && ModifiersMatch(f, combo, Pressed(f, e))
  }

  /// All specs

  predicate WindowFocusMatches(f: Folding, pattern: string, e: Event) {
    && e.kind == WindowFocusEvent && Field(e, "title").Some?
    && Contains(f.lower(Field(e, "title").value), f.lower(pattern))
  }

  predicate ProcessMatches(f: Folding, name: string, started: bool, e: Event) {
    && e.kind == ProcessEvent && Field(e, "name").Some? && Field(e, "event").Some?
    && Contains(f.lower(Field(e, "name").value), f.lower(name))
    && Field(e, "event").value == if started then "started" else "stopped"
  }

  /** Whether a spec is built from `t`, and matches `e`; schedules, file changes and custom triggers have none. */
  predicate TriggerMatches(f: Folding, t: TriggerConfig, e: Event) {
    match t
    case Hotkey(keys) => HotkeyMatches(f, keys, e)
    case WindowFocus(pattern, _) => WindowFocusMatches(f, pattern, e)
    case ProcessTrigger(name, started) => ProcessMatches(f, name, started, e)
    case Manual => e.kind == ManualEvent
    case _ => false
  }

  /** The configurations that belong to a kind of event. */
  predicate Fits(t: TriggerConfig, kind: EventKind) {
    match kind
    case HotkeyEvent => t.Hotkey?
    case WindowFocusEvent => t.WindowFocus?
    case ProcessEvent => t.ProcessTrigger?
    case TimerEvent => t.Schedule?
    case FileChangeEvent => t.FileChange?
    case ManualEvent => t.Manual?
    case CustomEvent => t.CustomTrigger?
  }

  /** A spec matches events of its own kind only. */
  lemma SpecsKeepTheirKind(f: Folding, t: TriggerConfig, e: Event)
    requires TriggerMatches(f, t, e)
    ensures Fits(t, e.kind)
  {
  }

  /// Modifiers are compared as sets

  predicate Distinct<T(==)>(xs: seq<T>) {
    forall i, j :: 0 <= i < j < |xs| ==> xs[i] != xs[j]
  }

  predicate Inside<T(==)>(xs: seq<T>, ys: seq<T>) {
    forall i :: 0 <= i < |xs| ==> xs[i] in ys
  }

  function Except<T>(xs: seq<T>, k: nat): seq<T>
    requires k < |xs|
  {
    xs[..k] + xs[k + 1..]
  }

  lemma ExceptOne<T>(xs: seq<T>, k: nat)
    requires k < |xs|
    ensures multiset(xs) == multiset(Except(xs, k)) + multiset{xs[k]}
  {
    assert xs == xs[..k] + [xs[k]] + xs[k + 1..];
  }

  lemma StillIn<T>(xs: seq<T>, k: nat, x: T)
    requires k < |xs| && x in xs && x != xs[k]
    ensures x in Except(xs, k)
  {
    assert xs == xs[..k] + [xs[k]] + xs[k + 1..];
  }

  lemma RestInside<T>(xs: seq<T>, ys: seq<T>) returns (k: nat)
    requires xs != [] && Inside(xs, ys) && Distinct(xs)
    ensures k < |ys| && ys[k] == xs[0]
    ensures Distinct(Except(xs, 0)) && Inside(Except(xs, 0), Except(ys, k))
  {
    assert xs[0] in ys;
    k :| 0 <= k < |ys| && ys[k] == xs[0];
    var rest := Except(xs, 0);
    forall i | 0 <= i < |rest|
      ensures rest[i] in Except(ys, k)
    {
      assert rest[i] == xs[i + 1];
      StillIn(ys, k, xs[i + 1]);
    }
    assert forall i :: 0 <= i < |rest| ==> rest[i] == xs[i + 1];
  }

  lemma {:induction false} DistinctInside<T>(xs: seq<T>, ys: seq<T>)
    requires |xs| == |ys| && Inside(xs, ys) && Distinct(xs)
    ensures multiset(xs) == multiset(ys)
    decreases |xs|
  {
    hide Inside, Distinct;
    if xs != [] {
      var k := RestInside(xs, ys);
      DistinctInside(Except(xs, 0), Except(ys, k));
      ExceptOne(xs, 0);
      ExceptOne(ys, k);
    }
  }

  /** When no modifier of a combination stands twice, up to case, it matches exactly the same modifiers in any order. */
  lemma ModifiersMatchAsSets(f: Folding, combo: KeyCombo, pressed: seq<string>)
    requires Distinct(LowerEach(f, combo.modifiers))
    ensures ModifiersMatch(f, combo, pressed) <==> multiset(LowerEach(f, combo.modifiers)) == multiset(pressed)
  {
    var (ms, xs) := (combo.modifiers, LowerEach(f, combo.modifiers));
    if ModifiersMatch(f, combo, pressed) {
      DistinctInside(xs, pressed);
    }
    if multiset(xs) == multiset(pressed) {
      assert |multiset(xs)| == |xs| && |multiset(pressed)| == |pressed|;
      forall m | m in ms
        ensures f.lower(m) in pressed
      {
        var i :| 0 <= i < |ms| && ms[i] == m;
        assert xs[i] in multiset(xs) && xs[i] in multiset(pressed);
      }
    }
  }

  /** With a repeated modifier it also matches others: the comparison is by length and inclusion. */
  lemma RepeatedModifierMatchesMore(f: Folding, a: string, b: string, key: string)
    requires f.lower(a) != f.lower(b)
    ensures var (combo, pressed) := (KeyCombo([a, a], key), [f.lower(a), f.lower(b)]);
      ModifiersMatch(f, combo, pressed) && multiset(LowerEach(f, combo.modifiers)) != multiset(pressed)
  {
    var xs := LowerEach(f, [a, a]);
    assert xs == [f.lower(a), f.lower(a)] && multiset(xs)[f.lower(b)] == 0;
    assert multiset([f.lower(a), f.lower(b)])[f.lower(b)] == 1;
  }
}
