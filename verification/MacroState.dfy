// The lock-protected sections of crates/core/src/scheduler.rs, for the state of one macro.
module MacroState {
  import opened Domain

  /// Data

  /** A trigger stands for the work item it carries: its context, its workflow and its own cancel token. */
  type Trigger = nat

  /** Cancellation tokens: the one inside a trigger's context, or the one of its debounce timer. */
  datatype Token = Run(trigger: Trigger) | Timer(trigger: Trigger)

  /** What a trigger does after its first lock section. */
  datatype Decision =
    | RunNow
    | Queued
    | Dropped
    | RestartAfter(toCancel: seq<Token>)
    | SleepFor(ms: nat)

  datatype State = State(
    running: nat,
    queue: seq<Trigger>,
    activeCancels: seq<Token>,
    lastFire: Option<nat>,
    debounceCancel: Option<Token>)

  const FRESH := State(0, [], [], None, None)

  const NANOS_PER_MILLI: nat := 1_000_000

  /** `Duration::as_millis` of the time between two clock readings in nanoseconds; it truncates. */
  function ElapsedMillis(earlier: nat, now: nat): nat {
    if now < earlier then 0 else (now - earlier) / NANOS_PER_MILLI
  }

  function OpensWindow(lastFire: Option<nat>, ms: nat, now: nat): bool {
    lastFire.None? || ElapsedMillis(lastFire.value, now) >= ms
  }

  function Retained(tokens: seq<Token>, cancelled: set<Token>): (kept: seq<Token>)
    ensures forall k <- kept :: k in tokens && k !in cancelled
    ensures |kept| <= |tokens|
  {
    if tokens == [] then []
    else if tokens[0] in cancelled then Retained(tokens[1..], cancelled)
    else [tokens[0]] + Retained(tokens[1..], cancelled)
  }

  lemma RetainedSnoc(tokens: seq<Token>, t: Token, cancelled: set<Token>)
    ensures Retained(tokens + [t], cancelled)
         == Retained(tokens, cancelled) + (if t in cancelled then [] else [t])
  {
    if tokens == [] {
    } else {
      assert (tokens + [t])[1..] == tokens[1..] + [t];
    }
  }

  /// The three lock sections, as functions of the state

  /** First section: the policy decides what the trigger does next. */
  function Enter(s: State, p: Policy, t: Trigger, now: nat): (State, Decision) {
    match p
    case RunParallel => (s.(running := s.running + 1), RunNow)
    case DropIfRunning =>
      if s.running > 0 then (s, Dropped) else (s.(running := s.running + 1), RunNow)
    case Queue(max) =>
      if s.running == 0 then (s.(running := s.running + 1), RunNow)
      else if |s.queue| < max then (s.(queue := s.queue + [t]), Queued)
      else (s, Dropped)
    case RestartIfRunning =>
      (s.(running := s.running + 1, activeCancels := [Run(t)]), RestartAfter(s.activeCancels))
    case Debounce(ms) => (s.(debounceCancel := Some(Timer(t))), SleepFor(ms))
    case Throttle(ms) =>
      if OpensWindow(s.lastFire, ms, now)
      then (s.(running := s.running + 1, lastFire := Some(now)), RunNow)
      else (s, Dropped)
  }

  /** The tokens set while the first section still holds the lock: the timer a debounce replaces. */
  function CancelledByEnter(s: State, p: Policy): set<Token> {
    if p.Debounce? && s.debounceCancel.Some? then {s.debounceCancel.value} else {}
  }

  /** Second section of a debounced trigger, after its timer was found uncancelled. */
  function Commit(s: State): State {
    s.(debounceCancel := None, running := s.running + 1)
  }

  /** The section that follows every finished workflow; the queue's head, if any, runs next. */
  function Complete(s: State, cancelled: set<Token>): (State, Option<Trigger>) {
    var fewer := if s.running == 0 then 0 else s.running - 1;
    var kept := Retained(s.activeCancels, cancelled);
    if s.queue == []
    then (s.(running := fewer, activeCancels := kept), None)
    else (s.(running := fewer + 1, activeCancels := kept, queue := s.queue[1..]), Some(s.queue[0]))
  }

  /// The same sections in place

  /** Every token's flag; a clone of a token shares its flag. */
  class TokenFlags {
    var cancelled: set<Token>

    constructor ()
      ensures cancelled == {}
    {
      cancelled := {};
    }

    method Cancel(t: Token)
      modifies this
      ensures cancelled == old(cancelled) + {t}
    {
      cancelled := cancelled + {t};
    }
  }

  class MacroState {
    var running: nat
    var queue: seq<Trigger>
    var activeCancels: seq<Token>
    var lastFire: Option<nat>
    var debounceCancel: Option<Token>

    function Value(): State
      reads this
    {
      State(running, queue, activeCancels, lastFire, debounceCancel)
    }

    constructor ()
      ensures Value() == FRESH
    {
      running, queue, activeCancels, lastFire, debounceCancel := 0, [], [], None, None;
    }

    method EnterSection(p: Policy, t: Trigger, now: nat, flags: TokenFlags) returns (d: Decision)
      modifies this, flags
      ensures (Value(), d) == Enter(old(Value()), p, t, now)
      ensures flags.cancelled == old(flags.cancelled) + CancelledByEnter(old(Value()), p)
    {
      match p
      case RunParallel =>
        running := running + 1;
        d := RunNow;
      case DropIfRunning =>
        if running > 0 {
          d := Dropped;
        } else {
          running := running + 1;
          d := RunNow;
        }
      case Queue(max) =>
        if running == 0 {
          running := running + 1;
          d := RunNow;
        } else if |queue| < max {
          queue := queue + [t];
          d := Queued;
        } else {
          d := Dropped;
        }
      case RestartIfRunning =>
        var prev := activeCancels;
        activeCancels := [];
        running := running + 1;
        activeCancels := activeCancels + [Run(t)];
        assert activeCancels == [Run(t)];
        d := RestartAfter(prev);
      case Debounce(ms) =>
        if debounceCancel.Some? {
          flags.Cancel(debounceCancel.value);
        }
        debounceCancel := Some(Timer(t));
        d := SleepFor(ms);
      case Throttle(ms) =>
        if OpensWindow(lastFire, ms, now) {
          lastFire := Some(now);
          running := running + 1;
          d := RunNow;
        } else {
          d := Dropped;
        }
    }

    method CommitSection()
      modifies this
      ensures Value() == Commit(old(Value()))
    {
      debounceCancel := None;
      running := running + 1;
    }

    method CompleteSection(flags: TokenFlags) returns (next: Option<Trigger>)
      modifies this
      ensures (Value(), next) == Complete(old(Value()), flags.cancelled)
    {
      running := if running == 0 then 0 else running - 1;
      RetainLive(flags);
      if queue == [] {
        next := None;
      } else {
        running := running + 1;
        next := Some(queue[0]);
        queue := queue[1..];
      }
    }

    method RetainLive(flags: TokenFlags)
      modifies this`activeCancels
      ensures activeCancels == Retained(old(activeCancels), flags.cancelled)
    {
      var kept: seq<Token> := [];
      for i := 0 to |activeCancels|
        invariant activeCancels == old(activeCancels)
        invariant kept == Retained(activeCancels[..i], flags.cancelled)
      {
        RetainedSnoc(activeCancels[..i], activeCancels[i], flags.cancelled);
        assert activeCancels[..i + 1] == activeCancels[..i] + [activeCancels[i]];
        if activeCancels[i] !in flags.cancelled {
          kept := kept + [activeCancels[i]];
        }
      }
      assert activeCancels[..|activeCancels|] == activeCancels;
      activeCancels := kept;
    }
  }
}
