/** The debounced "is idle inhibited" state (src/inhibit_idle_state.rs). With a timeout,
    a request to inhibit only takes effect when a timer scheduled for it fires; a request
    to stop inhibiting takes effect at once and cancels any pending timer. Every change
    of the state is announced as an `InhibitIdle(v)` message, modelled here as the
    sequence of values sent. The timer is an explicit `Fire` event.

    This module is the design as intended: the timer callback runs as one step, and a
    callback whose guard has been dropped does nothing. The program runs the callback on
    the timer's own thread in three steps that can interleave with a stop request; that
    behaviour is `InhibitIdleInterleaved`, and the difference is a reported finding. */
module InhibitIdleState {
  import opened Base

  /** A held timer guard: the scheduled callback has not run yet, or it has run. The
      source keeps the guard after the callback has run; only the immediate branch of
      `set` drops it. */
  datatype TimerGuard = Pending | Fired

  datatype Debounce = Debounce(timeout: Option<int>, guard: Option<TimerGuard>, inhibited: bool)

  /** `get_media_minimum_duration` (src/settings/mod.rs:74-79): a configured duration of
      zero seconds means "no debounce". */
  function TimeoutFromSetting(seconds: int): (r: Option<int>)
    ensures r.None? <==> seconds == 0
    ensures r.Some? ==> r.value == seconds
  {
    if seconds == 0 then None else Some(seconds)
  }

  /** `InhibitIdleState::new`: not inhibited, no timer. */
  function New(timeout: Option<int>): (s: Debounce)
    ensures s.timeout == timeout && s.guard.None? && !s.inhibited
  {
    Debounce(timeout, None, false)
  }

  /** `update_is_idle_inhibited`: the new state and the messages sent. */
  function UpdateIsIdleInhibited(inhibited: bool, value: bool): (r: (bool, seq<bool>))
    ensures r.0 == value
    ensures |r.1| <= 1
    ensures r.1 == [] <==> inhibited == value
    ensures forall i :: 0 <= i < |r.1| ==> r.1[i] == value && r.1[i] != inhibited
  {
    if inhibited == value then (inhibited, []) else (value, [value])
  }

  /** `set_is_idle_inhibited`. */
  function Set(s: Debounce, value: bool): (r: (Debounce, seq<bool>))
    ensures r.0.timeout == s.timeout
    // without a timeout the state follows the request at once
    ensures s.timeout.None? ==> r.0.inhibited == value && r.0.guard.None?
    // stopping is immediate and cancels any timer
    ensures !value ==> !r.0.inhibited && r.0.guard.None?
    // with a timeout, inhibiting arms one timer when none is held and leaves the state alone
    ensures s.timeout.Some? && value && s.guard.None? ==> r.0 == s.(guard := Some(Pending)) && r.1 == []
    // ... and changes nothing while a guard is held, pending or fired
    ensures s.timeout.Some? && value && s.guard.Some? ==> r == (s, [])
    ensures r.1 == [] <==> (r.0.inhibited == s.inhibited)
    ensures r.1 != [] ==> r.1 == [r.0.inhibited]
  {
    if s.timeout.Some? && value then
      if s.guard.Some? then (s, [])
      else (s.(guard := Some(Pending)), [])
    else
      var (state, sent) := UpdateIsIdleInhibited(s.inhibited, value);
      (s.(guard := None, inhibited := state), sent)
  }

  /** The timer fires: the scheduled callback `update_is_idle_inhibited(true)` runs as one
      step, provided its guard is still held and it has not run yet. A timer whose guard
      was dropped, or that has already run, does nothing. */
  function Fire(s: Debounce): (r: (Debounce, seq<bool>))
    ensures s.guard == Some(Pending) ==>
      && r.0.inhibited && r.0.guard == Some(Fired) && r.0.timeout == s.timeout
      && (r.1 == [] <==> s.inhibited)
      && (r.1 != [] ==> r.1 == [true])
    ensures s.guard != Some(Pending) ==> r == (s, [])
  {
    if s.guard == Some(Pending) then
      var (state, sent) := UpdateIsIdleInhibited(s.inhibited, true);
      (s.(guard := Some(Fired), inhibited := state), sent)
    else
      (s, [])
  }

  /** The reachable states: without a timeout no timer is ever held; with one, the state
      is inhibited exactly when a timer has fired and has not been cancelled since. */
  predicate Valid(s: Debounce)
  {
    (s.timeout.None? ==> s.guard.None?)
    && (s.timeout.Some? ==> (s.inhibited <==> s.guard == Some(Fired)))
  }

  datatype Event = SetEvent(value: bool) | FireEvent

  /** One event: a `set_is_idle_inhibited` call or the timer firing. */
  function Step(s: Debounce, e: Event): (r: (Debounce, seq<bool>))
  {
    match e
    case SetEvent(v) => Set(s, v)
    case FireEvent => Fire(s)
  }

  /** A run of events from `s`: the final state and every message sent, in order. */
  function Run(s: Debounce, events: seq<Event>): (r: (Debounce, seq<bool>))
    decreases |events|
  {
    if |events| == 0 then (s, [])
    else
      var (s1, sent1) := Step(s, events[0]);
      var (s2, sent2) := Run(s1, events[1..]);
      (s2, sent1 + sent2)
  }

  /** Each message differs from the value before it, the first from the state `start`. */
  predicate Alternates(start: bool, sent: seq<bool>)
  {
    (|sent| > 0 ==> sent[0] != start)
    && forall i :: 0 < i < |sent| ==> sent[i] != sent[i - 1]
  }

  lemma PrependAlternates(start: bool, v: bool, rest: seq<bool>)
    requires v != start && Alternates(v, rest)
    ensures Alternates(start, [v] + rest)
  {
    var all := [v] + rest;
    forall i | 0 < i < |all|
      ensures all[i] != all[i - 1]
    {
      assert all[i] == rest[i - 1];
    }
  }

  lemma NewIsValid(timeout: Option<int>)
    ensures Valid(New(timeout))
  {
  }

  lemma StepKeepsValid(s: Debounce, e: Event)
    requires Valid(s)
    ensures Valid(Step(s, e).0)
  {
  }

  /** With a timeout, a step turns the state to inhibited only by firing a pending timer. */
  lemma OnlyFireInhibits(s: Debounce, e: Event)
    requires s.timeout.Some? && !s.inhibited
    ensures Step(s, e).0.inhibited ==> e == FireEvent && s.guard == Some(Pending)
  {
  }

  lemma {:induction false} RunKeepsValid(s: Debounce, events: seq<Event>)
    requires Valid(s)
    ensures Valid(Run(s, events).0)
    decreases |events|
  {
    if |events| > 0 {
      StepKeepsValid(s, events[0]);
      RunKeepsValid(Step(s, events[0]).0, events[1..]);
    }
  }

  /** The messages sent over any run alternate in value starting with the negation of the
      initial state, and the last one sent is the final state (the state is unchanged
      when nothing was sent). */
  lemma {:induction false} RunAlternates(s: Debounce, events: seq<Event>)
    ensures Alternates(s.inhibited, Run(s, events).1)
    ensures var r := Run(s, events);
      if |r.1| == 0 then r.0.inhibited == s.inhibited else r.1[|r.1| - 1] == r.0.inhibited
    decreases |events|
  {
    if |events| > 0 {
      var (s1, sent1) := Step(s, events[0]);
      RunAlternates(s1, events[1..]);
      var (s2, sent2) := Run(s1, events[1..]);
      assert Run(s, events) == (s2, sent1 + sent2);
      if sent1 != [] {
        assert sent1 == [s1.inhibited] && s1.inhibited != s.inhibited;
        PrependAlternates(s.inhibited, s1.inhibited, sent2);
        if |sent2| > 0 {
          assert (sent1 + sent2)[|sent1 + sent2| - 1] == sent2[|sent2| - 1];
        }
      } else {
        assert sent1 == [];
        assert sent1 + sent2 == sent2;
      }
    }
  }

  /** With a timeout, a run from an uninhibited state that contains no fire event never
      inhibits and sends nothing. */
  lemma {:induction false} NoFireNoInhibit(s: Debounce, events: seq<Event>)
    requires s.timeout.Some? && !s.inhibited
    requires forall i :: 0 <= i < |events| ==> events[i] != FireEvent
    ensures !Run(s, events).0.inhibited && Run(s, events).1 == []
    decreases |events|
  {
    if |events| > 0 {
      var (s1, sent1) := Step(s, events[0]);
      OnlyFireInhibits(s, events[0]);
      NoFireNoInhibit(s1, events[1..]);
    }
  }
}
