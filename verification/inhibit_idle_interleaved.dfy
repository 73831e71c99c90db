/** The debounced state as the program runs it (src/inhibit_idle_state.rs:51-103). The
    scheduled callback runs on the timer's own thread. Dropping its guard only stops a
    callback that has not started yet. Once started, the callback's
    `update_is_idle_inhibited(true)` takes three steps: it reads the shared flag, writes
    it, and sends the message. A main-thread `set_is_idle_inhibited` can run between any
    two of them. The main thread's call is one step here; `InhibitIdleState.Set` gives
    its effect. */
module InhibitIdleInterleaved {
  import opened Base
  import opened InhibitIdleState

  /** How far the timer thread is through a callback that has passed its cancellation
      check: not running, about to read the flag, about to write it, about to send. */
  datatype Phase = Idle | ToRead | ToWrite | ToSend

  /** The main thread's state (guard, timeout, shared flag) and the timer thread's
      progress. A guard `Fired` is one whose callback has started. */
  datatype Threads = Threads(main: Debounce, callback: Phase)

  datatype ThreadEvent =
    | MainSet(value: bool)   // the main thread calls `set_is_idle_inhibited(value)`
    | TimerStart             // the timer thread starts a callback whose guard is held
    | CallbackRead           // the callback reads the shared flag
    | CallbackWrite          // the callback writes `true`
    | CallbackSend           // the callback sends `InhibitIdle(true)`

  function Initial(timeout: Option<int>): (t: Threads)
    ensures !t.main.inhibited && t.main.guard.None? && t.callback == Idle
    ensures t.main.timeout == timeout
  {
    Threads(New(timeout), Idle)
  }

  /** One step of either thread. A step the thread is not at leaves everything as it is.
      The timer thread runs one callback at a time, so a callback re-armed while an
      earlier one is still running starts only after that one has finished. */
  function Step(t: Threads, e: ThreadEvent): (r: (Threads, seq<bool>))
    ensures r.0.main.timeout == t.main.timeout
    // only the main thread's call touches the guard, except a start marking it started
    ensures !e.MainSet? && e != TimerStart ==> r.0.main.guard == t.main.guard
    // only the main thread's call and the callback's send emit messages
    ensures r.1 != [] ==> (e.MainSet? && r.1 == [r.0.main.inhibited]) || (e == CallbackSend && r.1 == [true])
    // a started callback ignores the guard: no main-thread call stops it
    ensures e.MainSet? ==> r.0.callback == t.callback
  {
    match e
    case MainSet(v) =>
      var (m, sent) := Set(t.main, v);
      (t.(main := m), sent)
    case TimerStart =>
      if t.main.guard == Some(Pending) && t.callback == Idle
      then (t.(main := t.main.(guard := Some(Fired)), callback := ToRead), [])
      else (t, [])
    case CallbackRead =>
      if t.callback == ToRead
      then (t.(callback := if t.main.inhibited then Idle else ToWrite), [])
      else (t, [])
    case CallbackWrite =>
      if t.callback == ToWrite
      then (t.(main := t.main.(inhibited := true), callback := ToSend), [])
      else (t, [])
    case CallbackSend =>
      if t.callback == ToSend then (t.(callback := Idle), [true]) else (t, [])
  }

  /** A run of events from `t`: the final state and every message sent, in order. */
  function Run(t: Threads, events: seq<ThreadEvent>): (r: (Threads, seq<bool>))
    decreases |events|
  {
    if |events| == 0 then (t, [])
    else
      var (t1, sent1) := Step(t, events[0]);
      var (t2, sent2) := Run(t1, events[1..]);
      (t2, sent1 + sent2)
  }

  /** A callback that runs without interruption does exactly what the one-step timer
      firing of the intended design does. */
  lemma UninterruptedCallbackIsFire(t: Threads)
    requires t.main.guard == Some(Pending) && t.callback == Idle
    ensures var r := Run(t, [TimerStart, CallbackRead, CallbackWrite, CallbackSend]);
      r.0 == Threads(Fire(t.main).0, Idle) && r.1 == Fire(t.main).1
  {
  }

  /** With a timeout, a step turns the flag to inhibited only by the callback's write. */
  lemma OnlyWriteInhibits(t: Threads, e: ThreadEvent)
    requires t.main.timeout.Some? && !t.main.inhibited
    ensures Step(t, e).0.main.inhibited ==> e == CallbackWrite && t.callback == ToWrite
  {
  }

  /** With a timeout and no callback running, a run in which the timer never starts a
      callback never inhibits and sends nothing. */
  lemma {:induction false} NoStartNoInhibit(t: Threads, events: seq<ThreadEvent>)
    requires t.main.timeout.Some? && !t.main.inhibited && t.callback == Idle
    requires forall i :: 0 <= i < |events| ==> events[i] != TimerStart
    ensures !Run(t, events).0.main.inhibited && Run(t, events).1 == []
    decreases |events|
  {
    if |events| > 0 {
      var (t1, sent1) := Step(t, events[0]);
      assert t1.callback == Idle && !t1.main.inhibited && sent1 == [];
      NoStartNoInhibit(t1, events[1..]);
    }
  }

  /** Without a timeout no callback is ever scheduled: a run is the main thread's calls
      alone, and its messages alternate with the last one equal to the flag. */
  lemma {:induction false} WithoutTimeoutNoRace(t: Threads, events: seq<ThreadEvent>)
    requires t.main.timeout.None? && t.main.guard.None? && t.callback == Idle
    ensures var r := Run(t, events);
      && r.0.callback == Idle && r.0.main.guard.None?
      && Alternates(t.main.inhibited, r.1)
      && (if |r.1| == 0 then r.0.main.inhibited == t.main.inhibited else r.1[|r.1| - 1] == r.0.main.inhibited)
    decreases |events|
  {
    if |events| > 0 {
      var (t1, sent1) := Step(t, events[0]);
      WithoutTimeoutNoRace(t1, events[1..]);
      var (t2, sent2) := Run(t1, events[1..]);
      assert Run(t, events) == (t2, sent1 + sent2);
      if sent1 != [] {
        assert sent1 == [t1.main.inhibited] && t1.main.inhibited != t.main.inhibited;
        PrependAlternates(t.main.inhibited, t1.main.inhibited, sent2);
        if |sent2| > 0 {
          assert (sent1 + sent2)[|sent1 + sent2| - 1] == sent2[|sent2| - 1];
        }
      } else {
        assert sent1 + sent2 == sent2;
      }
    }
  }

  /** A stop request after the callback has passed its cancellation check does not stop
      it. The program ends inhibited with no timer held, although the last request was to
      stop, so the intended invariant `Valid` is broken. */
  lemma LateCallbackInhibits()
    ensures var r := Run(Initial(Some(5)),
                         [MainSet(true), TimerStart, MainSet(false), CallbackRead, CallbackWrite, CallbackSend]);
      && r.0.main.inhibited && r.0.main.guard.None? && r.1 == [true]
      && !Valid(r.0.main)
  {
  }

  /** A stop request between the callback's write and its send clears the flag and sends
      `false`; the callback then sends `true`. The messages do not alternate, and the last
      one says "inhibit" while the flag says not. A later stop request sees the flag
      already clear and sends nothing, so the main loop keeps inhibiting. */
  lemma StaleMessageAfterRace()
    ensures var r := Run(Initial(Some(5)),
                         [MainSet(true), TimerStart, CallbackRead, CallbackWrite, MainSet(false), CallbackSend]);
      && r.1 == [false, true] && !r.0.main.inhibited
      && !Alternates(false, r.1)
      && Run(r.0, [MainSet(false)]).1 == []
  {
  }
}
