/** The Wayland backend (src/idle_inhibitor/wayland/mod.rs): it inhibits idling by
    holding an idle-inhibitor object created on its surface through the
    zwp_idle_inhibit_manager_v1 global. A roundtrip after each protocol request dispatches
    the pending registry events and may fail; both are parameters. */
module WaylandInhibitor {
  import opened Base
  import opened WaylandRegistry

  /** A protocol request the backend sends. `CreateInhibitor` names the handle the new
      inhibitor object gets. */
  datatype Request =
    | CreateInhibitor(manager: Handle, surface: Handle, inhibitor: Handle)
    | DestroyInhibitor(inhibitor: Handle)

  /** The result of a roundtrip: the registry events it dispatches and whether it succeeds. */
  datatype Roundtrip = Roundtrip(events: seq<RegistryEvent>, ok: bool)

  /** `WaylandIdleInhibitor::new`: connect, then one roundtrip to learn the globals. */
  function New(connected: bool, initial: Roundtrip): (r: Option<AppData>)
    ensures r.Some? <==> connected && initial.ok
    ensures r.Some? ==> r.value.idleInhibitor.None? && SurfaceWithCompositor(r.value)
  {
    if connected && initial.ok then
      DispatchAllKeepsSurfaceWithCompositor(EmptyAppData, initial.events);
      Some(DispatchAll(EmptyAppData, initial.events))
    else
      None
  }

  /** `set_inhibit_idle`. `created` is the handle a created inhibitor gets. The inhibitor
      field is set before the roundtrip, so a failed roundtrip still leaves it changed. */
  function SetInhibitIdle(s: AppData, inhibit: bool, created: Handle, rt: Roundtrip): (r: (AppData, Status, seq<Request>))
    // without a manager, nothing happens
    ensures s.idleManager.None? ==> r == (s, Ok, [])
    // inhibiting when an inhibitor exists or there is no surface does nothing
    ensures inhibit && (s.idleInhibitor.Some? || s.surface.None?) ==> r == (s, Ok, [])
    // otherwise exactly one inhibitor is created and stored
    ensures inhibit && s.idleManager.Some? && s.idleInhibitor.None? && s.surface.Some? ==>
      && r.2 == [CreateInhibitor(s.idleManager.value.handle, s.surface.value, created)]
      && r.0 == DispatchAll(s.(idleInhibitor := Some(created)), rt.events)
      && r.0.idleInhibitor == Some(created)
      && (r.1 == Ok <==> rt.ok)
    // uninhibiting destroys an existing inhibitor, and does nothing when there is none
    ensures !inhibit && s.idleInhibitor.None? ==> r == (s, Ok, [])
    ensures !inhibit && s.idleManager.Some? && s.idleInhibitor.Some? ==>
      && r.2 == [DestroyInhibitor(s.idleInhibitor.value)]
      && r.0 == DispatchAll(s.(idleInhibitor := None), rt.events)
      && r.0.idleInhibitor.None?
      && (r.1 == Ok <==> rt.ok)
  {
    if s.idleManager.None? then
      (s, Ok, [])
    else if inhibit then
      if s.idleInhibitor.None? then
        if s.surface.None? then (s, Ok, [])
        else
          var s1 := s.(idleInhibitor := Some(created));
          (DispatchAll(s1, rt.events), if rt.ok then Ok else Err,
           [CreateInhibitor(s.idleManager.value.handle, s.surface.value, created)])
      else
        (s, Ok, [])
    else if s.idleInhibitor.Some? then
      var s1 := s.(idleInhibitor := None);
      (DispatchAll(s1, rt.events), if rt.ok then Ok else Err, [DestroyInhibitor(s.idleInhibitor.value)])
    else
      (s, Ok, [])
  }

  /** `inhibit` and `uninhibit` are `set_inhibit_idle(true)` and `set_inhibit_idle(false)`. */
  function Inhibit(s: AppData, created: Handle, rt: Roundtrip): (r: (AppData, Status, seq<Request>))
    ensures s.idleManager.Some? && s.surface.Some? ==> r.0.idleInhibitor.Some?
    ensures s.idleInhibitor.Some? ==> r == (s, Ok, [])
  {
    SetInhibitIdle(s, true, created, rt)
  }

  function Uninhibit(s: AppData, rt: Roundtrip): (r: (AppData, Status, seq<Request>))
    ensures s.idleManager.Some? ==> r.0.idleInhibitor.None?
    ensures s.idleInhibitor.None? ==> r == (s, Ok, [])
  {
    SetInhibitIdle(s, false, 0, rt)
  }

  /** The backend contract (src/idle_inhibitor/mod.rs:23-28), and idempotence: a call
      repeated after the first has taken effect sends nothing and changes nothing. */
  lemma MeetsContract(s: AppData, created: Handle, created2: Handle, rt: Roundtrip, rt2: Roundtrip)
    ensures s.idleInhibitor.Some? ==> Inhibit(s, created, rt) == (s, Ok, [])
    ensures s.idleInhibitor.None? ==> Uninhibit(s, rt) == (s, Ok, [])
    ensures var s1 := Inhibit(s, created, rt).0; s1.idleInhibitor.Some? ==> Inhibit(s1, created2, rt2) == (s1, Ok, [])
    ensures var s1 := Uninhibit(s, rt).0; Uninhibit(s1, rt2) == (s1, Ok, [])
  {
  }

  /** Creating and then destroying the inhibitor sends exactly the matching pair of
      requests and returns to having no inhibitor. */
  lemma InhibitThenUninhibit(s: AppData, created: Handle, rt: Roundtrip, rt2: Roundtrip)
    requires s.idleManager.Some? && s.surface.Some? && s.idleInhibitor.None?
    requires forall i :: 0 <= i < |rt.events| ==> rt.events[i].Global?
    ensures var (s1, _, q1) := Inhibit(s, created, rt);
      var (s2, _, q2) := Uninhibit(s1, rt2);
      q1 + q2 == [CreateInhibitor(s.idleManager.value.handle, s.surface.value, created), DestroyInhibitor(created)]
      && s2.idleInhibitor.None?
  {
    GlobalsKeepManager(s.(idleInhibitor := Some(created)), rt.events);
  }

  /** With a compositor bound, a roundtrip that delivers the removal of the idle
      manager's global leaves the manager bound, so the next uninhibit still destroys
      the inhibitor through the withdrawn manager. */
  lemma WithdrawnManagerStaysInUse()
    ensures var s := AppData(Some(Bound(1, 1)), Some(2), Some(Bound(3, 2)), None);
      var (s1, _, q1) := SetInhibitIdle(s, true, 9, Roundtrip([GlobalRemove(2)], true));
      && s1.idleManager == Some(Bound(3, 2))
      && Uninhibit(s1, Roundtrip([], true)).2 == [DestroyInhibitor(9)]
  {
  }

  /** Registry globals alone never unbind the idle manager. */
  lemma {:induction false} GlobalsKeepManager(s: AppData, events: seq<RegistryEvent>)
    requires s.idleManager.Some?
    requires forall i :: 0 <= i < |events| ==> events[i].Global?
    ensures DispatchAll(s, events).idleManager == s.idleManager
    decreases |events|
  {
    if |events| > 0 {
      GlobalsKeepManager(Dispatch(s, events[0]), events[1..]);
    }
  }
}
