/** The older Wayland connection (src/wayland_connection/mod.rs). Its `set_inhibit_idle`
    has the same branches as the newer backend's but returns nothing: a failing
    roundtrip aborts the process, so only successful roundtrips are modelled here. */
module WaylandConnection {
  import opened Base
  import opened WaylandRegistry
  import WaylandInhibitor

  /** Older `set_inhibit_idle`, with the registry events its roundtrip dispatches. */
  function SetInhibitIdle(s: AppData, inhibit: bool, created: Handle, events: seq<RegistryEvent>)
    : (r: (AppData, seq<WaylandInhibitor.Request>))
    ensures s.idleManager.None? ==> r == (s, [])
    ensures inhibit && (s.idleInhibitor.Some? || s.surface.None?) ==> r == (s, [])
    ensures inhibit && s.idleManager.Some? && s.idleInhibitor.None? && s.surface.Some? ==>
      r.1 == [WaylandInhibitor.CreateInhibitor(s.idleManager.value.handle, s.surface.value, created)]
      && r.0.idleInhibitor == Some(created)
    ensures !inhibit && s.idleInhibitor.None? ==> r == (s, [])
    ensures !inhibit && s.idleManager.Some? && s.idleInhibitor.Some? ==>
      r.1 == [WaylandInhibitor.DestroyInhibitor(s.idleInhibitor.value)] && r.0.idleInhibitor.None?
  {
    if s.idleManager.None? then (s, [])
    else if inhibit then
      if s.idleInhibitor.Some? || s.surface.None? then (s, [])
      else
        (DispatchAll(s.(idleInhibitor := Some(created)), events),
         [WaylandInhibitor.CreateInhibitor(s.idleManager.value.handle, s.surface.value, created)])
    else if s.idleInhibitor.None? then (s, [])
    else
      (DispatchAll(s.(idleInhibitor := None), events),
       [WaylandInhibitor.DestroyInhibitor(s.idleInhibitor.value)])
  }

  /** The older call does what the newer one does when the roundtrip succeeds, which is
      then reported as `Ok`. */
  lemma AgreesWithNewerBackend(s: AppData, inhibit: bool, created: Handle, events: seq<RegistryEvent>)
    ensures var r := WaylandInhibitor.SetInhibitIdle(s, inhibit, created, WaylandInhibitor.Roundtrip(events, true));
      SetInhibitIdle(s, inhibit, created, events) == (r.0, r.2) && r.1 == Ok
  {
  }
}
