/** The Wayland objects the backend keeps (`AppData`) and the registry bookkeeping that
    fills them. The dispatch code is the same in src/idle_inhibitor/wayland/mod.rs and
    the older src/wayland_connection/mod.rs, so both revisions share this module.
    Protocol objects are opaque handles; the handles a bind or a request would create
    are carried by the event or passed in. */
module WaylandRegistry {
  import opened Base

  /** An opaque protocol object (compositor, surface, manager, inhibitor). */
  type Handle = nat

  /** A registry global name. */
  type GlobalName = u32

  const CompositorInterface: string := "wl_compositor"
  const IdleManagerInterface: string := "zwp_idle_inhibit_manager_v1"

  /** A bound global together with the registry name it was advertised under. */
  datatype Bound = Bound(handle: Handle, name: GlobalName)

  datatype AppData = AppData(
    compositor: Option<Bound>,
    surface: Option<Handle>,
    idleManager: Option<Bound>,
    idleInhibitor: Option<Handle>)

  /** The derived `Default`: nothing bound. */
  const EmptyAppData: AppData := AppData(None, None, None, None)

  /** A registry event. `Global` carries the handle its bind would produce and, for the
      compositor, the surface created on it; the advertised version only matters to
      the bind and is not modelled. */
  datatype RegistryEvent =
    | Global(name: GlobalName, interface: string, bound: Handle, surface: Handle)
    | GlobalRemove(name: GlobalName)

  /** The registry `Global` handler: the first compositor and the first idle-inhibit
      manager advertised are bound; a compositor comes with a new surface. */
  function OnGlobal(s: AppData, name: GlobalName, interface: string, bound: Handle, surface: Handle): (r: AppData)
    ensures r.idleInhibitor == s.idleInhibitor
    // first one wins
    ensures s.compositor.Some? ==> r.compositor == s.compositor && r.surface == s.surface
    ensures s.idleManager.Some? ==> r.idleManager == s.idleManager
    ensures interface == CompositorInterface && s.compositor.None? ==>
      r == s.(compositor := Some(Bound(bound, name)), surface := Some(surface))
    ensures interface == IdleManagerInterface && s.idleManager.None? ==>
      r == s.(idleManager := Some(Bound(bound, name)))
    ensures interface != CompositorInterface && interface != IdleManagerInterface ==> r == s
  {
    if interface == CompositorInterface && s.compositor.None? then
      s.(surface := Some(surface), compositor := Some(Bound(bound, name)))
    else if interface == IdleManagerInterface && s.idleManager.None? then
      s.(idleManager := Some(Bound(bound, name)))
    else
      s
  }

  /** The registry `GlobalRemove` handler, as written: the removed name is compared with
      the compositor's when one is bound, and with the idle manager's only otherwise. */
  function OnGlobalRemove(s: AppData, name: GlobalName): (r: AppData)
    ensures r.idleInhibitor == s.idleInhibitor
    ensures s.compositor.Some? && s.compositor.value.name == name ==>
      r == s.(compositor := None, surface := None)
    ensures s.compositor.Some? && s.compositor.value.name != name ==> r == s
    ensures s.compositor.None? && s.idleManager.Some? && s.idleManager.value.name == name ==>
      r == s.(idleManager := None)
    ensures s.compositor.None? && (s.idleManager.None? || s.idleManager.value.name != name) ==> r == s
  {
    if s.compositor.Some? then
      if name == s.compositor.value.name then s.(compositor := None, surface := None) else s
    else if s.idleManager.Some? && name == s.idleManager.value.name then
      s.(idleManager := None)
    else
      s
  }

  /** The removal of the idle manager's global is ignored while a compositor is bound, so
      the manager stays bound after the compositor has withdrawn it. */
  lemma IdleManagerRemovalIgnored()
    ensures var s := AppData(Some(Bound(1, 1)), Some(2), Some(Bound(3, 2)), None);
      OnGlobalRemove(s, 2).idleManager == Some(Bound(3, 2))
  {
  }

  /** `GlobalRemove` as evidently intended: each bound global is forgotten when its own
      name is removed, whichever else is bound. */
  function OnGlobalRemoveIntended(s: AppData, name: GlobalName): (r: AppData)
    ensures r.idleInhibitor == s.idleInhibitor
    ensures r.compositor.Some? ==> r.compositor.value.name != name
    ensures r.idleManager.Some? ==> r.idleManager.value.name != name
    ensures s.compositor.Some? && s.compositor.value.name != name ==> r.compositor == s.compositor && r.surface == s.surface
    ensures s.idleManager.Some? && s.idleManager.value.name != name ==> r.idleManager == s.idleManager
    ensures r.compositor.None? ==> r.surface.None? || r.surface == s.surface
  {
    var s1 := if s.compositor.Some? && name == s.compositor.value.name
              then s.(compositor := None, surface := None) else s;
    if s1.idleManager.Some? && name == s1.idleManager.value.name then s1.(idleManager := None) else s1
  }

  /** The intended handler agrees with the written one except in the case the written
      one ignores. */
  lemma IntendedAgreesOutsideTheGap(s: AppData, name: GlobalName)
    requires !(s.compositor.Some? && s.compositor.value.name != name
               && s.idleManager.Some? && s.idleManager.value.name == name)
    requires s.compositor.Some? && s.idleManager.Some? ==> s.compositor.value.name != s.idleManager.value.name
    ensures OnGlobalRemoveIntended(s, name) == OnGlobalRemove(s, name)
  {
  }

  /** One registry event, through the handlers as written. */
  function Dispatch(s: AppData, e: RegistryEvent): (r: AppData)
    ensures r.idleInhibitor == s.idleInhibitor
  {
    match e
    case Global(name, interface, bound, surface) => OnGlobal(s, name, interface, bound, surface)
    case GlobalRemove(name) => OnGlobalRemove(s, name)
  }

  /** Dispatching the events a roundtrip delivers, in order. */
  function DispatchAll(s: AppData, events: seq<RegistryEvent>): (r: AppData)
    ensures r.idleInhibitor == s.idleInhibitor
    decreases |events|
  {
    if |events| == 0 then s else DispatchAll(Dispatch(s, events[0]), events[1..])
  }

  /** A surface exists exactly while a compositor is bound. */
  predicate SurfaceWithCompositor(s: AppData)
  {
    s.surface.Some? <==> s.compositor.Some?
  }

  lemma {:induction false} DispatchAllKeepsSurfaceWithCompositor(s: AppData, events: seq<RegistryEvent>)
    requires SurfaceWithCompositor(s)
    ensures SurfaceWithCompositor(DispatchAll(s, events))
    decreases |events|
  {
    if |events| > 0 {
      DispatchAllKeepsSurfaceWithCompositor(Dispatch(s, events[0]), events[1..]);
    }
  }

  /** Once bound, a compositor or idle manager is never replaced by a later global:
      only a removal of its own name can unbind it. */
  lemma {:induction false} FirstBoundStays(s: AppData, events: seq<RegistryEvent>)
    requires s.compositor.Some?
    requires forall i :: 0 <= i < |events| ==> events[i] != GlobalRemove(s.compositor.value.name)
    ensures DispatchAll(s, events).compositor == s.compositor
    decreases |events|
  {
    if |events| > 0 {
      FirstBoundStays(Dispatch(s, events[0]), events[1..]);
    }
  }
}
