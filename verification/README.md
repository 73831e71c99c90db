# Idle-inhibit decision logic of wayland-pipewire-idle-inhibit, in Dafny

The daemon watches the PipeWire audio graph and keeps the desktop from going idle while
media plays. This project models the logic that makes that decision and acts on it:

- **Graph data** (`GraphObject`): nodes, ports and links are records of optional fields.
  An update merges incoming data in: present fields override, absent fields keep the
  stored value. There is also a display-name rule.
- **Filters** (`Filter`): the user's sink whitelist and node blacklist. Regular-expression
  matching is a parameter `m: Matcher` that is never interpreted.
- **The graph**:
  - `GraphCore` holds the objects, the `sinks` set and the four per-port and per-node
    index maps. Both revisions maintain them with the same code.
  - `PWGraph` holds the current revision's `insert`, `update` and `remove`.
  - `Traversal` holds the upstream search that decides whether a sink is fed by an
    active client.
  - `PWGraph.ShouldInhibitIdle` is the bit the daemon sends: "some sink is active".
- **Debounce**: with a minimum media duration, inhibiting waits for a timer.
  - `InhibitIdleState` is the design as intended. The timer is an explicit `Fire`
    event: the callback runs as one step, and only while its guard is held and it has
    not run yet.
  - `InhibitIdleInterleaved` is the program as written. The callback runs on the
    timer's thread and cannot be cancelled once it has started. Its read, write and send
    are separate steps, and a main-thread call can run between them. The difference is
    reported under Findings.
- **Backends**, each meeting the contract "does nothing if already (un)inhibited":
  - `DryRunInhibitor`: a flag.
  - `DbusInhibitor`: a ScreenSaver cookie.
  - `WaylandInhibitor`: an idle-inhibitor object. The registry bookkeeping that binds the
    compositor and the idle-inhibit manager lives in `WaylandRegistry`. The events a
    roundtrip dispatches go through the removal handler as written, including the gap
    described under Findings.
  - Remote replies, roundtrips and new protocol handles are parameters.
- **Control service** (`DbusServer`): the manual and effective flags. Outgoing
  main-loop messages are an appended sequence.
- **Older revisions**: `OldFilter`, `OldGraph` and `WaylandConnection` model the
  repository's older files as separate modules:
  - `get_name` prefers the application name and falls back to `""`;
  - missing filter fields are matched as `""`;
  - `join` replaces `update`;
  - `update` also refuses empty and unmodified data.

The search is specified against a reference definition. A node is active when a chain
of unblocked nodes, each fed by the next through an active link, ends at a node without
input ports (`Traversal.ActivePath`). `CheckNodeActive` shares one visited set across
siblings, yet from an empty visited set it answers exactly `IsActive`. So the
answer does not depend on the order in which links are explored.

In the current revision, `PWGraph::update` returns the value of `NodeData::update`,
`PortData::update` and `LinkData::update` on its success paths
(src/pipewire_connection/graph/mod.rs:180). Those methods return nothing
(src/pipewire_connection/graph/object.rs:82). The model therefore reports only
`Rejected` or `Applied`, and `Applied` carries no boolean.

## Model

| member | source | states |
|---|---|---|
| GraphObject.MergeLaws | src/pipewire_connection/graph/object.rs:82-110 | A present incoming field overrides, an absent one keeps the stored value, a field is present afterwards iff it was present before or incoming, and merging the same value twice equals merging once |
| GraphObject.NodeName | src/pipewire_connection/graph/object.rs:58-63 | The display name is the description, else the nick, else the name, and is absent exactly when all three are absent |
| GraphObject.NodeNameIgnoresOtherFields | src/pipewire_connection/graph/object.rs:58-63 | The application name and the media fields never influence the display name |
| GraphObject.NodeIsEmptyIffNoData | src/pipewire_connection/graph/object.rs:68-76 | A node's data is empty iff all seven fields are absent |
| GraphObject.UpdateNodeLaws | src/pipewire_connection/graph/object.rs:82-110 | Per field of the seven: present incoming overrides, absent keeps; no field is ever cleared; the result is empty iff both inputs are |
| GraphObject.UpdateNodeEmptyIsIdentity | src/pipewire_connection/graph/object.rs:68-110 | Updating with empty data leaves the node unchanged |
| GraphObject.UpdateNodeIdempotent | src/pipewire_connection/graph/object.rs:82-110 | Applying the same update twice equals applying it once |
| GraphObject.UpdateEmptyNode | src/pipewire_connection/graph/object.rs:82-110 | Updating an all-absent node yields exactly the incoming data |
| GraphObject.PortIsEmptyIffNoData | src/pipewire_connection/graph/object.rs:129-134 | A port's data is empty iff all four fields are absent |
| GraphObject.UpdatePortLaws | src/pipewire_connection/graph/object.rs:140-156 | Per-field override/keep for ports, identity on empty data, idempotence, emptiness of the result |
| GraphObject.LinkIsEmptyIffNoData | src/pipewire_connection/graph/object.rs:174-176 | A link's data is empty iff all three fields are absent |
| GraphObject.UpdateLinkLaws | src/pipewire_connection/graph/object.rs:182-194 | Per-field override/keep for links, identity on empty data, idempotence, emptiness of the result |
| GraphObject.DataIsEmpty | src/pipewire_connection/graph/object.rs:208-214 | Update data is empty iff the wrapped node, port or link data has no field present |
| Filter.MatchesAll | src/pipewire_connection/graph/filter.rs:35-40 | True iff every filter accepts (so true on an empty list) |
| Filter.MatchesAny | src/pipewire_connection/graph/filter.rs:47-52 | True iff some filter accepts (so false on an empty list) |
| Filter.AllImpliesAnyWhenNonEmpty | src/pipewire_connection/graph/filter.rs:35-52 | On a non-empty list "all match" implies "some match"; the empty list is all-true and any-false |
| Filter.MatchesProperty | src/pipewire_connection/graph/filter.rs:65-69 | An unset pattern accepts anything, including a missing property; a set pattern refuses a missing property and otherwise is the regex verdict |
| Filter.SinkFilterMatches | src/pipewire_connection/graph/filter.rs:79-83 | A sink filter matches iff its name pattern is unset or the node has a display name that the pattern matches |
| Filter.NodeFilterMatches | src/pipewire_connection/graph/filter.rs:104-112 | A node filter matches iff all five checks pass, the name against the display name and the others against the raw fields |
| Filter.UnsetNodeFilterMatchesEverything | src/pipewire_connection/graph/filter.rs:104-112 | A filter with every pattern unset matches every node |
| Filter.SinkMatchesAny | src/pipewire_connection/graph/filter.rs:47-52 | The whitelist matches iff one of its sink filters matches |
| Filter.NodeMatchesAny | src/pipewire_connection/graph/filter.rs:47-52 | The blacklist matches iff one of its node filters matches |
| GraphCore.NewGraph | src/pipewire_connection/graph/mod.rs:52-63 | A new graph has no objects, no sinks, empty indices and the user's filters |
| GraphCore.NewGraphIsConsistent | src/pipewire_connection/graph/mod.rs:52-63 | The empty graph satisfies the index invariant |
| GraphCore.AddTo | src/pipewire_connection/graph/mod.rs:89-136 | Adding to an index entry (created empty on demand) grows only that entry, by the id |
| GraphCore.RemoveFrom | src/pipewire_connection/graph/mod.rs:304-355 | Removing from an index entry shrinks only that entry, by the id |
| GraphCore.InsertWith | src/pipewire_connection/graph/mod.rs:68-137 | The object is stored; a node joins the sinks iff its class contains "Sink" and the whitelist admits it; a port joins its node's input or output set; a link joins the sets of the ports it names; every other entry of every index is unchanged |
| GraphCore.InsertWithKeepsConsistent | src/pipewire_connection/graph/mod.rs:68-137 | Inserting under a fresh id keeps the index invariant |
| GraphCore.ReindexNode | src/pipewire_connection/graph/mod.rs:163-177 | Only a present, changed media class is acted on: the node leaves the sinks if its old class was a sink class and joins if the new one is and the whitelist admits it; other sinks are untouched |
| GraphCore.MovePortIn | src/pipewire_connection/graph/mod.rs:207-234 | In one direction's port index, the port id is listed under a node afterwards iff the incoming data puts it there, or it was listed there and the stored data did not put it there; no other id moves |
| GraphCore.ReindexPort | src/pipewire_connection/graph/mod.rs:201-236 | The port indices change only when the incoming data has both a node id and a direction and one of them differs; then the port id leaves the set of the stored node and direction and joins the set of the incoming ones, and no other id moves |
| GraphCore.ReindexLink | src/pipewire_connection/graph/mod.rs:260-288 | A present, differing port moves the link id: afterwards it is listed under a port iff that is the new port, or it was listed there and that is not the old port; an absent or equal port leaves that index alone; other ids are untouched |
| GraphCore.ReindexNodeKeepsConsistent | src/pipewire_connection/graph/mod.rs:163-177 | A node update keeps the index invariant |
| GraphCore.ReindexPortKeepsConsistent | src/pipewire_connection/graph/mod.rs:201-236 | A port update keeps the index invariant |
| GraphCore.ReindexLinkKeepsConsistent | src/pipewire_connection/graph/mod.rs:260-288 | A link update keeps the index invariant |
| GraphCore.Remove | src/pipewire_connection/graph/mod.rs:299-363 | Returns the stored object, or nothing with the graph unchanged when the id is absent; removes the id from the sinks, its node's port set, or both link sets of its ports; every other entry is unchanged, only a port touches the node port sets and only a link touches the link sets |
| GraphCore.RemoveKeepsConsistent | src/pipewire_connection/graph/mod.rs:299-363 | Removing keeps the index invariant and leaves the id in no sink or link index |
| PWGraph.Insert | src/pipewire_connection/graph/mod.rs:68-137 | The object is stored; a node becomes a sink iff its class contains "Sink" and the whitelist is empty or one of its filters matches; ports and links are indexed under the node and ports they name |
| PWGraph.InsertKeepsConsistent | src/pipewire_connection/graph/mod.rs:75-82 | Inserting under a fresh id keeps the index invariant |
| PWGraph.Update | src/pipewire_connection/graph/mod.rs:140-296 | Refused exactly for an unknown id or data of another kind, leaving the graph unchanged; otherwise stores the merged data, moves a link id between port sets for a changed port (leaving a set alone for an equal port, and never moving another id), moves a port id between node input and output sets for a changed node or direction, leaves the node port sets alone on node and link updates, and leaves an index alone for an absent field |
| PWGraph.UpdateKeepsConsistent | src/pipewire_connection/graph/mod.rs:140-296 | Every update keeps the index invariant |
| PWGraph.UpdateNodeSinkMembership | src/pipewire_connection/graph/mod.rs:163-177 | On a consistent graph a present, changed class makes the node a sink iff it contains "Sink" and the whitelist admits the incoming data; otherwise membership is kept |
| PWGraph.Remove | src/pipewire_connection/graph/mod.rs:299-363 | Returns the stored object and deletes it, or does nothing for an absent id; a removed sink node leaves the sinks |
| PWGraph.RemoveKeepsConsistent | src/pipewire_connection/graph/mod.rs:299-363 | Removing keeps the index invariant |
| PWGraph.GetActiveSinks | src/pipewire_connection/graph/mod.rs:372-387 | The result is the set of sinks that are active under the current blacklist |
| PWGraph.ShouldInhibitIdle | src/pipewire_connection/mod.rs:142 | Idle is to be inhibited iff some sink is active |
| Traversal.CheckNodeActive | src/pipewire_connection/graph/mod.rs:393-501 | A blocked node is inactive, an unblocked node without input ports is active, "active" is only answered with an active chain to a client through an unvisited feeder, and "inactive" leaves the newly visited nodes closed under feeding; the visited set grows, which bounds the recursion |
| Traversal.PathStaysInside | src/pipewire_connection/graph/mod.rs:393-501 | An active chain that starts in a feeding-closed set of non-clients stays inside it |
| Traversal.ClosedExcludesActive | src/pipewire_connection/graph/mod.rs:393-501 | No node of a feeding-closed set of non-clients is active |
| Traversal.CheckFromScratch | src/pipewire_connection/graph/mod.rs:381-383 | From an empty visited set the search answers exactly whether the node is active |
| Traversal.ActiveSinks | src/pipewire_connection/graph/mod.rs:372-387 | The result is a subset of the sinks and holds exactly the active ones |
| OldFilter.OldNodeName | src/pipewire_connection/graph.rs:50-62 | The older name is the application name, else the description, else the nick, else the name, else "" |
| OldFilter.OldNameVersusNewName | src/pipewire_connection/graph.rs:50-62 | Without an application name the older name is the newer one, with "" for an absent name |
| OldFilter.OldSinkFilterMatches | src/pipewire_connection/graph_filter.rs:60-70 | True for an unset name pattern, otherwise the regex verdict on the older name |
| OldFilter.OldNodeFilterMatches | src/pipewire_connection/graph_filter.rs:95-123 | Every set pattern must match; a missing media class, role or software is matched as "" |
| OldFilter.MissingFieldTestedAsEmpty | src/pipewire_connection/graph_filter.rs:95-123 | A class pattern that matches "" accepts a node without class in the older filter, where the newer filter refuses it |
| OldFilter.UnsetOldNodeFilterMatchesEverything | src/pipewire_connection/graph_filter.rs:95-123 | An older node filter with every pattern unset matches every node |
| OldFilter.MatchesAllLoop | src/pipewire_connection/graph_filter.rs:25-35 | True iff every filter accepts; a false answer stops at the first refusing filter |
| OldFilter.MatchesAnyLoop | src/pipewire_connection/graph_filter.rs:37-47 | True iff some filter accepts; a true answer stops at the first accepting filter |
| OldFilter.LoopsAgreeWithIterators | src/pipewire_connection/graph_filter.rs:25-47 | The older loops decide the same as the newer combinators |
| OldGraph.JoinAgreesWithUpdate | src/pipewire_connection/graph.rs:74-216 | `join` of nodes, ports and links computes what the newer `update` computes, so it takes the incoming field when present, joins with empty data to the identity and is idempotent |
| OldGraph.JoinWithSelf | src/pipewire_connection/graph.rs:74-216 | Joining data with itself changes nothing |
| OldGraph.Insert | src/pipewire_connection/graph.rs:277-334 | The same sink and index bookkeeping as the newer insert, with the older whitelist |
| OldGraph.InsertKeepsConsistent | src/pipewire_connection/graph.rs:284-329 | Inserting under a fresh id keeps the index invariant |
| OldGraph.Update | src/pipewire_connection/graph.rs:336-548 | False exactly for an unknown id, empty data, data of another kind or data equal to the stored data, and then the graph is unchanged; otherwise the joined data is stored and the answer is true; a changed port moves the port id between node input and output sets, a changed link port moves the link id between port sets while an absent or equal port leaves that set alone and no other link id moves, a present changed media class can add the node to the sinks, and other kinds of update leave those indices alone |
| OldGraph.UpdateNodeSinkMembership | src/pipewire_connection/graph.rs:383-398 | On a consistent graph, after a `true` node update with a present, changed media class the node is a sink iff the class contains "Sink" and the older whitelist admits the data; otherwise sink membership is kept |
| OldGraph.UpdateReportsEveryChange | src/pipewire_connection/graph.rs:364-410 | Whenever joining the data would change the stored object, the update answers true |
| OldGraph.TrueWithoutChange | src/pipewire_connection/graph.rs:364-410 | The converse fails: data that only omits stored fields is not equal to them, so it is answered true though nothing changes |
| OldGraph.UpdateKeepsConsistent | src/pipewire_connection/graph.rs:336-548 | Every older update keeps the index invariant |
| OldGraph.Remove | src/pipewire_connection/graph.rs:550-602 | The same removal as the newer graph |
| OldGraph.RemoveKeepsConsistent | src/pipewire_connection/graph.rs:550-602 | Removing keeps the index invariant |
| OldGraph.GetActiveSinks | src/pipewire_connection/graph.rs:628-753 | The active sinks under the older blacklist, by the same search |
| InhibitIdleState.TimeoutFromSetting | src/settings/mod.rs:74-79 | A minimum duration of zero means no debounce; any other value is the timeout |
| InhibitIdleState.New | src/inhibit_idle_state.rs:38-49 | The initial state is not inhibited and holds no timer |
| InhibitIdleState.UpdateIsIdleInhibited | src/inhibit_idle_state.rs:86-103 | One message carrying the new value is sent exactly when it differs from the stored state, which then takes it |
| InhibitIdleState.Set | src/inhibit_idle_state.rs:51-84 | Without timeout the state follows at once; stopping drops any timer and clears the state at once; with a timeout, inhibiting arms exactly one timer when none is held and changes nothing while one is held |
| InhibitIdleState.Fire | src/inhibit_idle_state.rs:59-72 | With its guard held and not yet run, the timer callback sets the state, sends a message only if it was not already set, and the guard stays held; a dropped or already-run timer does nothing (the intended cancellation) |
| InhibitIdleState.NewIsValid | src/inhibit_idle_state.rs:38-49 | The initial state is reachable-consistent |
| InhibitIdleState.StepKeepsValid | src/inhibit_idle_state.rs:51-103 | Every event keeps "no timer without timeout" and "with timeout, inhibited iff a timer has fired" |
| InhibitIdleState.OnlyFireInhibits | src/inhibit_idle_state.rs:52-73 | With a timeout, only a timer firing turns the state to inhibited |
| InhibitIdleState.RunKeepsValid | src/inhibit_idle_state.rs:51-103 | Any run of events keeps the state invariant |
| InhibitIdleState.RunAlternates | src/inhibit_idle_state.rs:51-103 | Over any run, the messages alternate in value starting from the negation of the initial state, and the last one equals the final state |
| InhibitIdleState.NoFireNoInhibit | src/inhibit_idle_state.rs:52-73 | With a timeout, a run without a timer firing never inhibits and sends nothing |
| InhibitIdleInterleaved.Initial | src/inhibit_idle_state.rs:38-49 | The program starts not inhibited, with no guard and no callback running |
| InhibitIdleInterleaved.Step | src/inhibit_idle_state.rs:51-103 | A main-thread call never stops a started callback; only the main thread's call and the callback's send emit messages, the main thread's carrying the new state and the callback's carrying `true` |
| InhibitIdleInterleaved.UninterruptedCallbackIsFire | src/inhibit_idle_state.rs:58-71 | A callback that starts, reads, writes and sends without interruption has exactly the effect and messages of the one-step timer firing |
| InhibitIdleInterleaved.OnlyWriteInhibits | src/inhibit_idle_state.rs:86-103 | With a timeout, only the callback's write turns the state to inhibited |
| InhibitIdleInterleaved.NoStartNoInhibit | src/inhibit_idle_state.rs:52-73 | With a timeout, a run in which the timer starts no callback never inhibits and sends nothing |
| InhibitIdleInterleaved.WithoutTimeoutNoRace | src/inhibit_idle_state.rs:51-84 | Without a timeout no callback ever runs, the messages alternate and the last one equals the state |
| InhibitIdleInterleaved.LateCallbackInhibits | src/inhibit_idle_state.rs:58-84 | A stop request after the callback passed its cancellation check leaves the program inhibited with no timer held, breaking the intended invariant |
| InhibitIdleInterleaved.StaleMessageAfterRace | src/inhibit_idle_state.rs:86-103 | A stop request between the callback's write and send yields the messages `false, true` with the state false, and a further stop request sends nothing |
| DryRunInhibitor.Inhibit | src/idle_inhibitor/dry/mod.rs:29-36 | Always ends inhibited and succeeds; logs exactly when the flag flips |
| DryRunInhibitor.Uninhibit | src/idle_inhibitor/dry/mod.rs:38-45 | Always ends not inhibited and succeeds; logs exactly when the flag flips |
| DryRunInhibitor.InitialIsUninhibited | src/idle_inhibitor/dry/mod.rs:23-26 | The dry-run backend starts not inhibited |
| DryRunInhibitor.MeetsContract | src/idle_inhibitor/mod.rs:23-28 | Each call does nothing and logs nothing when already in the requested state, so both calls are idempotent |
| DbusInhibitor.Inhibit | src/idle_inhibitor/dbus/mod.rs:73-83 | With a cookie held: no call and no change; otherwise one `Inhibit` call, whose cookie is stored on success, and an error with no cookie on failure |
| DbusInhibitor.Uninhibit | src/idle_inhibitor/dbus/mod.rs:85-93 | Without a cookie: no call, success; otherwise `UnInhibit` with exactly the held cookie, which is cleared on success and kept on failure |
| DbusInhibitor.Drop | src/idle_inhibitor/dbus/mod.rs:61-70 | A held cookie is released and cleared even if the release fails |
| DbusInhibitor.New | src/idle_inhibitor/dbus/mod.rs:43-58 | A backend is built iff connecting, inhibiting and uninhibiting all succeed, and then holds no cookie; a failed probe release is followed by a second release from the drop |
| DbusInhibitor.MeetsContract | src/idle_inhibitor/mod.rs:23-28 | No remote call and no change when already in the requested state; a call repeated after a success does nothing |
| DbusInhibitor.ServeIsBracketed | src/idle_inhibitor/dbus/mod.rs:73-93 | Over any sequence of requests, `Inhibit` is called only with no cookie outstanding and `UnInhibit` only with the outstanding one, so at most one cookie is ever outstanding, and the held cookie is the one left outstanding |
| WaylandRegistry.OnGlobal | src/idle_inhibitor/wayland/mod.rs:136-152 | The first compositor and the first idle manager advertised are bound, never replaced; the surface comes with the compositor; other interfaces change nothing |
| WaylandRegistry.OnGlobalRemove | src/idle_inhibitor/wayland/mod.rs:153-166 | Removing the compositor's name clears compositor and surface; the idle manager is cleared by its name only while no compositor is bound |
| WaylandRegistry.IdleManagerRemovalIgnored | src/idle_inhibitor/wayland/mod.rs:153-166 | With a compositor bound, removing the idle manager's global leaves the manager bound |
| WaylandRegistry.OnGlobalRemoveIntended | src/idle_inhibitor/wayland/mod.rs:153-166 | After the removal no bound global carries the removed name, and globals with other names are kept |
| WaylandRegistry.IntendedAgreesOutsideTheGap | src/idle_inhibitor/wayland/mod.rs:153-166 | The intended removal agrees with the written one except when the idle manager is removed while a compositor is bound |
| WaylandRegistry.DispatchAllKeepsSurfaceWithCompositor | src/idle_inhibitor/wayland/mod.rs:136-166 | Registry events keep "a surface exists iff a compositor is bound" |
| WaylandRegistry.FirstBoundStays | src/idle_inhibitor/wayland/mod.rs:141-145 | A bound compositor is only unbound by the removal of its own name |
| WaylandInhibitor.New | src/idle_inhibitor/wayland/mod.rs:62-79 | A backend exists iff connecting and the first roundtrip succeed; it holds no inhibitor and has a surface iff it has a compositor |
| WaylandInhibitor.SetInhibitIdle | src/idle_inhibitor/wayland/mod.rs:87-113 | Without a manager nothing happens; inhibiting creates exactly one inhibitor when none exists and a surface does, else nothing; uninhibiting destroys an existing one; the field is set before the roundtrip, whose failure is the only error |
| WaylandInhibitor.Inhibit | src/idle_inhibitor/wayland/mod.rs:50-52 | With a manager and a surface the backend ends holding an inhibitor; holding one already, nothing happens |
| WaylandInhibitor.Uninhibit | src/idle_inhibitor/wayland/mod.rs:54-56 | With a manager the backend ends without an inhibitor; holding none, nothing happens |
| WaylandInhibitor.MeetsContract | src/idle_inhibitor/mod.rs:23-28 | No request and no change when already in the requested state; repeating a call after it took effect does nothing |
| WaylandInhibitor.WithdrawnManagerStaysInUse | src/idle_inhibitor/wayland/mod.rs:153-166 | With a compositor bound, a roundtrip delivering the idle manager's removal leaves the manager bound, and the next uninhibit still sends a destroy request for the inhibitor |
| WaylandInhibitor.InhibitThenUninhibit | src/idle_inhibitor/wayland/mod.rs:87-113 | Inhibiting then uninhibiting sends exactly the matching create and destroy requests and ends without an inhibitor |
| WaylandConnection.SetInhibitIdle | src/wayland_connection/mod.rs:49-75 | The older call: a no-op without manager, creates an inhibitor only when none exists and a surface does, destroys an existing one |
| WaylandConnection.AgreesWithNewerBackend | src/wayland_connection/mod.rs:49-75 | The older call does exactly what the newer one does when its roundtrip succeeds |
| DbusServer.New | src/dbus_server.rs:31-37 | The control service starts with both flags false and nothing sent |
| DbusServer.SetEffectiveInhibit | src/dbus_server.rs:40-42 | Changes only the effective flag and sends nothing |
| DbusServer.SetManualInhibit | src/dbus_server.rs:62-68 | An equal value changes nothing and sends nothing; a different one sets the flag and sends exactly one message with it |
| DbusServer.ToggleManualInhibit | src/dbus_server.rs:71-75 | Always flips the manual flag and sends one message with the new value |
| DbusServer.ToggleTwice | src/dbus_server.rs:71-75 | Toggling twice restores the flag, having sent both values in turn |
| DbusServer.ToggleIsSetOpposite | src/dbus_server.rs:62-75 | A toggle is the same as setting the opposite value |
| DbusServer.GettersReadFlags | src/dbus_server.rs:44-59 | The manual and effective getters return the flags, and each setter leaves the other flag alone |
| DbusServer.ApplyAllKeepsInStep | src/dbus_server.rs:62-75 | Over any sequence of calls, messages only get appended, alternate in value and the last one equals the manual flag |
| DbusServer.NewIsInStep | src/dbus_server.rs:31-37 | The new service is in step with the main loop |
| PipeWireEvents.DirectionFromString | src/pipewire_connection/mod.rs:237-243 | "out" is an output, "in" an input, anything else no direction |
| PipeWireEvents.DirectionNameRoundTrip | src/pipewire_connection/mod.rs:237-243 | Every direction PipeWire names reads back as itself |
| PipeWireEvents.RegisteredLink | src/pipewire_connection/mod.rs:344-368 | A newly announced link keeps its ports and is inactive |
| PipeWireEvents.LinkInfoActive | src/pipewire_connection/mod.rs:400-404 | An info event carries an activity only when it reports a state change, and "active" exactly for the Active state |
| PipeWireEvents.InfoWithoutStateKeepsActivity | src/pipewire_connection/mod.rs:400-411 | An info event without a state change keeps the stored activity |
| PipeWireEvents.RegisteredLinkIsInactive | src/pipewire_connection/mod.rs:352-375 | Registering a link under a fresh id feeds no node through a new active link |

## Left out

- Regular-expression semantics, including case sensitivity. Every filter takes the matcher `m` as an uninterpreted parameter.
- Logging, except the dry-run backend's "logged" flag.
- The PipeWire proxies and listeners stored with each object.
- The PipeWire main loop, its callbacks, and the mpsc and eventfd message queue (src/message_queue.rs). These are concurrency and operating-system I/O.
- The daemon's wiring: src/main.rs, src/dbus_service.rs and the zbus server setup.
- Settings loading from the command line, TOML and XDG (src/settings, src/config.rs, src/args.rs). Only the zero-means-no-timeout rule is modelled.
- Wall-clock time and the timer and chrono crates. The timer is the `Fire` event (or the `TimerStart` step); the timeout's length plays no role.
- InhibitIdleState.Fire: runs the callback as one step that a dropped guard cancels. This is the intended design, not the program's threads; `InhibitIdleInterleaved` models those.
- InhibitIdleState.StepKeepsValid: holds for the one-step, cancellable callback only. In the program a callback that has started survives a stop request, and `InhibitIdleInterleaved.LateCallbackInhibits` shows `Valid` failing.
- InhibitIdleState.RunKeepsValid: holds for the one-step, cancellable callback only, as for `StepKeepsValid`.
- InhibitIdleState.RunAlternates: holds for the one-step, cancellable callback only. In the program a stop request between the callback's write and send breaks both alternation and "last message equals the state" (`InhibitIdleInterleaved.StaleMessageAfterRace`).
- InhibitIdleInterleaved.Step: the main thread's `set_is_idle_inhibited` is one step. Only the timer thread's callback is split into read, write and send.
- Wayland and D-Bus wire behaviour:
  - connections, replies and roundtrips are parameters;
  - the advertised global version is not modelled;
  - a failing roundtrip is taken to dispatch its events before failing.
- WaylandConnection: a failing roundtrip aborts the process, so only successful roundtrips are modelled. Its constructor is not modelled.
- Events of the Wayland objects other than the registry. The source ignores them.
- Id reuse on insert. The source does not handle conflicts, so the consistency lemmas for insert require a fresh id.
- Port-index invariants. Partial port updates, such as a new node id without a direction, break them, so only the sink and link indices carry an invariant.
- PWGraph.Update: the success path reports only `Applied`, because the value the source returns there comes from calls that return nothing.
- DbusInhibitor.ServeIsBracketed: it covers a live backend. The drop forgets a cookie whose release failed, so that cookie stays outstanding at the service.

## Findings

| source | as written | input that shows it | evidently intended | confidence | as-written member | corrected member |
|---|---|---|---|---|---|---|
| src/idle_inhibitor/wayland/mod.rs:153-166 (same code in src/wayland_connection/mod.rs:113-126) | The idle manager's name is compared only when no compositor is bound | Compositor bound under name 1, idle manager under name 2, then `GlobalRemove(2)`: the withdrawn manager stays bound and is used for later inhibitor requests | Each bound global is forgotten when its own name is removed | medium, not executed | WaylandRegistry.IdleManagerRemovalIgnored | WaylandRegistry.OnGlobalRemoveIntended |
| src/inhibit_idle_state.rs:58-84 | Dropping the timer guard does not stop a callback that has already started | With a timeout: `set(true)`, the timer starts the callback, `set(false)`, then the callback reads `false`, writes `true` and sends `true`. The program ends inhibited although the last request was to stop | A stop request cancels the pending inhibit, so the state is inhibited exactly when a timer has fired and has not been cancelled since | medium, not executed | InhibitIdleInterleaved.LateCallbackInhibits | InhibitIdleState.RunKeepsValid |
| src/inhibit_idle_state.rs:86-103 | The callback's read, write and send are separate steps that a main-thread call can interleave with | With a timeout: `set(true)`, the callback starts, reads `false` and writes `true`; then `set(false)` clears the state and sends `false`; then the callback sends `true`. The main loop keeps inhibiting while the state says not, and a further `set(false)` sends nothing | Messages alternate and the last one equals the state | medium, not executed | InhibitIdleInterleaved.StaleMessageAfterRace | InhibitIdleState.RunAlternates |
