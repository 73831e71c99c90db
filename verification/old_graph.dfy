/** The older revision of the PipeWire graph (src/pipewire_connection/graph.rs). It keeps
    the same objects and indices as the current one (module GraphCore) and traverses them
    the same way (module Traversal); it differs in its filters (module OldFilter), in
    merging data with `join`, and in `update`, which also refuses empty and unmodified
    data and reports `true` for every update it carries out. */
module OldGraph {
  import opened Base
  import opened GraphObject
  import opened Filter
  import opened OldFilter
  import opened GraphCore
  import Traversal

  type LegacyGraph = Graph<OldSinkFilter, OldNodeFilter>

  /** An empty whitelist admits every sink candidate, a non-empty one needs some filter to match. */
  predicate OldWhitelisted(m: Matcher, whitelist: seq<OldSinkFilter>, d: NodeData)
  {
    |whitelist| == 0 || OldSinkMatchesAny(m, whitelist, d)
  }

  // ---------------------------------------------------------------- join

  /** `NodeData::join`: each field of `incoming` replaces the stored one unless it is `None`. */
  function JoinNode(current: NodeData, incoming: NodeData): NodeData
  {
    NodeData(
      match incoming.name case None => current.name case _ => incoming.name,
      match incoming.appName case None => current.appName case _ => incoming.appName,
      match incoming.description case None => current.description case _ => incoming.description,
      match incoming.nick case None => current.nick case _ => incoming.nick,
      match incoming.mediaClass case None => current.mediaClass case _ => incoming.mediaClass,
      match incoming.mediaRole case None => current.mediaRole case _ => incoming.mediaRole,
      match incoming.mediaSoftware case None => current.mediaSoftware case _ => incoming.mediaSoftware)
  }

  /** `PortData::join`. */
  function JoinPort(current: PortData, incoming: PortData): PortData
  {
    PortData(
      match incoming.name case None => current.name case _ => incoming.name,
      match incoming.nodeId case None => current.nodeId case _ => incoming.nodeId,
      match incoming.direction case None => current.direction case _ => incoming.direction,
      match incoming.isTerminal case None => current.isTerminal case _ => incoming.isTerminal)
  }

  /** `LinkData::join`. */
  function JoinLink(current: LinkData, incoming: LinkData): LinkData
  {
    LinkData(
      match incoming.inputPort case None => current.inputPort case _ => incoming.inputPort,
      match incoming.outputPort case None => current.outputPort case _ => incoming.outputPort,
      match incoming.active case None => current.active case _ => incoming.active)
  }

  /** The older `join` and the newer in-place `update` compute the same merged data, so
      the override, keep, idempotence and empty-identity laws of module GraphObject carry
      over to the older revision. */
  lemma JoinAgreesWithUpdate(current: NodeData, incoming: NodeData, port: PortData, incomingPort: PortData,
                             link: LinkData, incomingLink: LinkData)
    ensures JoinNode(current, incoming) == UpdateNode(current, incoming)
    ensures JoinPort(port, incomingPort) == UpdatePort(port, incomingPort)
    ensures JoinLink(link, incomingLink) == UpdateLink(link, incomingLink)
  {
  }

  /** Joining the stored data with what it already holds changes nothing. */
  lemma JoinWithSelf(d: NodeData, p: PortData, l: LinkData)
    ensures JoinNode(d, d) == d && JoinPort(p, p) == p && JoinLink(l, l) == l
  {
  }

  // ---------------------------------------------------------------- insert

  /** Older `PWGraph::insert`: the same bookkeeping as the current one, with the older whitelist. */
  function Insert(m: Matcher, g: LegacyGraph, id: Id, obj: PWObject): (r: LegacyGraph)
    ensures r.objects == g.objects[id := obj]
    ensures obj.Node? ==>
      (id in r.sinks <==>
         id in g.sinks
         || (&& IsSinkClass(obj.node.mediaClass)
             && (|g.sinkWhitelist| == 0
                 || exists i :: 0 <= i < |g.sinkWhitelist| && OldSinkFilterMatches(m, g.sinkWhitelist[i], obj.node))))
    ensures r.sinks - {id} == g.sinks - {id}
    ensures obj.Port? && obj.port.nodeId.Some? && obj.port.direction == Some(Input) ==>
      id in Members(r.nodeInputPorts, obj.port.nodeId.value)
    ensures obj.Port? && obj.port.nodeId.Some? && obj.port.direction == Some(Output) ==>
      id in Members(r.nodeOutputPorts, obj.port.nodeId.value)
    ensures obj.Link? && obj.link.outputPort.Some? ==> id in Members(r.linksFromPort, obj.link.outputPort.value)
    ensures obj.Link? && obj.link.inputPort.Some? ==> id in Members(r.linksToPort, obj.link.inputPort.value)
  {
    InsertWith(g, id, obj, d => OldWhitelisted(m, g.sinkWhitelist, d))
  }

  lemma InsertKeepsConsistent(m: Matcher, g: LegacyGraph, id: Id, obj: PWObject)
    requires IndexConsistent(g)
    requires id !in g.objects
    ensures IndexConsistent(Insert(m, g, id, obj))
  {
    InsertWithKeepsConsistent(g, id, obj, d => OldWhitelisted(m, g.sinkWhitelist, d));
  }

  // ---------------------------------------------------------------- update

  /** The update data equals the stored object's data field for field. */
  predicate Unmodified(obj: PWObject, incoming: PWObjectData)
  {
    match (obj, incoming)
    case (Node(d), NodeUpdate(e)) => d == e
    case (Port(d), PortUpdate(e)) => d == e
    case (Link(d), LinkUpdate(e)) => d == e
    case _ => false
  }

  /** The stored object after joining `incoming` into it (for data of the object's kind). */
  function Joined(obj: PWObject, incoming: PWObjectData): PWObject
    requires SameKind(obj, incoming)
  {
    match (obj, incoming)
    case (Node(d), NodeUpdate(e)) => Node(JoinNode(d, e))
    case (Port(d), PortUpdate(e)) => Port(JoinPort(d, e))
    case (Link(d), LinkUpdate(e)) => Link(JoinLink(d, e))
  }

  /** Older `PWGraph::update`: `false` leaves the graph as it was; `true` means the joined
      data was stored and the indices were adjusted. */
  function Update(m: Matcher, g: LegacyGraph, id: Id, incoming: PWObjectData): (r: (LegacyGraph, bool))
    ensures !r.1 <==>
      id !in g.objects || DataIsEmpty(incoming) || !SameKind(g.objects[id], incoming) || Unmodified(g.objects[id], incoming)
    ensures !r.1 ==> r.0 == g
    ensures r.1 ==> r.0.objects == g.objects[id := Joined(g.objects[id], incoming)]
    ensures r.0.sinkWhitelist == g.sinkWhitelist && r.0.nodeBlacklist == g.nodeBlacklist
    ensures r.0.sinks - {id} == g.sinks - {id}
    ensures !incoming.NodeUpdate? || incoming.node.mediaClass.None? ==> r.0.sinks == g.sinks
    ensures r.1 && incoming.NodeUpdate? && incoming.node.mediaClass.Some?
            && incoming.node.mediaClass != g.objects[id].node.mediaClass
            && IsSinkClass(incoming.node.mediaClass) && OldWhitelisted(m, g.sinkWhitelist, incoming.node) ==>
      id in r.0.sinks
    ensures !incoming.LinkUpdate? ==> r.0.linksToPort == g.linksToPort && r.0.linksFromPort == g.linksFromPort
    ensures !incoming.PortUpdate? ==> r.0.nodeInputPorts == g.nodeInputPorts && r.0.nodeOutputPorts == g.nodeOutputPorts
    // a link update touches the link sets only for this id, and only for a changed port
    ensures forall p :: Members(r.0.linksFromPort, p) - {id} == Members(g.linksFromPort, p) - {id}
    ensures forall p :: Members(r.0.linksToPort, p) - {id} == Members(g.linksToPort, p) - {id}
    ensures r.1 && incoming.LinkUpdate? && incoming.link.outputPort == g.objects[id].link.outputPort ==>
      r.0.linksFromPort == g.linksFromPort
    ensures r.1 && incoming.LinkUpdate? && incoming.link.inputPort == g.objects[id].link.inputPort ==>
      r.0.linksToPort == g.linksToPort
    ensures r.1 && incoming.LinkUpdate? && incoming.link.outputPort.Some?
            && incoming.link.outputPort != g.objects[id].link.outputPort ==>
      MovedLink(g.linksFromPort, r.0.linksFromPort, id, g.objects[id].link.outputPort, incoming.link.outputPort)
    ensures r.1 && incoming.LinkUpdate? && incoming.link.inputPort.Some?
            && incoming.link.inputPort != g.objects[id].link.inputPort ==>
      MovedLink(g.linksToPort, r.0.linksToPort, id, g.objects[id].link.inputPort, incoming.link.inputPort)
    ensures incoming.LinkUpdate? && incoming.link.outputPort.None? ==>
      r.0.linksFromPort == g.linksFromPort
      && (r.1 ==> r.0.objects[id].link.outputPort == g.objects[id].link.outputPort)
    ensures incoming.LinkUpdate? && incoming.link.inputPort.None? ==>
      r.0.linksToPort == g.linksToPort
      && (r.1 ==> r.0.objects[id].link.inputPort == g.objects[id].link.inputPort)
    ensures r.1 && incoming.PortUpdate? && PortMoves(g.objects[id].port, incoming.port) ==>
      && MovedPort(g.nodeInputPorts, r.0.nodeInputPorts, id, g.objects[id].port, incoming.port, Input)
      && MovedPort(g.nodeOutputPorts, r.0.nodeOutputPorts, id, g.objects[id].port, incoming.port, Output)
    ensures r.1 && incoming.PortUpdate? && !PortMoves(g.objects[id].port, incoming.port) ==>
      r.0.nodeInputPorts == g.nodeInputPorts && r.0.nodeOutputPorts == g.nodeOutputPorts
    ensures r.1 && incoming.LinkUpdate? && incoming.link.outputPort.Some?
            && incoming.link.outputPort != g.objects[id].link.outputPort ==>
      && id in Members(r.0.linksFromPort, incoming.link.outputPort.value)
      && (g.objects[id].link.outputPort.Some? ==>
            id !in Members(r.0.linksFromPort, g.objects[id].link.outputPort.value))
    ensures r.1 && incoming.LinkUpdate? && incoming.link.inputPort.Some?
            && incoming.link.inputPort != g.objects[id].link.inputPort ==>
      && id in Members(r.0.linksToPort, incoming.link.inputPort.value)
      && (g.objects[id].link.inputPort.Some? ==>
            id !in Members(r.0.linksToPort, g.objects[id].link.inputPort.value))
  {
    if id !in g.objects || DataIsEmpty(incoming) then
      (g, false)
    else
      match (g.objects[id], incoming)
      case (Node(stored), NodeUpdate(d)) =>
        if d == stored then (g, false)
        else
          var reindexed := ReindexNode(g, id, stored, d, n => OldWhitelisted(m, g.sinkWhitelist, n));
          (reindexed.(objects := g.objects[id := Node(JoinNode(stored, d))]), true)
      case (Port(stored), PortUpdate(d)) =>
        if d == stored then (g, false)
        else
          var reindexed := ReindexPort(g, id, stored, d);
          (reindexed.(objects := g.objects[id := Port(JoinPort(stored, d))]), true)
      case (Link(stored), LinkUpdate(d)) =>
        if d == stored then (g, false)
        else
          var reindexed := ReindexLink(g, id, stored, d);
          (reindexed.(objects := g.objects[id := Link(JoinLink(stored, d))]), true)
      case _ =>
        (g, false)
  }

  /** On a consistent graph an older node update decides sink membership exactly: after
      a `true` answer with a present, changed media class the node is a sink iff that
      class contains "Sink" and the older whitelist admits the incoming data; otherwise
      membership is kept. */
  lemma UpdateNodeSinkMembership(m: Matcher, g: LegacyGraph, id: Id, d: NodeData)
    requires IndexConsistent(g)
    requires id in g.objects && g.objects[id].Node?
    ensures var r := Update(m, g, id, NodeUpdate(d));
      if r.1 && d.mediaClass.Some? && d.mediaClass != g.objects[id].node.mediaClass
      then (id in r.0.sinks <==> IsSinkClass(d.mediaClass) && OldWhitelisted(m, g.sinkWhitelist, d))
      else (id in r.0.sinks <==> id in g.sinks)
  {
  }

  /** A `false` result never hides a change: whenever joining the data into a known object
      of the same kind would change what is stored, the update reports `true`. */
  lemma UpdateReportsEveryChange(m: Matcher, g: LegacyGraph, id: Id, incoming: PWObjectData)
    requires id in g.objects && SameKind(g.objects[id], incoming)
    requires Joined(g.objects[id], incoming) != g.objects[id]
    ensures Update(m, g, id, incoming).1
  {
    match (g.objects[id], incoming)
    case (Node(stored), NodeUpdate(d)) =>
      JoinAgreesWithUpdate(stored, d, EmptyPort, EmptyPort, EmptyLink, EmptyLink);
      JoinWithSelf(stored, EmptyPort, EmptyLink);
    case (Port(stored), PortUpdate(d)) =>
      JoinAgreesWithUpdate(EmptyNode, EmptyNode, stored, d, EmptyLink, EmptyLink);
      JoinWithSelf(EmptyNode, stored, EmptyLink);
    case (Link(stored), LinkUpdate(d)) =>
      JoinAgreesWithUpdate(EmptyNode, EmptyNode, EmptyPort, EmptyPort, stored, d);
      JoinWithSelf(EmptyNode, EmptyPort, stored);
  }

  /** The converse does not hold: `true` does not promise a change. Data that differs from
      the stored data only by missing fields is joined into the same object. */
  lemma TrueWithoutChange(m: Matcher, g: LegacyGraph, id: Id)
    requires id in g.objects && g.objects[id] == Node(EmptyNode.(name := Some("a"), nick := Some("b")))
    ensures var r := Update(m, g, id, NodeUpdate(EmptyNode.(name := Some("a"))));
      r.1 && r.0 == g
  {
    var stored := EmptyNode.(name := Some("a"), nick := Some("b"));
    var d := EmptyNode.(name := Some("a"));
    assert d != stored by { assert d.nick != stored.nick; }
    assert JoinNode(stored, d) == stored;
    assert g.objects[id := Node(stored)] == g.objects;
  }

  lemma UpdateKeepsConsistent(m: Matcher, g: LegacyGraph, id: Id, incoming: PWObjectData)
    requires IndexConsistent(g)
    ensures IndexConsistent(Update(m, g, id, incoming).0)
  {
    if id in g.objects && !DataIsEmpty(incoming) {
      match (g.objects[id], incoming)
      case (Node(stored), NodeUpdate(d)) =>
        if d != stored {
          ReindexNodeKeepsConsistent(g, id, d, JoinNode(stored, d), n => OldWhitelisted(m, g.sinkWhitelist, n));
        }
      case (Port(stored), PortUpdate(d)) =>
        if d != stored {
          ReindexPortKeepsConsistent(g, id, d, JoinPort(stored, d));
        }
      case (Link(stored), LinkUpdate(d)) =>
        if d != stored {
          ReindexLinkKeepsConsistent(g, id, d, JoinLink(stored, d));
        }
      case _ =>
    }
  }

  // ---------------------------------------------------------------- remove and traversal

  /** Older `PWGraph::remove`, the same code as the current one: it delegates to
      `GraphCore.Remove`, whose contract also states how the port and link indices
      forget the id. */
  function Remove(g: LegacyGraph, id: Id): (r: (LegacyGraph, Option<PWObject>))
    ensures id in g.objects ==> r.1 == Some(g.objects[id]) && r.0.objects == g.objects - {id}
    ensures id !in g.objects ==> r == (g, None)
    ensures r.0.sinks - {id} == g.sinks - {id}
    ensures id in g.objects && g.objects[id].Node? && IsSinkClass(g.objects[id].node.mediaClass) ==>
      id !in r.0.sinks
  {
    GraphCore.Remove(g, id)
  }

  lemma RemoveKeepsConsistent(g: LegacyGraph, id: Id)
    requires IndexConsistent(g)
    ensures IndexConsistent(Remove(g, id).0)
  {
    GraphCore.RemoveKeepsConsistent(g, id);
  }

  /** Older `get_active_sinks`, with the older node blacklist. */
  method GetActiveSinks(m: Matcher, g: LegacyGraph) returns (active: set<Id>)
    ensures active <= g.sinks
    ensures forall s :: s in active <==>
      s in g.sinks && Traversal.IsActive(g, d => OldNodeMatchesAny(m, g.nodeBlacklist, d), s)
  {
    active := Traversal.ActiveSinks(g, d => OldNodeMatchesAny(m, g.nodeBlacklist, d));
  }
}
