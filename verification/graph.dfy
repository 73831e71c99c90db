/** The current revision of the PipeWire graph (src/pipewire_connection/graph/mod.rs):
    insert, update and remove over the shared index structures, with the sink whitelist
    and node blacklist of module Filter, plus the daemon's "should inhibit idle" bit. */
module PWGraph {
  import opened Base
  import opened GraphObject
  import opened Filter
  import opened GraphCore
  import Traversal

  type PipeWireGraph = Graph<SinkFilter, NodeFilter>

  /** The whitelist admits a sink candidate when it is empty or one of its filters matches. */
  predicate Whitelisted(m: Matcher, whitelist: seq<SinkFilter>, d: NodeData)
  {
    |whitelist| == 0 || SinkMatchesAny(m, whitelist, d)
  }

  /** The blacklist excludes a node when one of its filters matches (never, when empty). */
  predicate Blacklisted(m: Matcher, blacklist: seq<NodeFilter>, d: NodeData)
  {
    NodeMatchesAny(m, blacklist, d)
  }

  /** `PWGraph::insert`. */
  function Insert(m: Matcher, g: PipeWireGraph, id: Id, obj: PWObject): (r: PipeWireGraph)
    ensures r.objects == g.objects[id := obj]
    ensures obj.Node? ==>
      (id in r.sinks <==>
         id in g.sinks
         || (&& obj.node.mediaClass.Some?
             && Contains(obj.node.mediaClass.value, "Sink")
             && (|g.sinkWhitelist| == 0
                 || exists i :: 0 <= i < |g.sinkWhitelist| && SinkFilterMatches(m, g.sinkWhitelist[i], obj.node))))
    ensures r.sinks - {id} == g.sinks - {id}
    ensures obj.Port? && obj.port.nodeId.Some? && obj.port.direction == Some(Input) ==>
      id in Members(r.nodeInputPorts, obj.port.nodeId.value)
    ensures obj.Port? && obj.port.nodeId.Some? && obj.port.direction == Some(Output) ==>
      id in Members(r.nodeOutputPorts, obj.port.nodeId.value)
    ensures obj.Link? && obj.link.outputPort.Some? ==> id in Members(r.linksFromPort, obj.link.outputPort.value)
    ensures obj.Link? && obj.link.inputPort.Some? ==> id in Members(r.linksToPort, obj.link.inputPort.value)
  {
    InsertWith(g, id, obj, d => Whitelisted(m, g.sinkWhitelist, d))
  }

  lemma InsertKeepsConsistent(m: Matcher, g: PipeWireGraph, id: Id, obj: PWObject)
    requires IndexConsistent(g)
    requires id !in g.objects
    ensures IndexConsistent(Insert(m, g, id, obj))
  {
    InsertWithKeepsConsistent(g, id, obj, d => Whitelisted(m, g.sinkWhitelist, d));
  }

  /** Whether an update was refused (the source returns `false`) or carried out. The
      source's success value is the result of `NodeData::update` and friends, which
      return nothing, so no boolean is attached to `Applied`. */
  datatype UpdateOutcome = Rejected | Applied

  /** `PWGraph::update`. */
  function Update(m: Matcher, g: PipeWireGraph, id: Id, incoming: PWObjectData): (r: (PipeWireGraph, UpdateOutcome))
    ensures r.1 == Rejected <==> id !in g.objects || !SameKind(g.objects[id], incoming)
    ensures r.1 == Rejected ==> r.0 == g
    ensures r.0.sinkWhitelist == g.sinkWhitelist && r.0.nodeBlacklist == g.nodeBlacklist
    ensures r.1 == Applied && incoming.NodeUpdate? ==>
      r.0.objects == g.objects[id := Node(UpdateNode(g.objects[id].node, incoming.node))]
    ensures r.1 == Applied && incoming.PortUpdate? ==>
      r.0.objects == g.objects[id := Port(UpdatePort(g.objects[id].port, incoming.port))]
    ensures r.1 == Applied && incoming.LinkUpdate? ==>
      r.0.objects == g.objects[id := Link(UpdateLink(g.objects[id].link, incoming.link))]
    ensures r.0.sinks - {id} == g.sinks - {id}
    ensures r.1 == Applied && incoming.NodeUpdate? && incoming.node.mediaClass.Some?
            && incoming.node.mediaClass != g.objects[id].node.mediaClass
            && IsSinkClass(incoming.node.mediaClass) && Whitelisted(m, g.sinkWhitelist, incoming.node) ==>
      id in r.0.sinks
    ensures !incoming.NodeUpdate? || incoming.node.mediaClass.None? ==> r.0.sinks == g.sinks
    ensures !incoming.LinkUpdate? ==> r.0.linksToPort == g.linksToPort && r.0.linksFromPort == g.linksFromPort
    ensures !incoming.PortUpdate? ==>
      r.0.nodeInputPorts == g.nodeInputPorts && r.0.nodeOutputPorts == g.nodeOutputPorts
    ensures r.1 == Applied && incoming.PortUpdate? && PortMoves(g.objects[id].port, incoming.port) ==>
      && MovedPort(g.nodeInputPorts, r.0.nodeInputPorts, id, g.objects[id].port, incoming.port, Input)
      && MovedPort(g.nodeOutputPorts, r.0.nodeOutputPorts, id, g.objects[id].port, incoming.port, Output)
    ensures r.1 == Applied && incoming.PortUpdate? && !PortMoves(g.objects[id].port, incoming.port) ==>
      r.0.nodeInputPorts == g.nodeInputPorts && r.0.nodeOutputPorts == g.nodeOutputPorts
    ensures r.1 == Applied && incoming.LinkUpdate? && incoming.link.outputPort.Some?
            && incoming.link.outputPort != g.objects[id].link.outputPort ==>
      && id in Members(r.0.linksFromPort, incoming.link.outputPort.value)
      && (g.objects[id].link.outputPort.Some? ==>
            id !in Members(r.0.linksFromPort, g.objects[id].link.outputPort.value))
    ensures r.1 == Applied && incoming.LinkUpdate? && incoming.link.inputPort.Some?
            && incoming.link.inputPort != g.objects[id].link.inputPort ==>
      && id in Members(r.0.linksToPort, incoming.link.inputPort.value)
      && (g.objects[id].link.inputPort.Some? ==>
            id !in Members(r.0.linksToPort, g.objects[id].link.inputPort.value))
    // a link update touches the link sets only for this id, and only for a changed port
    ensures forall p :: Members(r.0.linksFromPort, p) - {id} == Members(g.linksFromPort, p) - {id}
    ensures forall p :: Members(r.0.linksToPort, p) - {id} == Members(g.linksToPort, p) - {id}
    ensures r.1 == Applied && incoming.LinkUpdate? && incoming.link.outputPort == g.objects[id].link.outputPort ==>
      r.0.linksFromPort == g.linksFromPort
    ensures r.1 == Applied && incoming.LinkUpdate? && incoming.link.inputPort == g.objects[id].link.inputPort ==>
      r.0.linksToPort == g.linksToPort
    ensures r.1 == Applied && incoming.LinkUpdate? && incoming.link.outputPort.Some?
            && incoming.link.outputPort != g.objects[id].link.outputPort ==>
      MovedLink(g.linksFromPort, r.0.linksFromPort, id, g.objects[id].link.outputPort, incoming.link.outputPort)
    ensures r.1 == Applied && incoming.LinkUpdate? && incoming.link.inputPort.Some?
            && incoming.link.inputPort != g.objects[id].link.inputPort ==>
      MovedLink(g.linksToPort, r.0.linksToPort, id, g.objects[id].link.inputPort, incoming.link.inputPort)
    ensures incoming.LinkUpdate? && incoming.link.outputPort.None? ==>
      r.0.linksFromPort == g.linksFromPort
      && (r.1 == Applied ==> r.0.objects[id].link.outputPort == g.objects[id].link.outputPort)
    ensures incoming.LinkUpdate? && incoming.link.inputPort.None? ==>
      r.0.linksToPort == g.linksToPort
      && (r.1 == Applied ==> r.0.objects[id].link.inputPort == g.objects[id].link.inputPort)
  {
    if id !in g.objects then
      (g, Rejected)
    else
      match (g.objects[id], incoming)
      case (Node(stored), NodeUpdate(d)) =>
        var reindexed := ReindexNode(g, id, stored, d, n => Whitelisted(m, g.sinkWhitelist, n));
        (reindexed.(objects := g.objects[id := Node(UpdateNode(stored, d))]), Applied)
      case (Port(stored), PortUpdate(d)) =>
        var reindexed := ReindexPort(g, id, stored, d);
        (reindexed.(objects := g.objects[id := Port(UpdatePort(stored, d))]), Applied)
      case (Link(stored), LinkUpdate(d)) =>
        var reindexed := ReindexLink(g, id, stored, d);
        (reindexed.(objects := g.objects[id := Link(UpdateLink(stored, d))]), Applied)
      case _ =>
        (g, Rejected)
  }

  lemma UpdateKeepsConsistent(m: Matcher, g: PipeWireGraph, id: Id, incoming: PWObjectData)
    requires IndexConsistent(g)
    ensures IndexConsistent(Update(m, g, id, incoming).0)
  {
    if id in g.objects {
      match (g.objects[id], incoming)
      case (Node(stored), NodeUpdate(d)) =>
        ReindexNodeKeepsConsistent(g, id, d, UpdateNode(stored, d), n => Whitelisted(m, g.sinkWhitelist, n));
      case (Port(stored), PortUpdate(d)) =>
        ReindexPortKeepsConsistent(g, id, d, UpdatePort(stored, d));
      case (Link(stored), LinkUpdate(d)) =>
        ReindexLinkKeepsConsistent(g, id, d, UpdateLink(stored, d));
      case _ =>
    }
  }

  /** On a consistent graph a node update decides sink membership exactly: a present,
      changed media class makes the node a sink iff it contains "Sink" and the whitelist
      admits the incoming data; otherwise membership is kept. */
  lemma UpdateNodeSinkMembership(m: Matcher, g: PipeWireGraph, id: Id, d: NodeData)
    requires IndexConsistent(g)
    requires id in g.objects && g.objects[id].Node?
    ensures var r := Update(m, g, id, NodeUpdate(d)).0;
      if d.mediaClass.Some? && d.mediaClass != g.objects[id].node.mediaClass
      then (id in r.sinks <==> IsSinkClass(d.mediaClass) && Whitelisted(m, g.sinkWhitelist, d))
      else (id in r.sinks <==> id in g.sinks)
  {
  }

  /** `PWGraph::remove`, which the older revision shares verbatim. */
  function Remove(g: PipeWireGraph, id: Id): (r: (PipeWireGraph, Option<PWObject>))
    ensures id in g.objects ==> r.1 == Some(g.objects[id]) && r.0.objects == g.objects - {id}
    ensures id !in g.objects ==> r == (g, None)
    ensures r.0.sinks - {id} == g.sinks - {id}
    ensures id in g.objects && g.objects[id].Node? && IsSinkClass(g.objects[id].node.mediaClass) ==>
      id !in r.0.sinks
  {
    GraphCore.Remove(g, id)
  }

  lemma RemoveKeepsConsistent(g: PipeWireGraph, id: Id)
    requires IndexConsistent(g)
    ensures IndexConsistent(Remove(g, id).0)
    ensures id !in Remove(g, id).0.sinks
    ensures forall p :: id !in Members(Remove(g, id).0.linksToPort, p) && id !in Members(Remove(g, id).0.linksFromPort, p)
  {
    GraphCore.RemoveKeepsConsistent(g, id);
  }

  /** `get_active_sinks`. */
  method GetActiveSinks(m: Matcher, g: PipeWireGraph) returns (active: set<Id>)
    ensures active <= g.sinks
    ensures forall s :: s in active <==> s in g.sinks && Traversal.IsActive(g, d => Blacklisted(m, g.nodeBlacklist, d), s)
  {
    active := Traversal.ActiveSinks(g, d => Blacklisted(m, g.nodeBlacklist, d));
  }

  /** The daemon inhibits idling exactly when some sink is active
      (src/pipewire_connection/mod.rs:142). */
  method ShouldInhibitIdle(m: Matcher, g: PipeWireGraph) returns (inhibit: bool)
    ensures inhibit <==> exists s :: s in g.sinks && Traversal.IsActive(g, d => Blacklisted(m, g.nodeBlacklist, d), s)
  {
    var active := GetActiveSinks(m, g);
    inhibit := active != {};
    if !inhibit {
      assert forall s :: s in g.sinks ==> !Traversal.IsActive(g, d => Blacklisted(m, g.nodeBlacklist, d), s);
    } else {
      var s :| s in active;
    }
  }
}
