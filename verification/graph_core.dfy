/** Index bookkeeping shared by both revisions of `PWGraph`
    (src/pipewire_connection/graph/mod.rs and the older src/pipewire_connection/graph.rs).
    Both keep the objects in a map by id plus five index structures, and both maintain
    them with the same code; only the filters and the update protocol differ, and
    those live in the revision modules. */
module GraphCore {
  import opened Base
  import opened GraphObject

  /** The graph, generic in the revision's sink-whitelist and node-blacklist filter types. */
  datatype Graph<SF, NF> = Graph(
    objects: map<Id, PWObject>,
    sinks: set<Id>,
    linksToPort: map<Id, set<Id>>,
    linksFromPort: map<Id, set<Id>>,
    nodeInputPorts: map<Id, set<Id>>,
    nodeOutputPorts: map<Id, set<Id>>,
    sinkWhitelist: seq<SF>,
    nodeBlacklist: seq<NF>)

  /** `PWGraph::new`: no objects, empty indices, the user's filters. */
  function NewGraph<SF, NF>(sinkWhitelist: seq<SF>, nodeBlacklist: seq<NF>): (g: Graph<SF, NF>)
    ensures g.objects == map[] && g.sinks == {}
    ensures forall k :: Members(g.linksToPort, k) == {} && Members(g.linksFromPort, k) == {}
    ensures forall k :: Members(g.nodeInputPorts, k) == {} && Members(g.nodeOutputPorts, k) == {}
    ensures g.sinkWhitelist == sinkWhitelist && g.nodeBlacklist == nodeBlacklist
  {
    Graph(map[], {}, map[], map[], map[], map[], sinkWhitelist, nodeBlacklist)
  }

  /** The set an index holds for `key`; a missing entry reads as empty, as every use in
      the source treats `None` and an empty set alike. */
  function Members(index: map<Id, set<Id>>, key: Id): set<Id>
  {
    if key in index then index[key] else {}
  }

  /** `index.entry(key).or_default().insert(id)` */
  function AddTo(index: map<Id, set<Id>>, key: Id, id: Id): (r: map<Id, set<Id>>)
    ensures Members(r, key) == Members(index, key) + {id}
    ensures forall k :: k != key ==> Members(r, k) == Members(index, k)
  {
    index[key := Members(index, key) + {id}]
  }

  /** `index.entry(key).or_default().remove(&id)` */
  function RemoveFrom(index: map<Id, set<Id>>, key: Id, id: Id): (r: map<Id, set<Id>>)
    ensures Members(r, key) == Members(index, key) - {id}
    ensures forall k :: k != key ==> Members(r, k) == Members(index, k)
  {
    index[key := Members(index, key) - {id}]
  }

  /** A media class qualifies a node as a sink candidate when it contains "Sink". */
  predicate IsSinkClass(mediaClass: Option<string>)
  {
    mediaClass.Some? && Contains(mediaClass.value, "Sink")
  }

  /** The indices agree with the stored objects: every sink is a node whose stored media
      class contains "Sink", and every link indexed under a port is a link whose stored
      input (resp. output) port is that port. */
  ghost predicate IndexConsistent<SF, NF>(g: Graph<SF, NF>)
  {
    SinksConsistent(g) && LinksToConsistent(g) && LinksFromConsistent(g)
  }

  ghost predicate SinksConsistent<SF, NF>(g: Graph<SF, NF>)
  {
    forall s :: s in g.sinks ==>
      s in g.objects && g.objects[s].Node? && IsSinkClass(g.objects[s].node.mediaClass)
  }

  ghost predicate LinksToConsistent<SF, NF>(g: Graph<SF, NF>)
  {
    forall p, l :: l in Members(g.linksToPort, p) ==>
      l in g.objects && g.objects[l].Link? && g.objects[l].link.inputPort == Some(p)
  }

  ghost predicate LinksFromConsistent<SF, NF>(g: Graph<SF, NF>)
  {
    forall p, l :: l in Members(g.linksFromPort, p) ==>
      l in g.objects && g.objects[l].Link? && g.objects[l].link.outputPort == Some(p)
  }

  lemma NewGraphIsConsistent<SF, NF>(sinkWhitelist: seq<SF>, nodeBlacklist: seq<NF>)
    ensures IndexConsistent(NewGraph(sinkWhitelist, nodeBlacklist))
  {
  }

  // ---------------------------------------------------------------- port and link indices

  /** Records port `id` as an input or output port of `node`; other directions are ignored. */
  function IndexPort<SF, NF>(g: Graph<SF, NF>, id: Id, node: Id, direction: Direction): (r: Graph<SF, NF>)
    ensures direction == Input ==> r == g.(nodeInputPorts := AddTo(g.nodeInputPorts, node, id))
    ensures direction == Output ==> r == g.(nodeOutputPorts := AddTo(g.nodeOutputPorts, node, id))
    ensures direction == OtherDirection ==> r == g
  {
    match direction
    case Input => g.(nodeInputPorts := AddTo(g.nodeInputPorts, node, id))
    case Output => g.(nodeOutputPorts := AddTo(g.nodeOutputPorts, node, id))
    case OtherDirection => g
  }

  /** Forgets port `id` as an input or output port of `node`. */
  function UnindexPort<SF, NF>(g: Graph<SF, NF>, id: Id, node: Id, direction: Direction): (r: Graph<SF, NF>)
    ensures direction == Input ==> r == g.(nodeInputPorts := RemoveFrom(g.nodeInputPorts, node, id))
    ensures direction == Output ==> r == g.(nodeOutputPorts := RemoveFrom(g.nodeOutputPorts, node, id))
    ensures direction == OtherDirection ==> r == g
  {
    match direction
    case Input => g.(nodeInputPorts := RemoveFrom(g.nodeInputPorts, node, id))
    case Output => g.(nodeOutputPorts := RemoveFrom(g.nodeOutputPorts, node, id))
    case OtherDirection => g
  }

  // ---------------------------------------------------------------- insert

  /** `PWGraph::insert` with the revision's whitelist test `whitelisted` (which already
      includes the "empty whitelist admits every sink" rule). Id conflicts are not
      handled by the source, so no freshness is demanded here. */
  function InsertWith<SF, NF>(g: Graph<SF, NF>, id: Id, obj: PWObject, whitelisted: NodeData -> bool): (r: Graph<SF, NF>)
    ensures r.objects == g.objects[id := obj]
    ensures r.sinkWhitelist == g.sinkWhitelist && r.nodeBlacklist == g.nodeBlacklist
    ensures obj.Node? ==>
      r.sinks == (if IsSinkClass(obj.node.mediaClass) && whitelisted(obj.node) then g.sinks + {id} else g.sinks)
    ensures !obj.Node? ==> r.sinks == g.sinks
    ensures obj.Port? && obj.port.nodeId.Some? && obj.port.direction == Some(Input) ==>
      Members(r.nodeInputPorts, obj.port.nodeId.value) == Members(g.nodeInputPorts, obj.port.nodeId.value) + {id}
    ensures obj.Port? && obj.port.nodeId.Some? && obj.port.direction == Some(Output) ==>
      Members(r.nodeOutputPorts, obj.port.nodeId.value) == Members(g.nodeOutputPorts, obj.port.nodeId.value) + {id}
    ensures !(obj.Port? && obj.port.nodeId.Some? && obj.port.direction == Some(Input)) ==>
      r.nodeInputPorts == g.nodeInputPorts
    ensures !(obj.Port? && obj.port.nodeId.Some? && obj.port.direction == Some(Output)) ==>
      r.nodeOutputPorts == g.nodeOutputPorts
    ensures obj.Link? && obj.link.outputPort.Some? ==>
      Members(r.linksFromPort, obj.link.outputPort.value) == Members(g.linksFromPort, obj.link.outputPort.value) + {id}
    ensures obj.Link? && obj.link.inputPort.Some? ==>
      Members(r.linksToPort, obj.link.inputPort.value) == Members(g.linksToPort, obj.link.inputPort.value) + {id}
    ensures !(obj.Link? && obj.link.outputPort.Some?) ==> r.linksFromPort == g.linksFromPort
    ensures !(obj.Link? && obj.link.inputPort.Some?) ==> r.linksToPort == g.linksToPort
    // only the entry of the node or port the object names changes
    ensures obj.Port? && obj.port.nodeId.Some? ==>
      forall k :: k != obj.port.nodeId.value ==>
        Members(r.nodeInputPorts, k) == Members(g.nodeInputPorts, k)
        && Members(r.nodeOutputPorts, k) == Members(g.nodeOutputPorts, k)
    ensures obj.Link? && obj.link.outputPort.Some? ==>
      forall k :: k != obj.link.outputPort.value ==> Members(r.linksFromPort, k) == Members(g.linksFromPort, k)
    ensures obj.Link? && obj.link.inputPort.Some? ==>
      forall k :: k != obj.link.inputPort.value ==> Members(r.linksToPort, k) == Members(g.linksToPort, k)
  {
    var indexed :=
      match obj
      case Node(d) =>
        if IsSinkClass(d.mediaClass) && whitelisted(d) then g.(sinks := g.sinks + {id}) else g
      case Port(d) =>
        if d.nodeId.Some? && d.direction.Some? then IndexPort(g, id, d.nodeId.value, d.direction.value) else g
      case Link(d) =>
        var g1 := if d.outputPort.Some? then g.(linksFromPort := AddTo(g.linksFromPort, d.outputPort.value, id)) else g;
        if d.inputPort.Some? then g1.(linksToPort := AddTo(g1.linksToPort, d.inputPort.value, id)) else g1;
    indexed.(objects := g.objects[id := obj])
  }

  /** Inserting under a fresh id keeps the indices consistent. */
  lemma InsertWithKeepsConsistent<SF, NF>(g: Graph<SF, NF>, id: Id, obj: PWObject, whitelisted: NodeData -> bool)
    requires IndexConsistent(g)
    requires id !in g.objects
    ensures IndexConsistent(InsertWith(g, id, obj, whitelisted))
  {
    var r := InsertWith(g, id, obj, whitelisted);
    forall p, l | l in Members(r.linksToPort, p)
      ensures l in r.objects && r.objects[l].Link? && r.objects[l].link.inputPort == Some(p)
    {
      if l != id {
        assert l in Members(g.linksToPort, p);
      }
    }
    forall p, l | l in Members(r.linksFromPort, p)
      ensures l in r.objects && r.objects[l].Link? && r.objects[l].link.outputPort == Some(p)
    {
      if l != id {
        assert l in Members(g.linksFromPort, p);
      }
    }
  }

  // ---------------------------------------------------------------- update: index maintenance

  /** Sink bookkeeping of a node update: only a present media class that differs from the
      stored one is acted on; the id leaves `sinks` if the old class was a sink class and
      joins it if the new class is one and `whitelisted` accepts the incoming data. */
  function ReindexNode<SF, NF>(g: Graph<SF, NF>, id: Id, stored: NodeData, incoming: NodeData,
                               whitelisted: NodeData -> bool): (r: Graph<SF, NF>)
    ensures r == g.(sinks := r.sinks)
    ensures incoming.mediaClass.None? || incoming.mediaClass == stored.mediaClass ==> r == g
    ensures incoming.mediaClass.Some? && incoming.mediaClass != stored.mediaClass ==>
      (IsSinkClass(incoming.mediaClass) && whitelisted(incoming) ==> id in r.sinks)
    ensures incoming.mediaClass.Some? && incoming.mediaClass != stored.mediaClass ==>
      (!(IsSinkClass(incoming.mediaClass) && whitelisted(incoming)) ==>
         (id in r.sinks <==> id in g.sinks && !IsSinkClass(stored.mediaClass)))
    ensures r.sinks - {id} == g.sinks - {id}
  {
    if stored.mediaClass != incoming.mediaClass && incoming.mediaClass.Some? then
      var kept := if IsSinkClass(stored.mediaClass) then g.sinks - {id} else g.sinks;
      g.(sinks := if IsSinkClass(incoming.mediaClass) && whitelisted(incoming) then kept + {id} else kept)
    else
      g
  }

  /** Port data that places the port on `node` in direction `direction`. */
  predicate PortAt(d: PortData, node: Id, direction: Direction)
  {
    d.nodeId == Some(node) && d.direction == Some(direction)
  }

  /** A port update the port indices act on: the incoming data has both a node id and a
      direction, and one of them differs from the stored value. */
  predicate PortMoves(stored: PortData, incoming: PortData)
  {
    && (stored.nodeId != incoming.nodeId || stored.direction != incoming.direction)
    && incoming.nodeId.Some? && incoming.direction.Some?
  }

  /** `after` is the `direction` port index `before` once port `id` has moved from where
      `stored` put it to where `incoming` puts it: other ids keep their places, and `id`
      is listed under a node iff `incoming` puts it there, or it was listed there and
      `stored` did not put it there. */
  predicate MovedPort(before: map<Id, set<Id>>, after: map<Id, set<Id>>, id: Id,
                      stored: PortData, incoming: PortData, direction: Direction)
  {
    && (forall n :: Members(after, n) - {id} == Members(before, n) - {id})
    && (forall n :: id in Members(after, n) <==>
          PortAt(incoming, n, direction) || (id in Members(before, n) && !PortAt(stored, n, direction)))
  }

  /** One direction's share of a port move: forget `id` under the stored node if the
      stored direction is `direction`, then list it under the incoming node if the
      incoming direction is `direction`. */
  function MovePortIn(index: map<Id, set<Id>>, id: Id, stored: PortData, incoming: PortData,
                      direction: Direction): (r: map<Id, set<Id>>)
    requires PortMoves(stored, incoming)
    ensures MovedPort(index, r, id, stored, incoming, direction)
  {
    var removed := if stored.nodeId.Some? && stored.direction == Some(direction)
                   then RemoveFrom(index, stored.nodeId.value, id) else index;
    if incoming.direction == Some(direction) then AddTo(removed, incoming.nodeId.value, id) else removed
  }

  /** Port-index bookkeeping of a port update: the id leaves the set of the node and
      direction the stored data names and joins the set the incoming data names. */
  function ReindexPort<SF, NF>(g: Graph<SF, NF>, id: Id, stored: PortData, incoming: PortData): (r: Graph<SF, NF>)
    ensures r == g.(nodeInputPorts := r.nodeInputPorts, nodeOutputPorts := r.nodeOutputPorts)
    ensures incoming.nodeId.None? || incoming.direction.None? ==> r == g
    ensures incoming.nodeId == stored.nodeId && incoming.direction == stored.direction ==> r == g
    ensures PortMoves(stored, incoming) ==>
      && MovedPort(g.nodeInputPorts, r.nodeInputPorts, id, stored, incoming, Input)
      && MovedPort(g.nodeOutputPorts, r.nodeOutputPorts, id, stored, incoming, Output)
  {
    if PortMoves(stored, incoming) then
      g.(nodeInputPorts := MovePortIn(g.nodeInputPorts, id, stored, incoming, Input),
         nodeOutputPorts := MovePortIn(g.nodeOutputPorts, id, stored, incoming, Output))
    else
      g
  }

  /** `after` is the port-to-links index `before` once link `id` has moved from
      `storedPort` to `incomingPort`: other ids keep their places, and `id` is listed under
      a port iff it is the incoming port, or it was listed there and that is not the
      stored port. */
  predicate MovedLink(before: map<Id, set<Id>>, after: map<Id, set<Id>>, id: Id,
                      storedPort: Option<Id>, incomingPort: Option<Id>)
  {
    && (forall p :: Members(after, p) - {id} == Members(before, p) - {id})
    && (forall p :: id in Members(after, p) <==>
          incomingPort == Some(p) || (id in Members(before, p) && storedPort != Some(p)))
  }

  /** Link-index bookkeeping of a link update: a present port that differs from the stored
      one moves the id from the old port's set to the new port's set. */
  function ReindexLink<SF, NF>(g: Graph<SF, NF>, id: Id, stored: LinkData, incoming: LinkData): (r: Graph<SF, NF>)
    ensures r == g.(linksToPort := r.linksToPort, linksFromPort := r.linksFromPort)
    ensures incoming.outputPort.None? || incoming.outputPort == stored.outputPort ==>
      r.linksFromPort == g.linksFromPort
    ensures incoming.inputPort.None? || incoming.inputPort == stored.inputPort ==>
      r.linksToPort == g.linksToPort
    ensures incoming.outputPort.Some? && incoming.outputPort != stored.outputPort ==>
      && id in Members(r.linksFromPort, incoming.outputPort.value)
      && (stored.outputPort.Some? ==> id !in Members(r.linksFromPort, stored.outputPort.value))
    ensures incoming.inputPort.Some? && incoming.inputPort != stored.inputPort ==>
      && id in Members(r.linksToPort, incoming.inputPort.value)
      && (stored.inputPort.Some? ==> id !in Members(r.linksToPort, stored.inputPort.value))
    ensures forall p :: Members(r.linksFromPort, p) - {id} == Members(g.linksFromPort, p) - {id}
    ensures forall p :: Members(r.linksToPort, p) - {id} == Members(g.linksToPort, p) - {id}
    ensures incoming.outputPort.Some? && incoming.outputPort != stored.outputPort ==>
      MovedLink(g.linksFromPort, r.linksFromPort, id, stored.outputPort, incoming.outputPort)
    ensures incoming.inputPort.Some? && incoming.inputPort != stored.inputPort ==>
      MovedLink(g.linksToPort, r.linksToPort, id, stored.inputPort, incoming.inputPort)
  {
    var g1 :=
      if stored.outputPort != incoming.outputPort && incoming.outputPort.Some? then
        var from := if stored.outputPort.Some? then RemoveFrom(g.linksFromPort, stored.outputPort.value, id)
                    else g.linksFromPort;
        g.(linksFromPort := AddTo(from, incoming.outputPort.value, id))
      else g;
    if stored.inputPort != incoming.inputPort && incoming.inputPort.Some? then
      var to := if stored.inputPort.Some? then RemoveFrom(g1.linksToPort, stored.inputPort.value, id)
                else g1.linksToPort;
      g1.(linksToPort := AddTo(to, incoming.inputPort.value, id))
    else g1
  }

  /** A node update that stores `merged` (whose media class follows the Some-overrides
      rule) after `ReindexNode` keeps the indices consistent. */
  lemma ReindexNodeKeepsConsistent<SF, NF>(g: Graph<SF, NF>, id: Id, incoming: NodeData, merged: NodeData,
                                          whitelisted: NodeData -> bool)
    requires IndexConsistent(g)
    requires id in g.objects && g.objects[id].Node?
    requires merged.mediaClass == Merge(g.objects[id].node.mediaClass, incoming.mediaClass)
    ensures IndexConsistent(ReindexNode(g, id, g.objects[id].node, incoming, whitelisted)
                              .(objects := g.objects[id := Node(merged)]))
  {
    var r := ReindexNode(g, id, g.objects[id].node, incoming, whitelisted).(objects := g.objects[id := Node(merged)]);
    forall s | s in r.sinks
      ensures s in r.objects && r.objects[s].Node? && IsSinkClass(r.objects[s].node.mediaClass)
    {
      if s != id {
        assert s in g.sinks;
      }
    }
    forall p, l | l in Members(r.linksToPort, p)
      ensures l in r.objects && r.objects[l].Link? && r.objects[l].link.inputPort == Some(p)
    {
      assert l in Members(g.linksToPort, p);
    }
    forall p, l | l in Members(r.linksFromPort, p)
      ensures l in r.objects && r.objects[l].Link? && r.objects[l].link.outputPort == Some(p)
    {
      assert l in Members(g.linksFromPort, p);
    }
  }

  /** A port update keeps the indices consistent, whatever it stores. */
  lemma ReindexPortKeepsConsistent<SF, NF>(g: Graph<SF, NF>, id: Id, incoming: PortData, merged: PortData)
    requires IndexConsistent(g)
    requires id in g.objects && g.objects[id].Port?
    ensures IndexConsistent(ReindexPort(g, id, g.objects[id].port, incoming)
                              .(objects := g.objects[id := Port(merged)]))
  {
    var r := ReindexPort(g, id, g.objects[id].port, incoming).(objects := g.objects[id := Port(merged)]);
    forall s | s in r.sinks
      ensures s in r.objects && r.objects[s].Node? && IsSinkClass(r.objects[s].node.mediaClass)
    {
      assert s in g.sinks;
    }
    forall p, l | l in Members(r.linksToPort, p)
      ensures l in r.objects && r.objects[l].Link? && r.objects[l].link.inputPort == Some(p)
    {
      assert l in Members(g.linksToPort, p);
    }
    forall p, l | l in Members(r.linksFromPort, p)
      ensures l in r.objects && r.objects[l].Link? && r.objects[l].link.outputPort == Some(p)
    {
      assert l in Members(g.linksFromPort, p);
    }
  }

  /** The sink part of `ReindexLinkKeepsConsistent`: the sink set is untouched. */
  lemma ReindexLinkKeepsSinks<SF, NF>(g: Graph<SF, NF>, r: Graph<SF, NF>, id: Id, incoming: LinkData, merged: LinkData)
    requires IndexConsistent(g)
    requires id in g.objects && g.objects[id].Link?
    requires r == ReindexLink(g, id, g.objects[id].link, incoming).(objects := g.objects[id := Link(merged)])
    ensures SinksConsistent(r)
  {
    assert r.sinks == g.sinks;
  }

  /** The input-port part of `ReindexLinkKeepsConsistent`. */
  lemma ReindexLinkKeepsLinksTo<SF, NF>(g: Graph<SF, NF>, r: Graph<SF, NF>, id: Id, incoming: LinkData, merged: LinkData)
    requires IndexConsistent(g)
    requires id in g.objects && g.objects[id].Link?
    requires merged.inputPort == Merge(g.objects[id].link.inputPort, incoming.inputPort)
    requires r == ReindexLink(g, id, g.objects[id].link, incoming).(objects := g.objects[id := Link(merged)])
    ensures LinksToConsistent(r)
  {
    var stored := g.objects[id].link;
    forall p, l | l in Members(r.linksToPort, p)
      ensures l in r.objects && r.objects[l].Link? && r.objects[l].link.inputPort == Some(p)
    {
      assert Members(r.linksToPort, p) - {id} == Members(g.linksToPort, p) - {id};
      if l == id && (incoming.inputPort.None? || incoming.inputPort == stored.inputPort) {
        assert r.linksToPort == g.linksToPort;
      }
    }
  }

  /** The output-port part of `ReindexLinkKeepsConsistent`. */
  lemma ReindexLinkKeepsLinksFrom<SF, NF>(g: Graph<SF, NF>, r: Graph<SF, NF>, id: Id, incoming: LinkData, merged: LinkData)
    requires IndexConsistent(g)
    requires id in g.objects && g.objects[id].Link?
    requires merged.outputPort == Merge(g.objects[id].link.outputPort, incoming.outputPort)
    requires r == ReindexLink(g, id, g.objects[id].link, incoming).(objects := g.objects[id := Link(merged)])
    ensures LinksFromConsistent(r)
  {
    var stored := g.objects[id].link;
    forall p, l | l in Members(r.linksFromPort, p)
      ensures l in r.objects && r.objects[l].Link? && r.objects[l].link.outputPort == Some(p)
    {
      assert Members(r.linksFromPort, p) - {id} == Members(g.linksFromPort, p) - {id};
      if l == id && (incoming.outputPort.None? || incoming.outputPort == stored.outputPort) {
        assert r.linksFromPort == g.linksFromPort;
      }
    }
  }

  /** A link update that stores `merged` (whose ports follow the Some-overrides rule)
      after `ReindexLink` keeps the indices consistent. */
  lemma ReindexLinkKeepsConsistent<SF, NF>(g: Graph<SF, NF>, id: Id, incoming: LinkData, merged: LinkData)
    requires IndexConsistent(g)
    requires id in g.objects && g.objects[id].Link?
    requires merged.inputPort == Merge(g.objects[id].link.inputPort, incoming.inputPort)
    requires merged.outputPort == Merge(g.objects[id].link.outputPort, incoming.outputPort)
    ensures IndexConsistent(ReindexLink(g, id, g.objects[id].link, incoming)
                              .(objects := g.objects[id := Link(merged)]))
  {
    var r := ReindexLink(g, id, g.objects[id].link, incoming).(objects := g.objects[id := Link(merged)]);
    ReindexLinkKeepsSinks(g, r, id, incoming, merged);
    ReindexLinkKeepsLinksTo(g, r, id, incoming, merged);
    ReindexLinkKeepsLinksFrom(g, r, id, incoming, merged);
  }

  // ---------------------------------------------------------------- remove

  /** `PWGraph::remove` (identical in both revisions): takes the object out and forgets it
      in the index its kind and stored data point at. Returns the removed object. */
  function Remove<SF, NF>(g: Graph<SF, NF>, id: Id): (r: (Graph<SF, NF>, Option<PWObject>))
    ensures id in g.objects ==> r.1 == Some(g.objects[id])
    ensures id !in g.objects ==> r.1 == None && r.0 == g
    ensures r.0.objects == g.objects - {id}
    ensures r.0.sinkWhitelist == g.sinkWhitelist && r.0.nodeBlacklist == g.nodeBlacklist
    ensures r.0.sinks - {id} == g.sinks - {id}
    ensures id in g.objects && g.objects[id].Node? && IsSinkClass(g.objects[id].node.mediaClass) ==>
      id !in r.0.sinks
    ensures id in g.objects && g.objects[id].Link? && g.objects[id].link.inputPort.Some? ==>
      Members(r.0.linksToPort, g.objects[id].link.inputPort.value)
        == Members(g.linksToPort, g.objects[id].link.inputPort.value) - {id}
    ensures id in g.objects && g.objects[id].Link? && g.objects[id].link.outputPort.Some? ==>
      Members(r.0.linksFromPort, g.objects[id].link.outputPort.value)
        == Members(g.linksFromPort, g.objects[id].link.outputPort.value) - {id}
    ensures forall p :: Members(r.0.linksToPort, p) - {id} == Members(g.linksToPort, p) - {id}
    ensures forall p :: Members(r.0.linksFromPort, p) - {id} == Members(g.linksFromPort, p) - {id}
    ensures id in g.objects && g.objects[id].Port? && g.objects[id].port.nodeId.Some?
            && g.objects[id].port.direction == Some(Input) ==>
      Members(r.0.nodeInputPorts, g.objects[id].port.nodeId.value)
        == Members(g.nodeInputPorts, g.objects[id].port.nodeId.value) - {id}
    ensures id in g.objects && g.objects[id].Port? && g.objects[id].port.nodeId.Some?
            && g.objects[id].port.direction == Some(Output) ==>
      Members(r.0.nodeOutputPorts, g.objects[id].port.nodeId.value)
        == Members(g.nodeOutputPorts, g.objects[id].port.nodeId.value) - {id}
    // only a removed port touches the node port sets, and only its own node's entry
    ensures !(id in g.objects && g.objects[id].Port?) ==>
      r.0.nodeInputPorts == g.nodeInputPorts && r.0.nodeOutputPorts == g.nodeOutputPorts
    ensures forall n :: Members(r.0.nodeInputPorts, n) - {id} == Members(g.nodeInputPorts, n) - {id}
    ensures forall n :: Members(r.0.nodeOutputPorts, n) - {id} == Members(g.nodeOutputPorts, n) - {id}
    ensures forall n :: !(id in g.objects && g.objects[id].Port? && g.objects[id].port.nodeId == Some(n)) ==>
      Members(r.0.nodeInputPorts, n) == Members(g.nodeInputPorts, n)
      && Members(r.0.nodeOutputPorts, n) == Members(g.nodeOutputPorts, n)
    // only a removed link touches the link sets, and only the entries of its own ports
    ensures !(id in g.objects && g.objects[id].Link?) ==>
      r.0.linksToPort == g.linksToPort && r.0.linksFromPort == g.linksFromPort
    ensures forall p :: !(id in g.objects && g.objects[id].Link? && g.objects[id].link.inputPort == Some(p)) ==>
      Members(r.0.linksToPort, p) == Members(g.linksToPort, p)
    ensures forall p :: !(id in g.objects && g.objects[id].Link? && g.objects[id].link.outputPort == Some(p)) ==>
      Members(r.0.linksFromPort, p) == Members(g.linksFromPort, p)
  {
    if id !in g.objects then
      (g, None)
    else
      var obj := g.objects[id];
      var unindexed :=
        match obj
        case Node(d) => if IsSinkClass(d.mediaClass) then g.(sinks := g.sinks - {id}) else g
        case Port(d) =>
          if d.nodeId.Some? && d.direction.Some? then UnindexPort(g, id, d.nodeId.value, d.direction.value) else g
        case Link(d) =>
          var g1 := if d.outputPort.Some? then g.(linksFromPort := RemoveFrom(g.linksFromPort, d.outputPort.value, id)) else g;
          if d.inputPort.Some? then g1.(linksToPort := RemoveFrom(g1.linksToPort, d.inputPort.value, id)) else g1;
      (unindexed.(objects := g.objects - {id}), Some(obj))
  }

  /** Removal keeps the indices consistent and leaves the removed id in none of them. */
  lemma RemoveKeepsConsistent<SF, NF>(g: Graph<SF, NF>, id: Id)
    requires IndexConsistent(g)
    ensures IndexConsistent(Remove(g, id).0)
    ensures id !in Remove(g, id).0.sinks
    ensures forall p :: id !in Members(Remove(g, id).0.linksToPort, p) && id !in Members(Remove(g, id).0.linksFromPort, p)
  {
    RemoveKeepsSinks(g, id);
    RemoveKeepsLinksTo(g, id);
    RemoveKeepsLinksFrom(g, id);
  }

  lemma RemoveKeepsSinks<SF, NF>(g: Graph<SF, NF>, id: Id)
    requires IndexConsistent(g)
    ensures forall s :: s in Remove(g, id).0.sinks ==>
      s in Remove(g, id).0.objects && Remove(g, id).0.objects[s].Node?
      && IsSinkClass(Remove(g, id).0.objects[s].node.mediaClass)
    ensures id !in Remove(g, id).0.sinks
  {
    var r := Remove(g, id).0;
    forall s | s in r.sinks
      ensures s in r.objects && r.objects[s].Node? && IsSinkClass(r.objects[s].node.mediaClass)
    {
      assert s in g.sinks;
    }
  }

  lemma RemoveKeepsLinksTo<SF, NF>(g: Graph<SF, NF>, id: Id)
    requires IndexConsistent(g)
    ensures forall p, l :: l in Members(Remove(g, id).0.linksToPort, p) ==>
      l in Remove(g, id).0.objects && Remove(g, id).0.objects[l].Link?
      && Remove(g, id).0.objects[l].link.inputPort == Some(p)
    ensures forall p :: id !in Members(Remove(g, id).0.linksToPort, p)
  {
    var r := Remove(g, id).0;
    forall p, l | l in Members(r.linksToPort, p)
      ensures l in r.objects && r.objects[l].Link? && r.objects[l].link.inputPort == Some(p)
    {
      assert Members(r.linksToPort, p) - {id} == Members(g.linksToPort, p) - {id};
    }
  }

  lemma RemoveKeepsLinksFrom<SF, NF>(g: Graph<SF, NF>, id: Id)
    requires IndexConsistent(g)
    ensures forall p, l :: l in Members(Remove(g, id).0.linksFromPort, p) ==>
      l in Remove(g, id).0.objects && Remove(g, id).0.objects[l].Link?
      && Remove(g, id).0.objects[l].link.outputPort == Some(p)
    ensures forall p :: id !in Members(Remove(g, id).0.linksFromPort, p)
  {
    var r := Remove(g, id).0;
    forall p, l | l in Members(r.linksFromPort, p)
      ensures l in r.objects && r.objects[l].Link? && r.objects[l].link.outputPort == Some(p)
    {
      assert Members(r.linksFromPort, p) - {id} == Members(g.linksFromPort, p) - {id};
    }
  }
}
