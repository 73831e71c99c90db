/** The per-object records of the PipeWire graph (src/pipewire_connection/graph/object.rs).
    Every field is optional: an object is first registered with partial data and is
    filled in by later info events, whose `Some` fields replace the stored ones. */
module GraphObject {
  import opened Base

  /** PipeWire object id. */
  type Id = u32

  /** `spa::Direction` is an open C enum in the bindings; `OtherDirection` stands for
      the values the source's `_ => {}` arms ignore. */
  datatype Direction = Input | Output | OtherDirection

  datatype NodeData = NodeData(
    name: Option<string>,
    appName: Option<string>,
    description: Option<string>,
    nick: Option<string>,
    mediaClass: Option<string>,
    mediaRole: Option<string>,
    mediaSoftware: Option<string>)

  datatype PortData = PortData(
    name: Option<string>,
    nodeId: Option<Id>,
    direction: Option<Direction>,
    isTerminal: Option<bool>)

  datatype LinkData = LinkData(
    inputPort: Option<Id>,
    outputPort: Option<Id>,
    active: Option<bool>)

  /** Data of any tracked kind, as carried by an update event. */
  datatype PWObjectData = NodeUpdate(node: NodeData) | PortUpdate(port: PortData) | LinkUpdate(link: LinkData)

  /** A stored graph object. The PipeWire proxy and listener it owns are not modelled. */
  datatype PWObject = Node(node: NodeData) | Port(port: PortData) | Link(link: LinkData)

  const EmptyNode := NodeData(None, None, None, None, None, None, None)
  const EmptyPort := PortData(None, None, None, None)
  const EmptyLink := LinkData(None, None, None)

  /** The field rule shared by every update: a `Some` in the incoming data replaces the
      current value, a `None` keeps it. */
  function Merge<T>(current: Option<T>, incoming: Option<T>): Option<T>
  {
    if incoming.Some? then incoming else current
  }

  /** The laws every record update inherits: a present value wins, an absent one keeps
      the stored value, nothing is ever cleared, and merging is idempotent. */
  lemma MergeLaws<T>(current: Option<T>, incoming: Option<T>)
    ensures incoming.Some? ==> Merge(current, incoming) == incoming
    ensures incoming.None? ==> Merge(current, incoming) == current
    ensures Merge(current, incoming).Some? <==> current.Some? || incoming.Some?
    ensures Merge(Merge(current, incoming), incoming) == Merge(current, incoming)
  {
  }

  // ---------------------------------------------------------------- NodeData

  /** "Pretty" node name: description, else nick, else name. */
  function NodeName(d: NodeData): (r: Option<string>)
    ensures d.description.Some? ==> r == d.description
    ensures d.description.None? && d.nick.Some? ==> r == d.nick
    ensures d.description.None? && d.nick.None? ==> r == d.name
    ensures r.None? <==> d.description.None? && d.nick.None? && d.name.None?
  {
    if d.description.Some? then d.description
    else if d.nick.Some? then d.nick
    else d.name
  }

  /** `get_name` never looks at the application name or the media fields. */
  lemma NodeNameIgnoresOtherFields(d: NodeData, appName: Option<string>, mediaClass: Option<string>,
                                   mediaRole: Option<string>, mediaSoftware: Option<string>)
    ensures NodeName(d.(appName := appName, mediaClass := mediaClass, mediaRole := mediaRole,
                        mediaSoftware := mediaSoftware)) == NodeName(d)
  {
  }

  predicate NodeIsEmpty(d: NodeData)
  {
    d.name.None? && d.appName.None? && d.description.None? && d.nick.None?
    && d.mediaClass.None? && d.mediaRole.None? && d.mediaSoftware.None?
  }

  lemma NodeIsEmptyIffNoData(d: NodeData)
    ensures NodeIsEmpty(d) <==> d == EmptyNode
  {
  }

  function UpdateNode(current: NodeData, incoming: NodeData): NodeData
  {
    NodeData(
      Merge(current.name, incoming.name),
      Merge(current.appName, incoming.appName),
      Merge(current.description, incoming.description),
      Merge(current.nick, incoming.nick),
      Merge(current.mediaClass, incoming.mediaClass),
      Merge(current.mediaRole, incoming.mediaRole),
      Merge(current.mediaSoftware, incoming.mediaSoftware))
  }

  /** Fields present in `incoming` win, absent ones keep the stored value, and no field is
      ever cleared: afterwards a field is present iff it was present before or in `incoming`. */
  lemma UpdateNodeLaws(current: NodeData, incoming: NodeData)
    ensures incoming.name.Some? ==> UpdateNode(current, incoming).name == incoming.name
    ensures incoming.name.None? ==> UpdateNode(current, incoming).name == current.name
    ensures incoming.appName.Some? ==> UpdateNode(current, incoming).appName == incoming.appName
    ensures incoming.appName.None? ==> UpdateNode(current, incoming).appName == current.appName
    ensures incoming.description.Some? ==> UpdateNode(current, incoming).description == incoming.description
    ensures incoming.description.None? ==> UpdateNode(current, incoming).description == current.description
    ensures incoming.nick.Some? ==> UpdateNode(current, incoming).nick == incoming.nick
    ensures incoming.nick.None? ==> UpdateNode(current, incoming).nick == current.nick
    ensures incoming.mediaClass.Some? ==> UpdateNode(current, incoming).mediaClass == incoming.mediaClass
    ensures incoming.mediaClass.None? ==> UpdateNode(current, incoming).mediaClass == current.mediaClass
    ensures incoming.mediaRole.Some? ==> UpdateNode(current, incoming).mediaRole == incoming.mediaRole
    ensures incoming.mediaRole.None? ==> UpdateNode(current, incoming).mediaRole == current.mediaRole
    ensures incoming.mediaSoftware.Some? ==> UpdateNode(current, incoming).mediaSoftware == incoming.mediaSoftware
    ensures incoming.mediaSoftware.None? ==> UpdateNode(current, incoming).mediaSoftware == current.mediaSoftware
    ensures UpdateNode(current, incoming).name.Some? <==> current.name.Some? || incoming.name.Some?
    ensures UpdateNode(current, incoming).appName.Some? <==> current.appName.Some? || incoming.appName.Some?
    ensures UpdateNode(current, incoming).description.Some? <==> current.description.Some? || incoming.description.Some?
    ensures UpdateNode(current, incoming).nick.Some? <==> current.nick.Some? || incoming.nick.Some?
    ensures UpdateNode(current, incoming).mediaClass.Some? <==> current.mediaClass.Some? || incoming.mediaClass.Some?
    ensures UpdateNode(current, incoming).mediaRole.Some? <==> current.mediaRole.Some? || incoming.mediaRole.Some?
    ensures UpdateNode(current, incoming).mediaSoftware.Some? <==> current.mediaSoftware.Some? || incoming.mediaSoftware.Some?
    ensures NodeIsEmpty(UpdateNode(current, incoming)) <==> NodeIsEmpty(current) && NodeIsEmpty(incoming)
  {
  }

  lemma UpdateNodeEmptyIsIdentity(current: NodeData, incoming: NodeData)
    requires NodeIsEmpty(incoming)
    ensures UpdateNode(current, incoming) == current
  {
  }

  lemma UpdateNodeIdempotent(current: NodeData, incoming: NodeData)
    ensures UpdateNode(UpdateNode(current, incoming), incoming) == UpdateNode(current, incoming)
  {
  }

  /** Updating an empty record with `incoming` yields `incoming` itself. */
  lemma UpdateEmptyNode(incoming: NodeData)
    ensures UpdateNode(EmptyNode, incoming) == incoming
  {
  }

  // ---------------------------------------------------------------- PortData

  predicate PortIsEmpty(d: PortData)
  {
    d.name.None? && d.nodeId.None? && d.direction.None? && d.isTerminal.None?
  }

  lemma PortIsEmptyIffNoData(d: PortData)
    ensures PortIsEmpty(d) <==> d == EmptyPort
  {
  }

  function UpdatePort(current: PortData, incoming: PortData): PortData
  {
    PortData(
      Merge(current.name, incoming.name),
      Merge(current.nodeId, incoming.nodeId),
      Merge(current.direction, incoming.direction),
      Merge(current.isTerminal, incoming.isTerminal))
  }

  lemma UpdatePortLaws(current: PortData, incoming: PortData)
    ensures incoming.name.Some? ==> UpdatePort(current, incoming).name == incoming.name
    ensures incoming.name.None? ==> UpdatePort(current, incoming).name == current.name
    ensures incoming.nodeId.Some? ==> UpdatePort(current, incoming).nodeId == incoming.nodeId
    ensures incoming.nodeId.None? ==> UpdatePort(current, incoming).nodeId == current.nodeId
    ensures incoming.direction.Some? ==> UpdatePort(current, incoming).direction == incoming.direction
    ensures incoming.direction.None? ==> UpdatePort(current, incoming).direction == current.direction
    ensures incoming.isTerminal.Some? ==> UpdatePort(current, incoming).isTerminal == incoming.isTerminal
    ensures incoming.isTerminal.None? ==> UpdatePort(current, incoming).isTerminal == current.isTerminal
    ensures PortIsEmpty(incoming) ==> UpdatePort(current, incoming) == current
    ensures UpdatePort(UpdatePort(current, incoming), incoming) == UpdatePort(current, incoming)
    ensures PortIsEmpty(UpdatePort(current, incoming)) <==> PortIsEmpty(current) && PortIsEmpty(incoming)
  {
  }

  // ---------------------------------------------------------------- LinkData

  predicate LinkIsEmpty(d: LinkData)
  {
    d.inputPort.None? && d.outputPort.None? && d.active.None?
  }

  lemma LinkIsEmptyIffNoData(d: LinkData)
    ensures LinkIsEmpty(d) <==> d == EmptyLink
  {
  }

  function UpdateLink(current: LinkData, incoming: LinkData): LinkData
  {
    LinkData(
      Merge(current.inputPort, incoming.inputPort),
      Merge(current.outputPort, incoming.outputPort),
      Merge(current.active, incoming.active))
  }

  lemma UpdateLinkLaws(current: LinkData, incoming: LinkData)
    ensures incoming.inputPort.Some? ==> UpdateLink(current, incoming).inputPort == incoming.inputPort
    ensures incoming.inputPort.None? ==> UpdateLink(current, incoming).inputPort == current.inputPort
    ensures incoming.outputPort.Some? ==> UpdateLink(current, incoming).outputPort == incoming.outputPort
    ensures incoming.outputPort.None? ==> UpdateLink(current, incoming).outputPort == current.outputPort
    ensures incoming.active.Some? ==> UpdateLink(current, incoming).active == incoming.active
    ensures incoming.active.None? ==> UpdateLink(current, incoming).active == current.active
    ensures LinkIsEmpty(incoming) ==> UpdateLink(current, incoming) == current
    ensures UpdateLink(UpdateLink(current, incoming), incoming) == UpdateLink(current, incoming)
    ensures LinkIsEmpty(UpdateLink(current, incoming)) <==> LinkIsEmpty(current) && LinkIsEmpty(incoming)
  {
  }

  // ---------------------------------------------------------------- PWObjectData

  function DataIsEmpty(d: PWObjectData): (r: bool)
    ensures d.NodeUpdate? ==> (r <==> d.node == EmptyNode)
    ensures d.PortUpdate? ==> (r <==> d.port == EmptyPort)
    ensures d.LinkUpdate? ==> (r <==> d.link == EmptyLink)
  {
    match d
    case NodeUpdate(n) => NodeIsEmpty(n)
    case PortUpdate(p) => PortIsEmpty(p)
    case LinkUpdate(l) => LinkIsEmpty(l)
  }

  /** The update data is of the stored object's kind. */
  predicate SameKind(obj: PWObject, incoming: PWObjectData)
  {
    (obj.Node? && incoming.NodeUpdate?) || (obj.Port? && incoming.PortUpdate?) || (obj.Link? && incoming.LinkUpdate?)
  }
}
