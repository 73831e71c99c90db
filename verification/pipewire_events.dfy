/** The pure pieces of the PipeWire event handlers (src/pipewire_connection/mod.rs) that
    turn PipeWire's property dictionaries and info events into graph data. */
module PipeWireEvents {
  import opened Base
  import opened GraphObject
  import opened GraphCore
  import Filter
  import PWGraph
  import Traversal

  /** `direction_from_string`: PipeWire's port direction property. */
  function DirectionFromString(text: string): (r: Option<Direction>)
    ensures r == Some(Output) <==> text == "out"
    ensures r == Some(Input) <==> text == "in"
    ensures r.None? <==> text != "out" && text != "in"
    ensures r != Some(OtherDirection)
  {
    if text == "out" then Some(Output)
    else if text == "in" then Some(Input)
    else None
  }

  /** The property text PipeWire uses for a port direction. */
  function DirectionName(d: Direction): Option<string>
  {
    match d
    case Input => Some("in")
    case Output => Some("out")
    case OtherDirection => None
  }

  /** Every direction PipeWire names is read back as that direction. */
  lemma DirectionNameRoundTrip(d: Direction)
    ensures DirectionName(d).Some? ==> DirectionFromString(DirectionName(d).value) == Some(d)
    ensures DirectionName(d).None? <==> d == OtherDirection
  {
  }

  /** The data of a link announced on the registry: its ports, and `active` set to
      `Some(false)` until an info event reports its state. */
  function RegisteredLink(inputPort: Option<Id>, outputPort: Option<Id>): (r: LinkData)
    ensures r.inputPort == inputPort && r.outputPort == outputPort
    ensures r.active == Some(false)
  {
    LinkData(inputPort, outputPort, Some(false))
  }

  /** The `active` field of a link info event: the new state when the event reports a
      state change (active exactly when the state is `Active`), otherwise absent. */
  function LinkInfoActive(stateChanged: bool, stateIsActive: bool): (r: Option<bool>)
    ensures r.None? <==> !stateChanged
    ensures r == Some(true) <==> stateChanged && stateIsActive
  {
    if stateChanged then Some(stateIsActive) else None
  }

  /** A link info event that reports no state change leaves the link's activity as stored. */
  lemma InfoWithoutStateKeepsActivity(stored: LinkData, inputPort: Option<Id>, outputPort: Option<Id>, stateIsActive: bool)
    ensures UpdateLink(stored, LinkData(inputPort, outputPort, LinkInfoActive(false, stateIsActive))).active == stored.active
  {
  }

  /** Registering a new link never creates an active link: every node is fed by exactly
      the same active links before and after the insertion. */
  lemma RegisteredLinkIsInactive(m: Filter.Matcher, g: PWGraph.PipeWireGraph, id: Id,
                                 inputPort: Option<Id>, outputPort: Option<Id>, n: Id)
    requires id !in g.objects
    ensures Traversal.ActiveLinksInto(PWGraph.Insert(m, g, id, Link(RegisteredLink(inputPort, outputPort))), n)
         == Traversal.ActiveLinksInto(g, n)
  {
    var r := PWGraph.Insert(m, g, id, Link(RegisteredLink(inputPort, outputPort)));
    assert r.nodeInputPorts == g.nodeInputPorts;
    forall e | e in Traversal.ActiveLinksInto(r, n)
      ensures e in Traversal.ActiveLinksInto(g, n)
    {
      var p, l :| p in Members(r.nodeInputPorts, n) && p in r.objects && r.objects[p].Port?
                  && l in Members(r.linksToPort, p) && l in r.objects && r.objects[l].Link?
                  && r.objects[l].link.active == Some(true) && r.objects[l].link.outputPort.Some?
                  && e == (l, r.objects[l].link.outputPort.value);
      assert l != id && p != id;
      assert l in Members(g.linksToPort, p);
    }
    forall e | e in Traversal.ActiveLinksInto(g, n)
      ensures e in Traversal.ActiveLinksInto(r, n)
    {
      var p, l :| p in Members(g.nodeInputPorts, n) && p in g.objects && g.objects[p].Port?
                  && l in Members(g.linksToPort, p) && l in g.objects && g.objects[l].Link?
                  && g.objects[l].link.active == Some(true) && g.objects[l].link.outputPort.Some?
                  && e == (l, g.objects[l].link.outputPort.value);
      assert l != id && p != id;
      assert r.objects[l] == g.objects[l] && r.objects[p] == g.objects[p];
      assert l in Members(r.linksToPort, p);
      assert p in Members(r.nodeInputPorts, n) && p in r.objects && r.objects[p].Port?
             && l in Members(r.linksToPort, p) && l in r.objects && r.objects[l].Link?
             && r.objects[l].link.active == Some(true) && r.objects[l].link.outputPort.Some?;
    }
  }
}
