/** The upstream search behind `get_active_sinks` and `check_node_active`, the same code in
    both revisions (src/pipewire_connection/graph/mod.rs:369-501 and
    src/pipewire_connection/graph.rs:628-753). Starting at a sink, the search walks
    against the audio flow: from a node to its input ports, to the active links into
    them, to the output ports those links come from, to the nodes owning those ports.
    A node that has no input ports at all is a client that plays audio; reaching one
    through non-blacklisted nodes makes the sink active.

    The search is a depth-first search sharing one visited set across siblings, and its
    answer does not depend on the order it picks links in: from an empty visited set it
    returns true exactly when an `ActivePath` exists. */
module Traversal {
  import opened Base
  import opened GraphObject
  import opened GraphCore

  /** First phase of `check_node_active`: the (link, output port) pairs of the links into
      an input port of `n` that are stored as links, are active, and know their output
      port. Input ports that are not stored as ports are skipped. */
  function ActiveLinksInto<SF, NF>(g: Graph<SF, NF>, n: Id): set<(Id, Id)>
  {
    set p, l | p in Members(g.nodeInputPorts, n) && p in g.objects && g.objects[p].Port?
               && l in Members(g.linksToPort, p) && l in g.objects && g.objects[l].Link?
               && g.objects[l].link.active == Some(true) && g.objects[l].link.outputPort.Some?
      :: (l, g.objects[l].link.outputPort.value)
  }

  /** The node owning `port`, when `port` is a stored port that knows its node. */
  function PortOwner<SF, NF>(g: Graph<SF, NF>, port: Id): Option<Id>
  {
    if port in g.objects && g.objects[port].Port? then g.objects[port].port.nodeId else None
  }

  /** `u` feeds `n`: an active link into an input port of `n` leaves a port of `u`. */
  ghost predicate Feeds<SF, NF>(g: Graph<SF, NF>, n: Id, u: Id)
  {
    exists e :: e in ActiveLinksInto(g, n) && PortOwner(g, e.1) == Some(u)
  }

  /** The search stops at `n` with "inactive" when `n` is not a stored node or when the
      revision's blacklist matches it. */
  predicate Blocked<SF, NF>(g: Graph<SF, NF>, blacklisted: NodeData -> bool, n: Id)
  {
    !(n in g.objects && g.objects[n].Node?) || blacklisted(g.objects[n].node)
  }

  /** A node with no input ports (none recorded, or an empty set) is taken to be a client. */
  predicate IsClient<SF, NF>(g: Graph<SF, NF>, n: Id)
  {
    Members(g.nodeInputPorts, n) == {}
  }

  /** A chain of unblocked nodes, each fed by the next, ending at a client. */
  ghost predicate ActivePath<SF, NF>(g: Graph<SF, NF>, blacklisted: NodeData -> bool, path: seq<Id>)
  {
    && |path| > 0
    && (forall i :: 0 <= i < |path| ==> !Blocked(g, blacklisted, path[i]))
    && (forall i :: 0 <= i < |path| - 1 ==> Feeds(g, path[i], path[i + 1]))
    && IsClient(g, path[|path| - 1])
  }

  /** Reference meaning of "node `n` is active". */
  ghost predicate IsActive<SF, NF>(g: Graph<SF, NF>, blacklisted: NodeData -> bool, n: Id)
  {
    exists path :: ActivePath(g, blacklisted, path) && path[0] == n
  }

  /** What a failed search leaves behind: none of the `explored` nodes is an unblocked client,
      and every node feeding an unblocked `explored` node is in `visited`. */
  ghost predicate ClosedBeyond<SF, NF>(g: Graph<SF, NF>, blacklisted: NodeData -> bool, explored: set<Id>, visited: set<Id>)
  {
    && (forall u :: u in explored ==> Blocked(g, blacklisted, u) || !IsClient(g, u))
    && (forall u, w :: u in explored && !Blocked(g, blacklisted, u) && Feeds(g, u, w) ==> w in visited)
  }

  lemma ExtendPath<SF, NF>(g: Graph<SF, NF>, blacklisted: NodeData -> bool, n: Id, u: Id, tail: seq<Id>)
    requires !Blocked(g, blacklisted, n) && Feeds(g, n, u)
    requires ActivePath(g, blacklisted, tail) && tail[0] == u
    ensures ActivePath(g, blacklisted, [n] + tail)
    ensures IsActive(g, blacklisted, n)
  {
    var path := [n] + tail;
    forall i | 0 <= i < |path| - 1
      ensures Feeds(g, path[i], path[i + 1])
    {
      if i > 0 {
        assert path[i] == tail[i - 1] && path[i + 1] == tail[i];
      }
    }
    assert path[0] == n;
  }

  /** `check_node_active(id, visited)`. Returns the answer and the grown visited set. */
  method CheckNodeActive<SF, NF>(g: Graph<SF, NF>, blacklisted: NodeData -> bool, id: Id, visited: set<Id>)
    returns (active: bool, visitedOut: set<Id>)
    ensures visited + {id} <= visitedOut
    ensures Blocked(g, blacklisted, id) ==> !active
    ensures !Blocked(g, blacklisted, id) && IsClient(g, id) ==> active
    ensures active && !IsClient(g, id) ==>
      exists u :: Feeds(g, id, u) && u !in visited && IsActive(g, blacklisted, u)
    ensures active ==> IsActive(g, blacklisted, id)
    ensures !active ==> ClosedBeyond(g, blacklisted, visitedOut - visited, visitedOut)
    decreases g.objects.Keys - (visited - {id})
  {
    visitedOut := visited + {id};
    if Blocked(g, blacklisted, id) {
      return false, visitedOut;
    }
    if IsClient(g, id) {
      assert ActivePath(g, blacklisted, [id]);
      return true, visitedOut;
    }
    var links := ActiveLinksInto(g, id);
    if links == {} {
      return false, visitedOut;
    }
    var remaining := links;
    while remaining != {}
      invariant remaining <= links
      invariant visited + {id} <= visitedOut
      invariant ClosedBeyond(g, blacklisted, visitedOut - visited - {id}, visitedOut)
      invariant forall e, w :: e in links - remaining && PortOwner(g, e.1) == Some(w) ==> w in visitedOut
      decreases remaining
    {
      var e :| e in remaining;
      remaining := remaining - {e};
      var owner := PortOwner(g, e.1);
      if owner.Some? && owner.value !in visitedOut {
        assert g.objects.Keys - (visitedOut - {owner.value}) < g.objects.Keys - (visited - {id}) by {
          assert id in g.objects.Keys - (visited - {id});
        }
        var upstream, grown := CheckNodeActive(g, blacklisted, owner.value, visitedOut);
        if upstream {
          assert Feeds(g, id, owner.value);
          ghost var tail :| ActivePath(g, blacklisted, tail) && tail[0] == owner.value;
          ExtendPath(g, blacklisted, id, owner.value, tail);
          return true, grown;
        }
        visitedOut := grown;
      }
    }
    return false, visitedOut;
  }

  /** Every node of an active path starting inside a closed set stays inside it. */
  lemma {:induction false} PathStaysInside<SF, NF>(g: Graph<SF, NF>, blacklisted: NodeData -> bool,
                                                  closed: set<Id>, path: seq<Id>, k: nat)
    requires ActivePath(g, blacklisted, path) && path[0] in closed
    requires ClosedBeyond(g, blacklisted, closed, closed)
    requires k < |path|
    ensures path[k] in closed
  {
    if k > 0 {
      PathStaysInside(g, blacklisted, closed, path, k - 1);
      assert Feeds(g, path[k - 1], path[k]);
    }
  }

  /** A closed set holds no active node. */
  lemma ClosedExcludesActive<SF, NF>(g: Graph<SF, NF>, blacklisted: NodeData -> bool, closed: set<Id>, id: Id)
    requires id in closed
    requires ClosedBeyond(g, blacklisted, closed, closed)
    ensures !IsActive(g, blacklisted, id)
  {
    if IsActive(g, blacklisted, id) {
      var path :| ActivePath(g, blacklisted, path) && path[0] == id;
      PathStaysInside(g, blacklisted, closed, path, |path| - 1);
      assert false;
    }
  }

  /** A search from an empty visited set decides `IsActive` exactly. */
  method CheckFromScratch<SF, NF>(g: Graph<SF, NF>, blacklisted: NodeData -> bool, id: Id) returns (active: bool)
    ensures active <==> IsActive(g, blacklisted, id)
  {
    var visited;
    active, visited := CheckNodeActive(g, blacklisted, id, {});
    if !active {
      ClosedExcludesActive(g, blacklisted, visited, id);
    }
  }

  /** `get_active_sinks`: the sinks from which a explored search succeeds. */
  method ActiveSinks<SF, NF>(g: Graph<SF, NF>, blacklisted: NodeData -> bool) returns (active: set<Id>)
    ensures active <= g.sinks
    ensures forall s :: s in active <==> s in g.sinks && IsActive(g, blacklisted, s)
  {
    active := {};
    var remaining := g.sinks;
    while remaining != {}
      invariant remaining <= g.sinks
      invariant forall s :: s in active <==> s in g.sinks - remaining && IsActive(g, blacklisted, s)
      decreases remaining
    {
      var s :| s in remaining;
      remaining := remaining - {s};
      var isActive := CheckFromScratch(g, blacklisted, s);
      if isActive {
        active := active + {s};
      }
    }
  }
}
