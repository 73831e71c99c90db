/** The older filters (src/pipewire_connection/graph_filter.rs) with the older pretty name
    (src/pipewire_connection/graph.rs:50-62). They differ from module Filter: the name
    prefers the application name and falls back to "", node filters have no application
    name pattern, and a missing media field is matched as "" instead of failing. The list
    combinators are explicit loops with early exit. */
module OldFilter {
  import opened Base
  import opened GraphObject
  import opened Filter

  datatype OldSinkFilter = OldSinkFilter(name: Option<Pattern>)

  datatype OldNodeFilter = OldNodeFilter(
    name: Option<Pattern>,
    mediaClass: Option<Pattern>,
    mediaRole: Option<Pattern>,
    mediaSoftware: Option<Pattern>)

  /** Older `get_name`: application name, else description, else nick, else name, else "". */
  function OldNodeName(d: NodeData): (r: string)
    ensures d.appName.Some? ==> r == d.appName.value
    ensures d.appName.None? && d.description.Some? ==> r == d.description.value
    ensures d.appName.None? && d.description.None? && d.nick.Some? ==> r == d.nick.value
    ensures d.appName.None? && d.description.None? && d.nick.None? && d.name.Some? ==> r == d.name.value
    ensures d.appName.None? && d.description.None? && d.nick.None? && d.name.None? ==> r == ""
  {
    if d.appName.Some? then d.appName.value
    else if d.description.Some? then d.description.value
    else if d.nick.Some? then d.nick.value
    else if d.name.Some? then d.name.value
    else ""
  }

  /** The older name agrees with the newer one except for the application-name preference
      and the "" fallback. */
  lemma OldNameVersusNewName(d: NodeData)
    ensures d.appName.None? && NodeName(d).Some? ==> OldNodeName(d) == NodeName(d).value
    ensures NodeName(d).None? && d.appName.None? ==> OldNodeName(d) == ""
  {
  }

  /** The property text the older node filter tests: the value, or "" when missing. */
  function OrEmpty(property: Option<string>): string
  {
    if property.Some? then property.value else ""
  }

  function OldSinkFilterMatches(m: Matcher, f: OldSinkFilter, node: NodeData): (r: bool)
    ensures f.name.None? ==> r
    ensures f.name.Some? ==> (r <==> m(f.name.value, OldNodeName(node)))
  {
    if f.name.Some? && !m(f.name.value, OldNodeName(node)) then false else true
  }

  function OldNodeFilterMatches(m: Matcher, f: OldNodeFilter, node: NodeData): (r: bool)
    ensures r <==>
      && (f.name.None? || m(f.name.value, OldNodeName(node)))
      && (f.mediaClass.None? || m(f.mediaClass.value, if node.mediaClass.Some? then node.mediaClass.value else ""))
      && (f.mediaRole.None? || m(f.mediaRole.value, if node.mediaRole.Some? then node.mediaRole.value else ""))
      && (f.mediaSoftware.None? || m(f.mediaSoftware.value, if node.mediaSoftware.Some? then node.mediaSoftware.value else ""))
  {
    if f.name.Some? && !m(f.name.value, OldNodeName(node)) then false
    else if f.mediaClass.Some? && !m(f.mediaClass.value, OrEmpty(node.mediaClass)) then false
    else if f.mediaRole.Some? && !m(f.mediaRole.value, OrEmpty(node.mediaRole)) then false
    else if f.mediaSoftware.Some? && !m(f.mediaSoftware.value, OrEmpty(node.mediaSoftware)) then false
    else true
  }

  /** A missing media field is not a failure for the older filter: a class pattern that
      matches "" accepts a node without a media class, where the newer filter refuses it. */
  lemma MissingFieldTestedAsEmpty(m: Matcher, pattern: Pattern, node: NodeData)
    requires node.mediaClass.None? && m(pattern, "")
    ensures OldNodeFilterMatches(m, OldNodeFilter(None, Some(pattern), None, None), node)
    ensures !NodeFilterMatches(m, NodeFilter(None, None, Some(pattern), None, None), node)
  {
  }

  lemma UnsetOldNodeFilterMatchesEverything(m: Matcher, node: NodeData)
    ensures OldNodeFilterMatches(m, OldNodeFilter(None, None, None, None), node)
  {
  }

  /** Older `Filter::matches_all`: stops with false at the first filter that refuses. */
  method MatchesAllLoop<F>(filters: seq<F>, accepts: F -> bool) returns (r: bool)
    ensures r <==> forall i :: 0 <= i < |filters| ==> accepts(filters[i])
    ensures !r ==> exists k :: 0 <= k < |filters| && !accepts(filters[k])
                              && forall i :: 0 <= i < k ==> accepts(filters[i])
  {
    var k := 0;
    while k < |filters|
      invariant 0 <= k <= |filters|
      invariant forall i :: 0 <= i < k ==> accepts(filters[i])
    {
      if !accepts(filters[k]) {
        return false;
      }
      k := k + 1;
    }
    return true;
  }

  /** Older `Filter::matches_any`: stops with true at the first filter that accepts. */
  method MatchesAnyLoop<F>(filters: seq<F>, accepts: F -> bool) returns (r: bool)
    ensures r <==> exists i :: 0 <= i < |filters| && accepts(filters[i])
    ensures r ==> exists k :: 0 <= k < |filters| && accepts(filters[k])
                             && forall i :: 0 <= i < k ==> !accepts(filters[i])
  {
    var k := 0;
    while k < |filters|
      invariant 0 <= k <= |filters|
      invariant forall i :: 0 <= i < k ==> !accepts(filters[i])
    {
      if accepts(filters[k]) {
        return true;
      }
      k := k + 1;
    }
    return false;
  }

  /** The loops decide the same thing as the newer iterator-based combinators. */
  method LoopsAgreeWithIterators<F>(filters: seq<F>, accepts: F -> bool) returns (all: bool, any: bool)
    ensures all == MatchesAll(filters, accepts)
    ensures any == MatchesAny(filters, accepts)
  {
    all := MatchesAllLoop(filters, accepts);
    any := MatchesAnyLoop(filters, accepts);
  }

  /** Some filter of the older whitelist accepts the node. */
  predicate OldSinkMatchesAny(m: Matcher, whitelist: seq<OldSinkFilter>, node: NodeData)
  {
    exists i :: 0 <= i < |whitelist| && OldSinkFilterMatches(m, whitelist[i], node)
  }

  /** Some filter of the older blacklist accepts the node. */
  predicate OldNodeMatchesAny(m: Matcher, blacklist: seq<OldNodeFilter>, node: NodeData)
  {
    exists i :: 0 <= i < |blacklist| && OldNodeFilterMatches(m, blacklist[i], node)
  }
}
