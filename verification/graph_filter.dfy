/** Filters over graph nodes (src/pipewire_connection/graph/filter.rs). Regular
    expressions are left uninterpreted: a `Matcher` answers whether a compiled pattern
    finds a match in a text, and every filter is evaluated against the same matcher. */
module Filter {
  import opened Base
  import opened GraphObject

  /** The source text of a user-supplied regular expression. */
  type Pattern = string

  /** `Regex::is_match(pattern, text)`, left abstract. */
  type Matcher = (Pattern, string) -> bool

  datatype SinkFilter = SinkFilter(name: Option<Pattern>)

  datatype NodeFilter = NodeFilter(
    name: Option<Pattern>,
    appName: Option<Pattern>,
    mediaClass: Option<Pattern>,
    mediaRole: Option<Pattern>,
    mediaSoftware: Option<Pattern>)

  /** `Filter::matches_all`: every filter of the list accepts the object. */
  function MatchesAll<F>(filters: seq<F>, accepts: F -> bool): (r: bool)
    ensures r <==> forall i :: 0 <= i < |filters| ==> accepts(filters[i])
  {
    if |filters| == 0 then true
    else accepts(filters[0]) && MatchesAll(filters[1..], accepts)
  }

  /** `Filter::matches_any`: some filter of the list accepts the object. */
  function MatchesAny<F>(filters: seq<F>, accepts: F -> bool): (r: bool)
    ensures r <==> exists i :: 0 <= i < |filters| && accepts(filters[i])
  {
    if |filters| == 0 then false
    else accepts(filters[0]) || MatchesAny(filters[1..], accepts)
  }

  lemma AllImpliesAnyWhenNonEmpty<F>(filters: seq<F>, accepts: F -> bool)
    requires |filters| > 0
    ensures MatchesAll(filters, accepts) ==> MatchesAny(filters, accepts)
    ensures MatchesAll([], accepts) && !MatchesAny([], accepts)
  {
    if MatchesAll(filters, accepts) {
      assert accepts(filters[0]);
    }
  }

  /** An unset filter always passes; a set filter fails on a missing property and
      otherwise asks the matcher. */
  function MatchesProperty(m: Matcher, filter: Option<Pattern>, property: Option<string>): (r: bool)
    ensures filter.None? ==> r
    ensures filter.Some? && property.None? ==> !r
    ensures filter.Some? && property.Some? ==> (r <==> m(filter.value, property.value))
  {
    match filter
    case None => true
    case Some(f) => property.Some? && m(f, property.value)
  }

  function SinkFilterMatches(m: Matcher, f: SinkFilter, node: NodeData): (r: bool)
    ensures r <==> f.name.None? || (NodeName(node).Some? && m(f.name.value, NodeName(node).value))
  {
    MatchesProperty(m, f.name, NodeName(node))
  }

  /** The pretty name is matched against `name`; the raw fields for the other four patterns. */
  function NodeFilterMatches(m: Matcher, f: NodeFilter, node: NodeData): (r: bool)
    ensures r <==>
      && (f.name.None? || (NodeName(node).Some? && m(f.name.value, NodeName(node).value)))
      && (f.appName.None? || (node.appName.Some? && m(f.appName.value, node.appName.value)))
      && (f.mediaClass.None? || (node.mediaClass.Some? && m(f.mediaClass.value, node.mediaClass.value)))
      && (f.mediaRole.None? || (node.mediaRole.Some? && m(f.mediaRole.value, node.mediaRole.value)))
      && (f.mediaSoftware.None? || (node.mediaSoftware.Some? && m(f.mediaSoftware.value, node.mediaSoftware.value)))
  {
    && MatchesProperty(m, f.name, NodeName(node))
    && MatchesProperty(m, f.appName, node.appName)
    && MatchesProperty(m, f.mediaClass, node.mediaClass)
    && MatchesProperty(m, f.mediaRole, node.mediaRole)
    && MatchesProperty(m, f.mediaSoftware, node.mediaSoftware)
  }

  /** A node filter with no pattern set matches every node, whatever the matcher. */
  lemma UnsetNodeFilterMatchesEverything(m: Matcher, node: NodeData)
    ensures NodeFilterMatches(m, NodeFilter(None, None, None, None, None), node)
  {
  }

  /** Some sink filter of the whitelist accepts the node. */
  function SinkMatchesAny(m: Matcher, whitelist: seq<SinkFilter>, node: NodeData): (r: bool)
    ensures r <==> exists i :: 0 <= i < |whitelist| && SinkFilterMatches(m, whitelist[i], node)
  {
    MatchesAny(whitelist, f => SinkFilterMatches(m, f, node))
  }

  /** Some node filter of the blacklist accepts the node. */
  function NodeMatchesAny(m: Matcher, blacklist: seq<NodeFilter>, node: NodeData): (r: bool)
    ensures r <==> exists i :: 0 <= i < |blacklist| && NodeFilterMatches(m, blacklist[i], node)
  {
    MatchesAny(blacklist, f => NodeFilterMatches(m, f, node))
  }
}
