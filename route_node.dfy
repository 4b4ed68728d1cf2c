/**
 * The route tree of route-node.ts.
 *
 * Every RouteNode object lives in an arena, `RouteTree.nodes`, and is named
 * by its index there. A node's children are passed to its constructor, so
 * they exist before it: a parent always has a larger index than its
 * children, and following `parent` links always terminates.
 */
module RouteNodes {
  import opened Wrappers
  import opened Segments
  import Placeholders
  import Substitution

  /** getRelativeWithParents rejects any depth above this. */
  const MaxNumberOfParents := 1000

  /** A query mapping `{ [name]: value | undefined }`, in entry order. */
  type Query = seq<(string, Option<string>)>

  /** The fields of one RouteNode object. `absoluteUrlCache` is the private
      `_absoluteUrl`, None while it is undefined. */
  datatype Node = Node(
    relativeUrl: string,
    children: map<string, nat>,
    params: map<string, string>,
    queryParams: map<string, string>,
    parent: Option<nat>,
    absoluteUrlCache: Option<string>)

  datatype RouteError =
    | MissingParamDefinition(absoluteUrl: string, missing: seq<string>)
    | TooHighNumberOfParents
    | InvalidUrl(url: string)

  /** The query merge `UrlUtils.addQueryToUrl`: None where `new URL(url)` throws. */
  type QueryMerge = (string, Query) -> Option<string>

  /** What a call of the query merge returns or throws. */
  function MergeQuery(addQueryToUrl: QueryMerge, url: string, query: Query): (r: Result<string, RouteError>)
  {
    match addQueryToUrl(url, query)
    case Some(merged) => Ok(merged)
    case None => Err(InvalidUrl(url))
  }

  /** The cache holds a value the getter trusts: `_absoluteUrl` is truthy. */
  ghost predicate Cached(n: Node)
  {
    n.absoluteUrlCache.Some? && n.absoluteUrlCache.value != ""
  }

  /** Every parent link points to a later node of the arena. */
  ghost predicate ParentsAbove(nodes: seq<Node>)
  {
    forall i :: 0 <= i < |nodes| && nodes[i].parent.Some? ==> i < nodes[i].parent.value < |nodes|
  }

  /** `p` is absent or a node of the arena. */
  ghost predicate ValidRef(nodes: seq<Node>, p: Option<nat>)
  {
    p.Some? ==> p.value < |nodes|
  }

  /** Parent links are acyclic and are exactly the inverse of the children maps. */
  ghost predicate WellFormed(nodes: seq<Node>)
  {
    && ParentsAbove(nodes)
    && (forall i, k :: 0 <= i < |nodes| && k in nodes[i].children ==>
          nodes[i].children[k] < |nodes| && nodes[nodes[i].children[k]].parent == Some(i))
    && (forall j :: 0 <= j < |nodes| && nodes[j].parent.Some? ==>
          j in nodes[nodes[j].parent.value].children.Values)
  }

  /** The absolute URL the getter computes, from segments and parent links alone. */
  function AbsUrl(nodes: seq<Node>, i: nat): (url: string)
    requires ParentsAbove(nodes) && i < |nodes|
    ensures url == "" || url[0] == '/'
    decreases |nodes| - i
  {
    var prefix := if nodes[i].parent.Some? then AbsUrl(nodes, nodes[i].parent.value) else "";
    if nodes[i].relativeUrl != "" then prefix + "/" + nodes[i].relativeUrl else prefix
  }

  /** Every truthy cache holds the node's absolute URL. */
  ghost predicate CacheValid(nodes: seq<Node>)
    requires ParentsAbove(nodes)
  {
    forall j :: 0 <= j < |nodes| && Cached(nodes[j]) ==> nodes[j].absoluteUrlCache.value == AbsUrl(nodes, j)
  }

  /** `b` differs from `a` at most in the caches. */
  ghost predicate OnlyCachesChanged(a: seq<Node>, b: seq<Node>)
  {
    |a| == |b| && forall j :: 0 <= j < |a| ==> b[j] == a[j].(absoluteUrlCache := b[j].absoluteUrlCache)
  }

  /** `b` differs from `a` only in caches on the parent chain of `i`, each of
      which now holds its node's absolute URL. */
  ghost predicate ChainCachesFilled(a: seq<Node>, b: seq<Node>, i: nat)
    requires ParentsAbove(a) && i < |a| && |b| == |a|
  {
    forall j :: 0 <= j < |b| && b[j] != a[j] ==>
      OnChain(a, i, j) && b[j].absoluteUrlCache == Some(AbsUrl(a, j))
  }

  /** `j` is `i` or one of its ancestors. */
  ghost predicate OnChain(nodes: seq<Node>, i: nat, j: nat)
    requires ParentsAbove(nodes) && i < |nodes|
    decreases |nodes| - i
  {
    j == i || (nodes[i].parent.Some? && OnChain(nodes, nodes[i].parent.value, j))
  }

  /** The root reached from `j` by following parent links. */
  function RootOf(nodes: seq<Node>, j: nat): (r: nat)
    requires ParentsAbove(nodes) && j < |nodes|
    ensures j <= r < |nodes| && nodes[r].parent.None?
    decreases |nodes| - j
  {
    if nodes[j].parent.None? then j else RootOf(nodes, nodes[j].parent.value)
  }

  /** Number of nodes on the parent chain that starts at `p`. */
  function Depth(nodes: seq<Node>, p: Option<nat>): (d: nat)
    requires ParentsAbove(nodes) && ValidRef(nodes, p)
    decreases if p.Some? then |nodes| - p.value else 0
  {
    if p.None? then 0 else 1 + Depth(nodes, nodes[p.value].parent)
  }

  /** The segments of at most `levels` nodes of the chain starting at `p`,
      root-most first. */
  function AncestorSegments(nodes: seq<Node>, p: Option<nat>, levels: int): (ss: seq<string>)
    requires ParentsAbove(nodes) && ValidRef(nodes, p)
    ensures |ss| == if levels <= 0 then 0 else if levels < Depth(nodes, p) then levels else Depth(nodes, p)
    decreases if p.Some? then |nodes| - p.value else 0
  {
    if p.None? || levels <= 0 then []
    else AncestorSegments(nodes, nodes[p.value].parent, levels - 1) + [nodes[p.value].relativeUrl]
  }

  /** The segments from the root down to `i`. */
  function ChainSegments(nodes: seq<Node>, i: nat): (ss: seq<string>)
    requires ParentsAbove(nodes) && i < |nodes|
  {
    var p := nodes[i].parent;
    AncestorSegments(nodes, p, Depth(nodes, p)) + [nodes[i].relativeUrl]
  }

  /** What getRelativeWithParents(numberOfParents) returns when it does not throw. */
  function RelativeWithParents(nodes: seq<Node>, i: nat, numberOfParents: int): (r: string)
    requires ParentsAbove(nodes) && i < |nodes|
    ensures numberOfParents <= 0 || nodes[i].parent.None? ==> r == nodes[i].relativeUrl
  {
    var up := AncestorSegments(nodes, nodes[i].parent, numberOfParents);
    var ss := up + [nodes[i].relativeUrl];
    assert numberOfParents <= 0 || nodes[i].parent.None? ==> up == [];
    assert up == [] ==> ss == [nodes[i].relativeUrl];
    assert JoinNonEmpty([nodes[i].relativeUrl]) == nodes[i].relativeUrl by {
      assert [nodes[i].relativeUrl][1..] == [];
    }
    JoinNonEmpty(ss)
  }

  /** One iteration of the upward walk moves the segment of `c` from the
      part still to visit to the part visited. */
  lemma WalkStep(nodes: seq<Node>, c: nat, levels: int, visited: seq<string>)
    requires ParentsAbove(nodes) && c < |nodes| && levels > 0
    ensures AncestorSegments(nodes, Some(c), levels) + visited
      == AncestorSegments(nodes, nodes[c].parent, levels - 1) + ([nodes[c].relativeUrl] + visited)
  {
    var up := AncestorSegments(nodes, nodes[c].parent, levels - 1);
    assert AncestorSegments(nodes, Some(c), levels) == up + [nodes[c].relativeUrl];
    assert (up + [nodes[c].relativeUrl]) + visited == up + ([nodes[c].relativeUrl] + visited);
  }

  /** The absolute URL puts "/" in front of each non-empty segment from the root down. */
  lemma {:induction false} AbsUrlIsPrefixedChain(nodes: seq<Node>, i: nat)
    requires ParentsAbove(nodes) && i < |nodes|
    ensures AbsUrl(nodes, i) == Prefixed(ChainSegments(nodes, i))
    decreases |nodes| - i
  {
    var rel := nodes[i].relativeUrl;
    match nodes[i].parent
    case None =>
      assert ChainSegments(nodes, i) == [rel];
      assert [rel][..0] == [];
    case Some(p) =>
      AbsUrlIsPrefixedChain(nodes, p);
      var chain := ChainSegments(nodes, p) + [rel];
      assert ChainSegments(nodes, i) == chain;
      assert chain[..|chain| - 1] == ChainSegments(nodes, p);
  }

  /** More levels than there are ancestors change nothing. */
  lemma {:induction false} AncestorSegmentsSaturate(nodes: seq<Node>, p: Option<nat>, levels: int)
    requires ParentsAbove(nodes) && ValidRef(nodes, p) && levels >= Depth(nodes, p)
    ensures AncestorSegments(nodes, p, levels) == AncestorSegments(nodes, p, Depth(nodes, p))
    decreases if p.Some? then |nodes| - p.value else 0
  {
    if p.Some? {
      var q := nodes[p.value].parent;
      AncestorSegmentsSaturate(nodes, q, levels - 1);
      AncestorSegmentsSaturate(nodes, q, Depth(nodes, q));
    }
  }

  /** Asking for at least as many levels as there are ancestors gives the
      absolute URL without its leading "/". */
  lemma RelativeWithAllParents(nodes: seq<Node>, i: nat, numberOfParents: int)
    requires ParentsAbove(nodes) && i < |nodes|
    requires numberOfParents >= Depth(nodes, nodes[i].parent)
    ensures RelativeWithParents(nodes, i, numberOfParents) == DropLeading(AbsUrl(nodes, i))
  {
    AncestorSegmentsSaturate(nodes, nodes[i].parent, numberOfParents);
    AbsUrlIsPrefixedChain(nodes, i);
    PrefixedIsSlashJoin(ChainSegments(nodes, i));
  }

  /** One level: the parent's segment and the node's own, joined by "/" when
      both are non-empty. */
  lemma RelativeWithOneParent(nodes: seq<Node>, i: nat)
    requires ParentsAbove(nodes) && i < |nodes|
    ensures RelativeWithParents(nodes, i, 1) ==
      var rel := nodes[i].relativeUrl;
      if nodes[i].parent.None? then rel
      else
        var up := nodes[nodes[i].parent.value].relativeUrl;
        if up == "" then rel else if rel == "" then up else up + "/" + rel
  {
    match nodes[i].parent
    case None =>
    case Some(p) =>
      var rel, up := nodes[i].relativeUrl, nodes[p].relativeUrl;
      assert AncestorSegments(nodes, nodes[p].parent, 0) == [];
      assert AncestorSegments(nodes, Some(p), 1) == [up];
      assert [up] + [rel] == [up, rel];
      assert [up, rel][1..] == [rel];
      assert [rel][1..] == [];
      assert JoinNonEmpty([rel]) == rel;
  }

  /** The absolute URL depends only on segments and parent links, so rewriting
      caches never changes it: two reads of absoluteUrl agree. */
  lemma {:induction false} AbsUrlIgnoresCaches(a: seq<Node>, b: seq<Node>, i: nat)
    requires ParentsAbove(a) && OnlyCachesChanged(a, b) && i < |a|
    ensures ParentsAbove(b) && AbsUrl(b, i) == AbsUrl(a, i)
    decreases |a| - i
  {
    assert forall j :: 0 <= j < |a| ==> b[j].parent == a[j].parent && b[j].relativeUrl == a[j].relativeUrl;
    if a[i].parent.Some? {
      AbsUrlIgnoresCaches(a, b, a[i].parent.value);
    }
  }

  /** Writing the correct URL into one cache keeps the arena valid. */
  lemma CacheWriteKeepsValid(a: seq<Node>, i: nat, url: string)
    requires WellFormed(a) && CacheValid(a) && i < |a| && url == AbsUrl(a, i)
    ensures var b := a[i := a[i].(absoluteUrlCache := Some(url))];
      OnlyCachesChanged(a, b) && WellFormed(b) && CacheValid(b)
  {
    var b := a[i := a[i].(absoluteUrlCache := Some(url))];
    assert OnlyCachesChanged(a, b);
    forall j | 0 <= j < |b| ensures AbsUrl(b, j) == AbsUrl(a, j) {
      AbsUrlIgnoresCaches(a, b, j);
    }
  }

  /** `b` is `a` after a constructor appended a node and made it the parent of `cs`. */
  ghost predicate Attached(a: seq<Node>, b: seq<Node>, cs: set<nat>)
  {
    |b| == |a| + 1 &&
    forall j :: 0 <= j < |a| ==> b[j] == if j in cs then a[j].(parent := Some(|a|)) else a[j]
  }

  /** Attaching subtrees leaves the URL of every node outside them unchanged. */
  lemma {:induction false} AttachKeepsOtherUrls(a: seq<Node>, b: seq<Node>, cs: set<nat>, j: nat)
    requires ParentsAbove(a) && ParentsAbove(b) && Attached(a, b, cs)
    requires forall c :: c in cs ==> c < |a| && a[c].parent.None?
    requires j < |a| && RootOf(a, j) !in cs
    ensures AbsUrl(b, j) == AbsUrl(a, j)
    decreases |a| - j
  {
    if a[j].parent.Some? {
      AttachKeepsOtherUrls(a, b, cs, a[j].parent.value);
    }
  }

  /** Attaching root subtrees keeps parent links acyclic and inverse to the children maps. */
  lemma AttachKeepsWellFormed(a: seq<Node>, b: seq<Node>, cs: set<nat>)
    requires WellFormed(a)
    requires forall c :: c in cs ==> c < |a| && a[c].parent.None?
    requires Attached(a, b, cs)
    requires b[|a|].parent.None? && b[|a|].children.Values == cs
    ensures WellFormed(b)
  {
    var n := |a|;
    assert ParentsAbove(b);
    forall i, k | 0 <= i < |b| && k in b[i].children
      ensures b[i].children[k] < |b| && b[b[i].children[k]].parent == Some(i)
    {
      var c := b[i].children[k];
      if i == n {
        assert c in cs;
      } else {
        assert b[i].children == a[i].children;
        assert a[c].parent == Some(i);
      }
    }
    forall j | 0 <= j < |b| && b[j].parent.Some?
      ensures j in b[b[j].parent.value].children.Values
    {
      var p := b[j].parent.value;
      if j !in cs {
        assert b[p].children == a[p].children;
      }
    }
  }

  /** Attaching subtrees none of whose URLs was read keeps every cache valid. */
  lemma AttachKeepsCachesValid(a: seq<Node>, b: seq<Node>, cs: set<nat>)
    requires ParentsAbove(a) && CacheValid(a) && ParentsAbove(b)
    requires forall c :: c in cs ==> c < |a| && a[c].parent.None?
    requires forall j :: 0 <= j < |a| && RootOf(a, j) in cs ==> !Cached(a[j])
    requires Attached(a, b, cs)
    requires b[|a|].absoluteUrlCache.None?
    ensures CacheValid(b)
  {
    forall j | 0 <= j < |b| && Cached(b[j])
      ensures b[j].absoluteUrlCache.value == AbsUrl(b, j)
    {
      AttachKeepsOtherUrls(a, b, cs, j);
    }
  }

  /**
   * The arena of RouteNode objects. Its methods are the constructor and the
   * getters and methods of RouteNode, each taking the node's index.
   */
  class RouteTree {
    var nodes: seq<Node>

    ghost predicate Valid()
      reads this
    {
      WellFormed(nodes) && CacheValid(nodes)
    }

    constructor ()
      ensures Valid() && nodes == []
    {
      nodes := [];
    }

    /** `_setParent`. */
    method SetParent(child: nat, parent: nat)
      requires child < |nodes|
      modifies this
      ensures nodes == old(nodes)[child := old(nodes)[child].(parent := Some(parent))]
    {
      nodes := nodes[child := nodes[child].(parent := Some(parent))];
    }

    /** The loop of the constructor that calls `_setParent` on every child. */
    method SetParentOfChildren(children: set<nat>, parent: nat)
      requires forall c :: c in children ==> c < |nodes|
      modifies this
      ensures |nodes| == |old(nodes)|
      ensures forall j :: 0 <= j < |nodes| ==>
        nodes[j] == if j in children then old(nodes)[j].(parent := Some(parent)) else old(nodes)[j]
    {
      var pending := children;
      while pending != {}
        invariant pending <= children
        invariant |nodes| == |old(nodes)|
        invariant forall j :: 0 <= j < |nodes| ==>
          nodes[j] == if j in children - pending then old(nodes)[j].(parent := Some(parent)) else old(nodes)[j]
        decreases pending
      {
        var c :| c in pending;
        SetParent(c, parent);
        pending := pending - {c};
      }
    }

    /**
     * `new RouteNode(relativeUrl, children, { params, queryParams })`.
     * The children become the new node's children before the placeholders are
     * checked, so they point to it even when construction fails. The failed
     * node stays in the arena, not returned to callers but reachable from its
     * children's `parent` fields, with the absolute URL its error message read
     * cached.
     */
    method NewRouteNode(relativeUrl: string, children: map<string, nat>,
                        params: map<string, string>, queryParams: map<string, string>)
      returns (r: Result<nat, RouteError>)
      requires Valid()
      requires forall k :: k in children ==> children[k] < |nodes| && nodes[children[k]].parent.None?
      requires forall j :: 0 <= j < |nodes| && RootOf(nodes, j) in children.Values ==> !Cached(nodes[j])
      modifies this
      ensures Valid()
      ensures Attached(old(nodes), nodes, children.Values)
      ensures var n := nodes[|old(nodes)|];
        && n.relativeUrl == relativeUrl && n.children == children
        && n.params == params && n.queryParams == queryParams && n.parent.None?
      ensures var missing := Placeholders.ValidateParamsInUrl(relativeUrl, params);
        if missing == [] then
          r == Ok(|old(nodes)|) && nodes[|old(nodes)|].absoluteUrlCache.None?
        else
          && r == Err(MissingParamDefinition("/" + relativeUrl, missing))
          && nodes[|old(nodes)|].absoluteUrlCache == Some("/" + relativeUrl)
    {
      var n := |nodes|;
      var node := Node(relativeUrl, children, params, queryParams, None, None);
      nodes := nodes + [node];
      SetParentOfChildren(children.Values, n);
      assert Attached(old(nodes), nodes, children.Values);
      AttachKeepsWellFormed(old(nodes), nodes, children.Values);
      AttachKeepsCachesValid(old(nodes), nodes, children.Values);
      var missing := Placeholders.ValidateParamsInUrl(relativeUrl, params);
      if missing != [] {
        ghost var attached := nodes;
        assert relativeUrl != "";
        assert AbsUrl(attached, n) == "/" + relativeUrl;
        var url := AbsoluteUrl(n);
        r := Err(MissingParamDefinition(url, missing));
      } else {
        r := Ok(n);
      }
    }

    /** The memoised `absoluteUrl` getter. It reads the parent's getter, so the
        caches of ancestors are filled too; the empty string is never trusted
        as a cached value and is recomputed on every read. */
    method AbsoluteUrl(i: nat) returns (url: string)
      requires Valid() && i < |nodes|
      modifies this
      ensures Valid() && OnlyCachesChanged(old(nodes), nodes)
      ensures url == AbsUrl(old(nodes), i)
      ensures nodes[i].absoluteUrlCache == Some(url)
      ensures ChainCachesFilled(old(nodes), nodes, i)
      decreases |nodes| - i
    {
      var cache := nodes[i].absoluteUrlCache;
      if cache.Some? && cache.value != "" {
        return cache.value;
      }
      var parentUrl := "";
      if nodes[i].parent.Some? {
        parentUrl := AbsoluteUrl(nodes[i].parent.value);
      }
      if nodes[i].relativeUrl != "" {
        url := parentUrl + "/" + nodes[i].relativeUrl;
      } else {
        url := parentUrl;
      }
      AbsUrlIgnoresCaches(old(nodes), nodes, i);
      ghost var before := nodes;
      CacheWriteKeepsValid(nodes, i, url);
      nodes := nodes[i := nodes[i].(absoluteUrlCache := Some(url))];
      forall j | 0 <= j < |nodes| && nodes[j] != old(nodes)[j]
        ensures nodes[j].absoluteUrlCache == Some(AbsUrl(old(nodes), j))
      {
        if j != i {
          assert before[j] != old(nodes)[j];
        }
      }
    }

    /** The `absoluteUrlWithoutLeading` getter. */
    method AbsoluteUrlWithoutLeading(i: nat) returns (url: string)
      requires Valid() && i < |nodes|
      modifies this
      ensures Valid() && OnlyCachesChanged(old(nodes), nodes) && ChainCachesFilled(old(nodes), nodes, i)
      ensures url == DropLeading(AbsUrl(old(nodes), i))
      ensures AbsUrl(old(nodes), i) != "" ==> AbsUrl(old(nodes), i) == "/" + url
    {
      var full := AbsoluteUrl(i);
      url := if full == "" then "" else full[1..];
    }

    /** `getRelativeWithParents(numberOfParents)`: walks up at most
        `numberOfParents` levels, putting each non-empty segment in front. */
    method GetRelativeWithParents(i: nat, numberOfParents: int) returns (r: Result<string, RouteError>)
      requires ParentsAbove(nodes) && i < |nodes|
      ensures numberOfParents > MaxNumberOfParents ==> r == Err(TooHighNumberOfParents)
      ensures numberOfParents <= MaxNumberOfParents ==> r == Ok(RelativeWithParents(nodes, i, numberOfParents))
    {
      if numberOfParents > MaxNumberOfParents {
        return Err(TooHighNumberOfParents);
      }
      var result := nodes[i].relativeUrl;
      var levels := numberOfParents;
      var current := nodes[i].parent;
      ghost var visited := [nodes[i].relativeUrl];
      while current.Some? && levels > 0
        invariant ValidRef(nodes, current)
        invariant result == JoinNonEmpty(visited)
        invariant AncestorSegments(nodes, current, levels) + visited
          == AncestorSegments(nodes, nodes[i].parent, numberOfParents) + [nodes[i].relativeUrl]
        decreases levels
      {
        var segment := nodes[current.value].relativeUrl;
        WalkStep(nodes, current.value, levels, visited);
        if segment != "" {
          result := if result != "" then segment + "/" + result else segment;
        }
        assert ([segment] + visited)[1..] == visited;
        visited := [segment] + visited;
        levels := levels - 1;
        current := nodes[current.value].parent;
      }
      assert AncestorSegments(nodes, current, levels) == [];
      assert [] + visited == visited;
      return Ok(result);
    }

    /** The `relativeUrlWithParent` getter: one level up. */
    method RelativeUrlWithParent(i: nat) returns (url: string)
      requires ParentsAbove(nodes) && i < |nodes|
      ensures url == RelativeWithParents(nodes, i, 1)
      ensures nodes[i].parent.None? ==> url == nodes[i].relativeUrl
      ensures nodes[i].parent.Some? ==>
        var up := nodes[nodes[i].parent.value].relativeUrl;
        var rel := nodes[i].relativeUrl;
        url == if up == "" then rel else if rel == "" then up else up + "/" + rel
    {
      var r := GetRelativeWithParents(i, 1);
      url := r.value;
      RelativeWithOneParent(nodes, i);
    }

    /** `getAbsoluteUrlWithParams(params, query)`: placeholder substitution on the
        absolute URL, then the query merge when a query is given. */
    method GetAbsoluteUrlWithParams(i: nat, params: seq<(string, string)>, query: Option<Query>,
                                    addQueryToUrl: QueryMerge)
      returns (r: Result<string, RouteError>)
      requires Valid() && i < |nodes|
      modifies this
      ensures Valid() && OnlyCachesChanged(old(nodes), nodes) && ChainCachesFilled(old(nodes), nodes, i)
      ensures var substituted := Substitution.SubstituteParams(AbsUrl(old(nodes), i), params);
        r == if query.Some? then MergeQuery(addQueryToUrl, substituted, query.value) else Ok(substituted)
    {
      var result := AbsoluteUrl(i);
      ghost var base := result;
      for k := 0 to |params|
        invariant result == Substitution.SubstituteParams(base, params[..k])
      {
        var (name, value) := params[k];
        assert params[..k + 1][..k] == params[..k];
        result := Substitution.ReplaceFirst(result, Substitution.Placeholder(name), value);
      }
      assert params[..|params|] == params;
      if query.Some? {
        r := MergeQuery(addQueryToUrl, result, query.value);
      } else {
        r := Ok(result);
      }
    }

    /** `getAbsoluteUrlWithQuery(query)`: the query merge applied to the absolute URL. */
    method GetAbsoluteUrlWithQuery(i: nat, query: Query, addQueryToUrl: QueryMerge)
      returns (r: Result<string, RouteError>)
      requires Valid() && i < |nodes|
      modifies this
      ensures Valid() && OnlyCachesChanged(old(nodes), nodes) && ChainCachesFilled(old(nodes), nodes, i)
      ensures r == MergeQuery(addQueryToUrl, AbsUrl(old(nodes), i), query)
    {
      var full := AbsoluteUrl(i);
      r := MergeQuery(addQueryToUrl, full, query);
    }

    /** Two successive reads of the `absoluteUrl` getter agree, and both give
        the URL computed from segments and parent links alone. */
    method AbsoluteUrlTwice(i: nat) returns (first: string, second: string)
      requires Valid() && i < |nodes|
      modifies this
      ensures Valid() && OnlyCachesChanged(old(nodes), nodes)
      ensures first == second == AbsUrl(old(nodes), i)
    {
      ghost var start := nodes;
      first := AbsoluteUrl(i);
      ghost var middle := nodes;
      second := AbsoluteUrl(i);
      AbsUrlIgnoresCaches(start, middle, i);
    }
  }
}
