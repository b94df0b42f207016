/**
 * The dependency multigraph: packages as nodes carrying their dictionary form, dependencies as
 * edges (parallel edges kept), and the two subgraph queries of the graph layer.
 */
module GraphBuilder {
  import opened Wrappers
  import opened Seqs
  import opened Dicts
  import opened Models

  /** The attributes `build_graph` stores on an edge. */
  datatype Edge = Edge(src: string, dst: string, relationType: string, versionConstraint: Option<string>, sourceFile: string)

  /** The attribute dictionary of a node. */
  type Attrs = map<string, Value>

  /**
   * A multi-edge directed graph: the nodes with their attribute dictionaries in insertion
   * order, and the edges in insertion order.
   */
  datatype Graph = Graph(nodes: Dict<string, Attrs>, edges: seq<Edge>) {

    /** `n in G`. */
    predicate HasNode(n: string) {
      n in nodes.entries
    }

    /** Every node is listed once and every edge joins two nodes, as the graph library guarantees. */
    ghost predicate Valid() {
      nodes.Valid() && forall e :: e in edges ==> e.src in nodes.entries && e.dst in nodes.entries
    }
  }

  function EmptyGraph(): (g: Graph)
    ensures g.Valid() && g.nodes.keys == [] && g.edges == []
  {
    Graph(EmptyDict(), [])
  }

  /** `G.add_node(n, **attrs)`: a new node goes last; an existing node has its attributes updated. */
  function AddNode(g: Graph, n: string, attrs: Attrs): Graph {
    g.(nodes := g.nodes.Put(n, if n in g.nodes.entries then g.nodes.entries[n] + attrs else attrs))
  }

  /** The placeholder attributes of a node that only appears as a dependency endpoint. */
  function Placeholder(n: string): Attrs {
    map["name" := VStr(n)]
  }

  /** `if n not in G: G.add_node(n, name=n)`. */
  function EnsureNode(g: Graph, n: string): (r: Graph)
    ensures r.edges == g.edges && r.HasNode(n)
    ensures g.HasNode(n) ==> r == g
    ensures forall m :: r.HasNode(m) <==> g.HasNode(m) || m == n
    ensures g.nodes.Valid() ==> r.nodes.Valid()
  {
    if n in g.nodes.entries then g else AddNode(g, n, Placeholder(n))
  }

  /** The edge `build_graph` adds for a dependency. */
  function EdgeOf(d: Dependency): Edge {
    Edge(d.source, d.target, d.relationType.Value(), d.versionConstraint, d.sourceFile)
  }

  /** The attributes `build_graph` gives a package node: its dictionary form. */
  function NodeAttrs(p: Package): Attrs {
    PackageToDict(p).entries
  }

  /** The graph after the first loop of `build_graph`, each package node given `attrsOf(p)`. */
  function AddPackages(packages: seq<Package>, attrsOf: Package -> Attrs): (g: Graph)
    ensures g.edges == []
  {
    if packages == [] then EmptyGraph()
    else
      var p := packages[|packages| - 1];
      AddNode(AddPackages(packages[..|packages| - 1], attrsOf), p.name, attrsOf(p))
  }

  /** The graph after the second loop of `build_graph`, started from `g`. */
  function AddDependencies(g: Graph, deps: seq<Dependency>): Graph {
    if deps == [] then g
    else
      var d := deps[|deps| - 1];
      var h := EnsureNode(EnsureNode(AddDependencies(g, deps[..|deps| - 1]), d.source), d.target);
      h.(edges := h.edges + [EdgeOf(d)])
  }

  /** What `build_graph` returns. */
  function Built(packages: seq<Package>, deps: seq<Dependency>): Graph {
    AddDependencies(AddPackages(packages, NodeAttrs), deps)
  }

  /** `build_graph`: every package becomes a node, then every dependency an edge, adding missing endpoints. */
  method BuildGraph(packages: seq<Package>, deps: seq<Dependency>) returns (g: Graph)
    ensures g == Built(packages, deps)
  {
    g := InsertPackages(packages);
    g := InsertDependencies(g, deps);
  }

  /** The first loop of `build_graph`: `G.add_node(pkg.name, **pkg.to_dict())` for each package. */
  method InsertPackages(packages: seq<Package>) returns (g: Graph)
    ensures g == AddPackages(packages, NodeAttrs)
  {
    g := EmptyGraph();
    for i := 0 to |packages|
      invariant g == AddPackages(packages[..i], NodeAttrs)
    {
      assert packages[..i + 1][..i] == packages[..i];
      var p := packages[i];
      g := AddNode(g, p.name, NodeAttrs(p));
    }
    assert packages[..|packages|] == packages;
  }

  /** The second loop of `build_graph`: missing endpoints become placeholder nodes, then the edge is added. */
  method InsertDependencies(start: Graph, deps: seq<Dependency>) returns (g: Graph)
    ensures g == AddDependencies(start, deps)
  {
    g := start;
    for i := 0 to |deps|
      invariant g == AddDependencies(start, deps[..i])
    {
      assert deps[..i + 1][..i] == deps[..i];
      var d := deps[i];
      if !(d.source in g.nodes.entries) {
        g := AddNode(g, d.source, Placeholder(d.source));
      }
      if !(d.target in g.nodes.entries) {
        g := AddNode(g, d.target, Placeholder(d.target));
      }
      g := g.(edges := g.edges + [EdgeOf(d)]);
    }
    assert deps[..|deps|] == deps;
  }

  // ---------------------------------------------------------------------------------------
  // Degrees
  // ---------------------------------------------------------------------------------------

  /** `G.in_degree(n)`: the edges into `n`, parallel edges counted. */
  function InDegree(edges: seq<Edge>, n: string): nat {
    if edges == [] then 0
    else InDegree(edges[..|edges| - 1], n) + (if edges[|edges| - 1].dst == n then 1 else 0)
  }

  /** `G.out_degree(n)`: the edges out of `n`, parallel edges counted. */
  function OutDegree(edges: seq<Edge>, n: string): nat {
    if edges == [] then 0
    else OutDegree(edges[..|edges| - 1], n) + (if edges[|edges| - 1].src == n then 1 else 0)
  }

  // ---------------------------------------------------------------------------------------
  // Subgraphs
  // ---------------------------------------------------------------------------------------

  /** `G.subgraph(keep).copy()`: the nodes in `keep` with their attributes, and every edge among them. */
  /** The test `n in keep`. */
  function InSet(keep: set<string>): string -> bool {
    (n: string) => n in keep
  }

  /** The test that both ends of an edge are in `keep`. */
  function Between(keep: set<string>): Edge -> bool {
    (e: Edge) => e.src in keep && e.dst in keep
  }

  /** The relation-type test of `filter_graph`. */
  function AllowedBy(relationTypes: seq<string>): Edge -> bool {
    (e: Edge) => EdgeAllowed(e, relationTypes)
  }

  function Induced(g: Graph, keep: set<string>): Graph {
    Graph(
      Dict(Filter(InSet(keep), g.nodes.keys), map n | n in g.nodes.entries && n in keep :: g.nodes.entries[n]),
      Filter(Between(keep), g.edges))
  }

  /** The attributes of `n`, or none. */
  function Data(g: Graph, n: string): Attrs {
    g.nodes.Get(n, map[])
  }

  /** `data.get(key) in values`: only a string attribute can be listed. */
  predicate AttrIn(data: Attrs, key: string, values: seq<string>) {
    key in data && data[key].VStr? && data[key].s in values
  }

  /** The node test of `filter_graph`; an empty list (or `None`) imposes no constraint. */
  predicate NodePasses(g: Graph, n: string, domains: seq<string>, roles: seq<string>, minInDegree: int) {
    (domains == [] || AttrIn(Data(g, n), "domain", domains))
    && (roles == [] || AttrIn(Data(g, n), "role", roles))
    && InDegree(g.edges, n) >= minInDegree
  }

  /** `nodes_to_keep` after the node loop has seen `names`. */
  function KeptNodes(g: Graph, names: seq<string>, domains: seq<string>, roles: seq<string>, minInDegree: int): set<string> {
    if names == [] then {}
    else
      var n := names[|names| - 1];
      var keep := KeptNodes(g, names[..|names| - 1], domains, roles, minInDegree);
      if NodePasses(g, n, domains, roles, minInDegree) then keep + {n} else keep
  }

  /** An edge survives the relation-type filter. */
  predicate EdgeAllowed(e: Edge, relationTypes: seq<string>) {
    relationTypes == [] || e.relationType in relationTypes
  }

  /** A package node's `domain` and `role` attributes are listed exactly when the package's own facets are. */
  lemma {:induction false} NodeAttrsFacets(p: Package, values: seq<string>)
    ensures AttrIn(NodeAttrs(p), "domain", values) <==> p.domain in values
    ensures AttrIn(NodeAttrs(p), "role", values) <==> p.role in values
  {
  }

  /** What `filter_graph` returns. */
  function Filtered(g: Graph, domains: seq<string>, roles: seq<string>, relationTypes: seq<string>, minInDegree: int): Graph {
    var sub := Induced(g, KeptNodes(g, g.nodes.keys, domains, roles, minInDegree));
    sub.(edges := Filter(AllowedBy(relationTypes), sub.edges))
  }

  /**
   * `filter_graph`: keep the nodes that pass the facet and in-degree tests, take the induced
   * subgraph, then remove the edges whose relation type is not selected.
   */
  method FilterGraph(g: Graph, domains: seq<string>, roles: seq<string>, relationTypes: seq<string>, minInDegree: int)
    returns (r: Graph)
    ensures r == Filtered(g, domains, roles, relationTypes, minInDegree)
  {
    var keep := NodesToKeep(g, domains, roles, minInDegree);
    r := Induced(g, keep);
    if relationTypes != [] {
      var kept := RemoveEdges(r.edges, relationTypes);
      r := r.(edges := kept);
    } else {
      FilterAll(AllowedBy(relationTypes), r.edges);
    }
  }

  /** The node loop of `filter_graph`. */
  method NodesToKeep(g: Graph, domains: seq<string>, roles: seq<string>, minInDegree: int) returns (keep: set<string>)
    ensures keep == KeptNodes(g, g.nodes.keys, domains, roles, minInDegree)
  {
    var names := g.nodes.keys;
    keep := {};
    for i := 0 to |names|
      invariant keep == KeptNodes(g, names[..i], domains, roles, minInDegree)
    {
      assert names[..i + 1][..i] == names[..i];
      var n := names[i];
      var data := Data(g, n);
      if domains != [] && !AttrIn(data, "domain", domains) {
        continue;
      }
      if roles != [] && !AttrIn(data, "role", roles) {
        continue;
      }
      if InDegree(g.edges, n) < minInDegree {
        continue;
      }
      keep := keep + {n};
    }
    assert names[..|names|] == names;
  }

  /** The `edges_to_remove` loop and the `remove_edge` loop of `filter_graph`; edge positions stand for edge keys. */
  method RemoveEdges(edges: seq<Edge>, relationTypes: seq<string>) returns (kept: seq<Edge>)
    requires relationTypes != []
    ensures kept == Filter(AllowedBy(relationTypes), edges)
  {
    var toRemove: set<int> := {};
    for i := 0 to |edges|
      invariant toRemove == set j | 0 <= j < i && edges[j].relationType !in relationTypes
    {
      if edges[i].relationType !in relationTypes {
        toRemove := toRemove + {i};
      }
    }
    kept := [];
    for i := 0 to |edges|
      invariant kept == Filter(AllowedBy(relationTypes), edges[..i])
    {
      assert edges[..i + 1][..i] == edges[..i];
      if i !in toRemove {
        kept := kept + [edges[i]];
      }
    }
    assert edges[..|edges|] == edges;
  }

  // ---------------------------------------------------------------------------------------
  // Neighbourhoods
  // ---------------------------------------------------------------------------------------

  /** `G.predecessors(n)`. */
  function Predecessors(g: Graph, n: string): set<string> {
    set e | e in g.edges && e.dst == n :: e.src
  }

  /** `G.successors(n)`. */
  function Successors(g: Graph, n: string): set<string> {
    set e | e in g.edges && e.src == n :: e.dst
  }

  /** Every predecessor and successor of the nodes of `frontier`. */
  function Neighbours(g: Graph, frontier: set<string>): set<string> {
    (set e | e in g.edges && e.dst in frontier :: e.src) + (set e | e in g.edges && e.src in frontier :: e.dst)
  }

  /** The frontier after `k` hops from `center`. */
  function Frontier(g: Graph, center: string, k: nat): set<string> {
    if k == 0 then {center} else Neighbours(g, Frontier(g, center, k - 1))
  }

  /** The node set after `k` hops: every frontier so far. */
  function Reached(g: Graph, center: string, k: nat): set<string> {
    if k == 0 then {center} else Reached(g, center, k - 1) + Frontier(g, center, k)
  }

  /** What `get_subgraph_around` returns; `range(depth)` is empty for a negative depth. */
  function Around(g: Graph, center: string, depth: int): Graph {
    if !g.HasNode(center) then EmptyGraph()
    else Induced(g, Reached(g, center, if depth < 0 then 0 else depth))
  }

  /** `get_subgraph_around`: grow the node set hop by hop through predecessors and successors. */
  method SubgraphAround(g: Graph, center: string, depth: int) returns (r: Graph)
    ensures r == Around(g, center, depth)
  {
    if !(center in g.nodes.entries) {
      return EmptyGraph();
    }
    var nodes: set<string> := {center};
    var frontier: set<string> := {center};
    var hops := if depth < 0 then 0 else depth;
    for k := 0 to hops
      invariant nodes == Reached(g, center, k) && frontier == Frontier(g, center, k)
    {
      var newFrontier := Hop(g, frontier);
      nodes := nodes + newFrontier;
      frontier := newFrontier;
    }
    r := Induced(g, nodes);
  }

  /** The inner loop of `get_subgraph_around`: the predecessors and successors of every frontier node. */
  method Hop(g: Graph, frontier: set<string>) returns (newFrontier: set<string>)
    ensures newFrontier == Neighbours(g, frontier)
  {
    newFrontier := {};
    var rest := frontier;
    while rest != {}
      invariant rest <= frontier
      invariant newFrontier == Neighbours(g, frontier - rest)
      decreases |rest|
    {
      var n :| n in rest;
      NeighboursAdd(g, frontier - rest, n);
      assert frontier - (rest - {n}) == (frontier - rest) + {n};
      newFrontier := newFrontier + Predecessors(g, n) + Successors(g, n);
      rest := rest - {n};
    }
    assert frontier - rest == frontier;
  }

  // ---------------------------------------------------------------------------------------
  // Properties of build_graph
  // ---------------------------------------------------------------------------------------

  /** The set of package names. */
  function Names(packages: seq<Package>): set<string> {
    set p | p in packages :: p.name
  }

  /** The set of dependency endpoints. */
  function Endpoints(deps: seq<Dependency>): set<string> {
    (set d | d in deps :: d.source) + (set d | d in deps :: d.target)
  }

  /** The package loop lists each name once and holds exactly the package names. */
  lemma {:induction false} AddPackagesNodes(packages: seq<Package>, attrsOf: Package -> Attrs)
    ensures AddPackages(packages, attrsOf).nodes.Valid()
    ensures forall n :: AddPackages(packages, attrsOf).HasNode(n) <==> n in Names(packages)
  {
    if packages != [] {
      var init, p := packages[..|packages| - 1], packages[|packages| - 1];
      AddPackagesNodes(init, attrsOf);
      assert packages == init + [p];
      NamesSnoc(init, p);
      AddNodeNodes(AddPackages(init, attrsOf), p.name, attrsOf(p));
    }
  }

  /** Adding a node keeps the nodes listed once and adds exactly that name. */
  lemma {:induction false} AddNodeNodes(g: Graph, n: string, attrs: Attrs)
    ensures var r := AddNode(g, n, attrs);
      (g.nodes.Valid() ==> r.nodes.Valid()) && forall m :: r.HasNode(m) <==> g.HasNode(m) || m == n
  {
  }

  /** The names of one more package. */
  lemma {:induction false} NamesSnoc(packages: seq<Package>, p: Package)
    ensures Names(packages + [p]) == Names(packages) + {p.name}
  {
    assert forall x :: x in packages + [p] <==> x in packages || x == p;
  }

  /** The endpoints of one more dependency. */
  lemma {:induction false} EndpointsSnoc(deps: seq<Dependency>, d: Dependency)
    ensures Endpoints(deps + [d]) == Endpoints(deps) + {d.source, d.target}
  {
    assert forall x :: x in deps + [d] <==> x in deps || x == d;
  }

  /** The dependency loop keeps the nodes it starts from and adds exactly the endpoints, each once. */
  lemma {:induction false} AddDependenciesNodes(g: Graph, deps: seq<Dependency>)
    requires g.nodes.Valid()
    ensures AddDependencies(g, deps).nodes.Valid()
    ensures forall n :: AddDependencies(g, deps).HasNode(n) <==> g.HasNode(n) || n in Endpoints(deps)
  {
    if deps != [] {
      var init, d := deps[..|deps| - 1], deps[|deps| - 1];
      AddDependenciesNodes(g, init);
      assert deps == init + [d];
      EndpointsSnoc(init, d);
    }
  }

  /** The dependency loop adds one edge per dependency, in order. */
  lemma {:induction false} AddDependenciesEdges(g: Graph, deps: seq<Dependency>)
    ensures AddDependencies(g, deps).edges == g.edges + Map(EdgeOf, deps)
  {
    if deps != [] {
      var init, d := deps[..|deps| - 1], deps[|deps| - 1];
      AddDependenciesEdges(g, init);
      assert Map(EdgeOf, deps) == Map(EdgeOf, init) + [EdgeOf(d)];
    }
  }

  /** After `build_graph` every package name and both endpoints of every dependency are nodes, and there are no others. */
  lemma {:induction false} BuiltNodes(packages: seq<Package>, deps: seq<Dependency>)
    ensures Built(packages, deps).nodes.Valid()
    ensures forall n :: Built(packages, deps).HasNode(n) <==> n in Names(packages) || n in Endpoints(deps)
  {
    AddPackagesNodes(packages, NodeAttrs);
    AddDependenciesNodes(AddPackages(packages, NodeAttrs), deps);
  }

  /** Edge `i` of the built graph carries the endpoints, relation value, version and file of dependency `i`. */
  lemma {:induction false} BuiltEdges(packages: seq<Package>, deps: seq<Dependency>, g: Graph)
    requires g == Built(packages, deps)
    ensures |g.edges| == |deps|
    ensures forall i :: 0 <= i < |deps| ==>
      g.edges[i] == Edge(deps[i].source, deps[i].target, deps[i].relationType.Value(), deps[i].versionConstraint, deps[i].sourceFile)
  {
    var start := AddPackages(packages, NodeAttrs);
    AddDependenciesEdges(start, deps);
    assert g.edges == Map(EdgeOf, deps);
  }

  /** The built graph is a valid graph: every edge joins two nodes. */
  lemma {:induction false} BuiltValid(packages: seq<Package>, deps: seq<Dependency>, g: Graph)
    requires g == Built(packages, deps)
    ensures g.Valid()
  {
    BuiltNodes(packages, deps);
    BuiltEdges(packages, deps, g);
    forall e | e in g.edges
      ensures e.src in g.nodes.entries && e.dst in g.nodes.entries
    {
      var i :| 0 <= i < |g.edges| && g.edges[i] == e;
      var d := deps[i];
      assert e.src == d.source && e.dst == d.target;
      assert d.source in Endpoints(deps) && d.target in Endpoints(deps) by {
        assert d in deps;
      }
    }
  }

  /** The attributes of a node no dependency endpoint adds are untouched by the dependency loop. */
  lemma {:induction false} AddDependenciesKeepsAttrs(g: Graph, deps: seq<Dependency>, n: string)
    requires g.HasNode(n)
    ensures AddDependencies(g, deps).HasNode(n)
    ensures AddDependencies(g, deps).nodes.entries[n] == g.nodes.entries[n]
  {
    if deps != [] {
      AddDependenciesKeepsAttrs(g, deps[..|deps| - 1], n);
    }
  }

  /** A package node carries the attributes of the last package of its name, when all attribute sets share their keys. */
  lemma {:induction false} AddPackagesAttrs(packages: seq<Package>, attrsOf: Package -> Attrs, keys: set<string>, i: int)
    requires 0 <= i < |packages|
    requires forall j :: i < j < |packages| ==> packages[j].name != packages[i].name
    requires forall p :: attrsOf(p).Keys == keys
    ensures AddPackages(packages, attrsOf).HasNode(packages[i].name)
    ensures AddPackages(packages, attrsOf).nodes.entries[packages[i].name] == attrsOf(packages[i])
  {
    var init, p := packages[..|packages| - 1], packages[|packages| - 1];
    var before := AddPackages(init, attrsOf);
    if i == |packages| - 1 {
      if p.name in before.nodes.entries {
        var earlier := before.nodes.entries[p.name];
        AddPackagesAttrKeys(init, attrsOf, keys, p.name);
        assert earlier + attrsOf(p) == attrsOf(p);
      }
    } else {
      AddPackagesAttrs(init, attrsOf, keys, i);
    }
  }

  /** Every package node's attributes have the common keys. */
  lemma {:induction false} AddPackagesAttrKeys(packages: seq<Package>, attrsOf: Package -> Attrs, keys: set<string>, n: string)
    requires forall p :: attrsOf(p).Keys == keys
    requires AddPackages(packages, attrsOf).HasNode(n)
    ensures AddPackages(packages, attrsOf).nodes.entries[n].Keys == keys
  {
    var init := packages[..|packages| - 1];
    if AddPackages(init, attrsOf).HasNode(n) {
      AddPackagesAttrKeys(init, attrsOf, keys, n);
    }
  }

  /**
   * A package node carries the dictionary form of the last package of that name; a node that
   * is only a dependency endpoint carries just its name.
   */
  lemma {:induction false} BuiltAttrs(packages: seq<Package>, deps: seq<Dependency>, n: string)
    requires Built(packages, deps).HasNode(n)
    ensures forall i :: 0 <= i < |packages| && packages[i].name == n
                        && (forall j :: i < j < |packages| ==> packages[j].name != n) ==>
              Built(packages, deps).nodes.entries[n] == NodeAttrs(packages[i])
    ensures n !in Names(packages) ==> Built(packages, deps).nodes.entries[n] == Placeholder(n)
  {
    AddPackagesNodes(packages, NodeAttrs);
    assert forall p :: NodeAttrs(p).Keys == PackageFieldSet;
    forall i | 0 <= i < |packages| && packages[i].name == n && (forall j :: i < j < |packages| ==> packages[j].name != n)
      ensures Built(packages, deps).nodes.entries[n] == NodeAttrs(packages[i])
    {
      AddPackagesAttrs(packages, NodeAttrs, PackageFieldSet, i);
      AddDependenciesKeepsAttrs(AddPackages(packages, NodeAttrs), deps, n);
    }
    if n !in Names(packages) {
      PlaceholderAttrs(AddPackages(packages, NodeAttrs), deps, n);
    }
  }

  /** A node the dependency loop adds carries the placeholder attributes. */
  lemma {:induction false} PlaceholderAttrs(g: Graph, deps: seq<Dependency>, n: string)
    requires !g.HasNode(n) && AddDependencies(g, deps).HasNode(n)
    ensures AddDependencies(g, deps).nodes.entries[n] == Placeholder(n)
  {
    var init := deps[..|deps| - 1];
    if AddDependencies(g, init).HasNode(n) {
      PlaceholderAttrs(g, init, n);
    }
  }

  // ---------------------------------------------------------------------------------------
  // Properties of filter_graph
  // ---------------------------------------------------------------------------------------

  /** `nodes_to_keep` holds exactly the passing names seen. */
  lemma {:induction false} KeptNodesPass(g: Graph, names: seq<string>, domains: seq<string>, roles: seq<string>, minInDegree: int)
    ensures forall n :: n in KeptNodes(g, names, domains, roles, minInDegree) <==> n in names && NodePasses(g, n, domains, roles, minInDegree)
  {
    if names != [] {
      var init := names[..|names| - 1];
      KeptNodesPass(g, init, domains, roles, minInDegree);
      assert names == init + [names[|names| - 1]];
    }
  }

  /**
   * A node is kept iff it passes the facet tests and its in-degree in the original graph is
   * large enough, and it keeps its attributes.
   */
  lemma {:induction false} FilteredNodes(g: Graph, domains: seq<string>, roles: seq<string>, relationTypes: seq<string>, minInDegree: int)
    requires g.Valid()
    ensures var r := Filtered(g, domains, roles, relationTypes, minInDegree);
      r.Valid()
      && (forall n :: r.HasNode(n) <==> g.HasNode(n) && NodePasses(g, n, domains, roles, minInDegree))
      && (forall n :: r.HasNode(n) ==> r.nodes.entries[n] == g.nodes.entries[n])
  {
    var keep := KeptNodes(g, g.nodes.keys, domains, roles, minInDegree);
    KeptNodesPass(g, g.nodes.keys, domains, roles, minInDegree);
    InducedValid(g, keep);
  }

  /**
   * The edges left are exactly the original edges between kept nodes whose relation type is
   * selected, in their original order.
   */
  lemma {:induction false} FilteredEdges(g: Graph, domains: seq<string>, roles: seq<string>, relationTypes: seq<string>, minInDegree: int)
    requires g.Valid()
    ensures var r := Filtered(g, domains, roles, relationTypes, minInDegree);
      (forall e :: e in r.edges <==>
         e in g.edges && NodePasses(g, e.src, domains, roles, minInDegree)
         && NodePasses(g, e.dst, domains, roles, minInDegree) && EdgeAllowed(e, relationTypes))
      && IsSubsequence(r.edges, g.edges)
  {
    var keep := KeptNodes(g, g.nodes.keys, domains, roles, minInDegree);
    KeptNodesPass(g, g.nodes.keys, domains, roles, minInDegree);
    var inKeep := Between(keep);
    var allowed := AllowedBy(relationTypes);
    var both := (e: Edge) => e.src in keep && e.dst in keep && EdgeAllowed(e, relationTypes);
    FilterFilter(allowed, inKeep, both, g.edges);
    FilterIsSubsequence(both, g.edges);
    forall e
      ensures e in Filter(both, g.edges) <==> e in g.edges && both(e)
    {
      FilterMember(both, g.edges, e);
    }
  }

  /** An induced subgraph of a valid graph is valid. */
  lemma {:induction false} InducedValid(g: Graph, keep: set<string>)
    requires g.Valid()
    ensures Induced(g, keep).Valid()
    ensures forall n :: Induced(g, keep).HasNode(n) <==> g.HasNode(n) && n in keep
  {
    FilterDistinct(InSet(keep), g.nodes.keys);
  }

  /** With no facet, relation or degree constraint, `filter_graph` returns the graph unchanged. */
  lemma {:induction false} FilterWithoutConstraints(g: Graph, minInDegree: int)
    requires g.Valid() && minInDegree <= 0
    ensures Filtered(g, [], [], [], minInDegree) == g
  {
    var keep := KeptNodes(g, g.nodes.keys, [], [], minInDegree);
    KeptNodesPass(g, g.nodes.keys, [], [], minInDegree);
    assert forall n :: n in g.nodes.entries ==> n in keep;
    InducedOnAll(g, keep);
    FilterAll(AllowedBy([]), g.edges);
  }

  /** The subgraph induced by a set holding every node is the graph itself. */
  lemma {:induction false} InducedOnAll(g: Graph, keep: set<string>)
    requires g.Valid() && forall n :: n in g.nodes.entries ==> n in keep
    ensures Induced(g, keep) == g
  {
    FilterAll(InSet(keep), g.nodes.keys);
    FilterAll(Between(keep), g.edges);
    assert Induced(g, keep).nodes.entries == g.nodes.entries;
  }

  // ---------------------------------------------------------------------------------------
  // Properties of get_subgraph_around
  // ---------------------------------------------------------------------------------------

  /** Adding one node to a frontier adds its predecessors and successors. */
  lemma {:induction false} NeighboursAdd(g: Graph, a: set<string>, n: string)
    ensures Neighbours(g, a + {n}) == Neighbours(g, a) + Predecessors(g, n) + Successors(g, n)
  {
  }

  /** `a` and `b` are joined by an edge in one direction or the other. */
  ghost predicate Adjacent(g: Graph, a: string, b: string) {
    exists e :: e in g.edges && ((e.src == a && e.dst == b) || (e.src == b && e.dst == a))
  }

  /** `w` is a walk of the graph with edge directions ignored. */
  ghost predicate UndirectedWalk(g: Graph, w: seq<string>) {
    forall i :: 0 <= i < |w| - 1 ==> Adjacent(g, w[i], w[i + 1])
  }

  /** `w` is an undirected walk from `a` to `b`. */
  ghost predicate WalkBetween(g: Graph, w: seq<string>, a: string, b: string) {
    |w| >= 1 && w[0] == a && w[|w| - 1] == b && UndirectedWalk(g, w)
  }

  /** The neighbours of a set are the nodes adjacent to one of its members. */
  lemma {:induction false} NeighboursAdjacent(g: Graph, s: set<string>, n: string)
    ensures n in Neighbours(g, s) <==> exists m :: m in s && Adjacent(g, m, n)
  {
    if n in Neighbours(g, s) {
      if n in (set e | e in g.edges && e.dst in s :: e.src) {
        var e :| e in g.edges && e.dst in s && e.src == n;
        assert Adjacent(g, e.dst, n);
      } else {
        var e :| e in g.edges && e.src in s && e.dst == n;
        assert Adjacent(g, e.src, n);
      }
    }
    if exists m :: m in s && Adjacent(g, m, n) {
      var m :| m in s && Adjacent(g, m, n);
      var e :| e in g.edges && ((e.src == m && e.dst == n) || (e.src == n && e.dst == m));
      if e.src == m && e.dst == n {
        assert n in (set e | e in g.edges && e.src in s :: e.dst);
      } else {
        assert n in (set e | e in g.edges && e.dst in s :: e.src);
      }
    }
  }

  /** A walk extended by an adjacent node is a walk to that node. */
  lemma {:induction false} WalkExtend(g: Graph, w: seq<string>, a: string, b: string, c: string)
    requires WalkBetween(g, w, a, b) && Adjacent(g, b, c)
    ensures WalkBetween(g, w + [c], a, c)
  {
    var w' := w + [c];
    forall i | 0 <= i < |w'| - 1
      ensures Adjacent(g, w'[i], w'[i + 1])
    {
      if i < |w| - 1 {
        assert w'[i] == w[i] && w'[i + 1] == w[i + 1];
      }
    }
  }

  /** A walk of two nodes or more without its last node is a walk to the node before. */
  lemma {:induction false} WalkPrefix(g: Graph, w: seq<string>, a: string, b: string)
    requires |w| >= 2 && WalkBetween(g, w, a, b)
    ensures WalkBetween(g, w[..|w| - 1], a, w[|w| - 2]) && Adjacent(g, w[|w| - 2], b)
  {
    var init := w[..|w| - 1];
    forall i | 0 <= i < |init| - 1
      ensures Adjacent(g, init[i], init[i + 1])
    {
      assert init[i] == w[i] && init[i + 1] == w[i + 1];
    }
  }

  /** The frontier after `k` hops holds exactly the ends of the undirected walks of `k` steps from the center. */
  lemma {:induction false} FrontierWalks(g: Graph, center: string, k: nat, n: string)
    ensures n in Frontier(g, center, k) <==> exists w :: |w| == k + 1 && WalkBetween(g, w, center, n)
  {
    if k == 0 {
      if n in Frontier(g, center, k) {
        assert WalkBetween(g, [center], center, n);
      }
    } else {
      var before := Frontier(g, center, k - 1);
      NeighboursAdjacent(g, before, n);
      if n in Frontier(g, center, k) {
        var m :| m in before && Adjacent(g, m, n);
        FrontierWalks(g, center, k - 1, m);
        var w :| |w| == k && WalkBetween(g, w, center, m);
        WalkExtend(g, w, center, m, n);
      }
      if exists w :: |w| == k + 1 && WalkBetween(g, w, center, n) {
        var w :| |w| == k + 1 && WalkBetween(g, w, center, n);
        WalkPrefix(g, w, center, n);
        FrontierWalks(g, center, k - 1, w[k - 1]);
        assert Adjacent(g, w[k - 1], w[k]);
      }
    }
  }

  /**
   * The node set of `get_subgraph_around` holds exactly the nodes within `depth` undirected
   * hops of the center.
   */
  lemma {:induction false} ReachedWithinHops(g: Graph, center: string, k: nat, n: string)
    ensures n in Reached(g, center, k) <==> exists w :: |w| <= k + 1 && WalkBetween(g, w, center, n)
  {
    FrontierWalks(g, center, k, n);
    if k == 0 {
      if exists w :: |w| <= 1 && WalkBetween(g, w, center, n) {
        var w :| |w| <= 1 && WalkBetween(g, w, center, n);
        assert w[0] == center == n;
      }
    } else {
      ReachedWithinHops(g, center, k - 1, n);
      if exists w :: |w| <= k + 1 && WalkBetween(g, w, center, n) {
        var w :| |w| <= k + 1 && WalkBetween(g, w, center, n);
        if |w| <= k {
          assert exists w :: |w| <= k && WalkBetween(g, w, center, n);
        } else {
          assert exists w :: |w| == k + 1 && WalkBetween(g, w, center, n);
        }
      }
    }
  }

  /** A deeper neighbourhood contains a shallower one. */
  lemma {:induction false} ReachedMonotone(g: Graph, center: string, j: nat, k: nat)
    requires j <= k
    ensures Reached(g, center, j) <= Reached(g, center, k)
  {
    if j < k {
      ReachedMonotone(g, center, j, k - 1);
    }
  }

  /**
   * For a present center the result holds the nodes within `depth` hops with their attributes,
   * and every original edge among them; for an absent center it is empty.
   */
  lemma {:induction false} AroundShape(g: Graph, center: string, depth: int)
    requires g.Valid()
    ensures var r := Around(g, center, depth);
      r.Valid()
      && (!g.HasNode(center) ==> r.nodes.keys == [] && r.edges == [])
      && (g.HasNode(center) ==>
            r.HasNode(center)
            && (forall n :: r.HasNode(n) ==> r.nodes.entries[n] == g.nodes.entries[n])
            && forall e :: e in r.edges <==> e in g.edges && r.HasNode(e.src) && r.HasNode(e.dst))
  {
    if g.HasNode(center) {
      var k := if depth < 0 then 0 else depth;
      ReachedMonotone(g, center, 0, k);
      InducedValid(g, Reached(g, center, k));
    }
  }
}
