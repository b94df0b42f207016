/**
 * Path queries over the dependency graph: shortest path, all simple paths up to a length,
 * per-step details of a path, and the packages shared by several packages as dependencies or
 * as dependents.
 */
module GraphPaths {
  import opened Wrappers
  import opened Seqs
  import opened PyStrings
  import opened Dicts
  import opened Models
  import opened GraphBuilder

  /** Some edge runs from `a` to `b`. */
  predicate HasEdge(g: Graph, a: string, b: string) {
    b in Successors(g, a)
  }

  /** `p` is a directed path of the graph: at least one node, each step along an edge. */
  ghost predicate IsPath(g: Graph, p: seq<string>) {
    |p| >= 1 && forall i :: 0 <= i < |p| - 1 ==> HasEdge(g, p[i], p[i + 1])
  }

  /** `p` is a directed path from `a` to `b`. */
  ghost predicate PathBetween(g: Graph, p: seq<string>, a: string, b: string) {
    IsPath(g, p) && p[0] == a && p[|p| - 1] == b
  }

  // ---------------------------------------------------------------------------------------
  // find_shortest_path
  // ---------------------------------------------------------------------------------------

  /** The targets of the edges that leave `from`. */
  function Step(g: Graph, from: set<string>): set<string> {
    set e | e in g.edges && e.src in from :: e.dst
  }

  /** The nodes reachable from `source` along at most `k` edges. */
  function Within(g: Graph, source: string, k: nat): set<string> {
    if k == 0 then {source} else Within(g, source, k - 1) + Step(g, Within(g, source, k - 1))
  }

  /** The first edge into `t` from a node of `from`. */
  function FirstInto(edges: seq<Edge>, from: set<string>, t: string): (e: Edge)
    requires exists e :: e in edges && e.src in from && e.dst == t
    ensures e in edges && e.src in from && e.dst == t
  {
    if edges[0].src in from && edges[0].dst == t then edges[0] else FirstInto(edges[1..], from, t)
  }

  /**
   * A path from `source` to a node `t` reachable within `k` edges: back through the first
   * edge from the previous layer.
   */
  function PathTo(g: Graph, source: string, k: nat, t: string): (p: seq<string>)
    requires t in Within(g, source, k)
    ensures 1 <= |p| <= k + 1 && p[0] == source && p[|p| - 1] == t
    ensures IsPath(g, p)
  {
    if k == 0 then [source]
    else if t in Within(g, source, k - 1) then PathTo(g, source, k - 1, t)
    else
      var e := FirstInto(g.edges, Within(g, source, k - 1), t);
      var q := PathTo(g, source, k - 1, e.src);
      PathSnocEdge(g, q, e);
      q + [t]
  }

  /** On a valid graph every reachable node is a node. */
  lemma {:induction false} WithinNodes(g: Graph, source: string, k: nat)
    requires g.Valid() && source in g.nodes.entries
    ensures Within(g, source, k) <= g.nodes.entries.Keys
  {
    if k > 0 {
      WithinNodes(g, source, k - 1);
    }
  }

  /** The layers only grow. */
  lemma {:induction false} WithinMonotone(g: Graph, source: string, j: nat, k: nat)
    requires j <= k
    ensures Within(g, source, j) <= Within(g, source, k)
  {
    if j < k {
      WithinMonotone(g, source, j, k - 1);
    }
  }

  /** Layers `a` and `b` hold the same nodes. */
  ghost predicate SameLayer(g: Graph, source: string, a: nat, b: nat) {
    Within(g, source, a) == Within(g, source, b)
  }

  /** Once a layer adds nothing, no later layer does. */
  lemma {:induction false} WithinStable(g: Graph, source: string, k: nat, j: nat)
    requires SameLayer(g, source, k + 1, k) && k <= j
    ensures SameLayer(g, source, j, k)
  {
    var i := k;
    while i < j
      invariant k <= i <= j && SameLayer(g, source, i, k)
    {
      WithinNext(g, source, i, i + 1, k);
      i := i + 1;
    }
  }

  /** A layer equal to a stable layer is followed by that layer again. */
  lemma {:induction false} WithinNext(g: Graph, source: string, a: nat, b: nat, k: nat)
    requires b == a + 1
    requires SameLayer(g, source, a, k) && SameLayer(g, source, k + 1, k)
    ensures SameLayer(g, source, b, k)
  {
  }

  /** One more layer that adds a node leaves fewer nodes unreached. */
  lemma {:induction false} Shrinks(all: set<string>, a: set<string>, b: set<string>)
    requires a <= b <= all && a != b
    ensures |all - b| < |all - a|
  {
    var x :| x in b && x !in a;
    assert all - a == (all - b) + (b - a);
    assert (all - b) * (b - a) == {};
    assert x in b - a;
  }

  /** The next layer, with the facts the search needs about it. */
  lemma {:induction false} NextLayer(g: Graph, source: string, k: nat, reached: set<string>)
    requires g.Valid() && reached == Within(g, source, k) && reached <= g.nodes.entries.Keys
    ensures Within(g, source, k + 1) == reached + Step(g, reached)
    ensures reached <= Within(g, source, k + 1) <= g.nodes.entries.Keys
  {
  }

  /** A layer that adds a node is the next search state, with fewer nodes left unreached. */
  lemma {:induction false} SearchStep(g: Graph, source: string, k: nat, reached: set<string>)
    requires g.Valid() && reached == Within(g, source, k) && reached <= g.nodes.entries.Keys
    requires reached + Step(g, reached) != reached
    ensures reached + Step(g, reached) == Within(g, source, k + 1)
    ensures reached + Step(g, reached) <= g.nodes.entries.Keys
    ensures |g.nodes.entries.Keys - (reached + Step(g, reached))| < |g.nodes.entries.Keys - reached|
  {
    NextLayer(g, source, k, reached);
    Shrinks(g.nodes.entries.Keys, reached, reached + Step(g, reached));
  }

  /**
   * The number of hops BFS needs to reach `target`, searching from layer `k` on, where
   * `reached` is the set of nodes within `k` hops.
   */
  function Search(g: Graph, source: string, target: string, k: nat, reached: set<string>): (r: Option<nat>)
    requires g.Valid() && reached == Within(g, source, k) && reached <= g.nodes.entries.Keys
    ensures r.Some? ==> k <= r.value
    decreases |g.nodes.entries.Keys - reached|
  {
    if target in reached then Some(k)
    else
      var next := reached + Step(g, reached);
      if next == reached then None
      else
        SearchStep(g, source, k, reached);
        Search(g, source, target, k + 1, next)
  }

  /** `find_shortest_path`: `None` when an endpoint is missing or there is no path. */
  function ShortestPath(g: Graph, source: string, target: string): Option<seq<string>>
    requires g.Valid()
  {
    if !g.HasNode(source) || !g.HasNode(target) then None
    else match Search(g, source, target, 0, {source})
      case None => None
      case Some(k) =>
        SearchFound(g, source, target, 0, {source}, k, 0);
        Some(PathTo(g, source, k, target))
  }

  /** An edge is a step of a path. */
  lemma {:induction false} EdgeStep(g: Graph, e: Edge)
    requires e in g.edges
    ensures HasEdge(g, e.src, e.dst)
  {
  }

  /** A path followed by one more edge is a path. */
  lemma {:induction false} PathSnoc(g: Graph, q: seq<string>, t: string)
    requires IsPath(g, q) && HasEdge(g, q[|q| - 1], t)
    ensures IsPath(g, q + [t])
  {
    var p := q + [t];
    forall i | 0 <= i < |p| - 1
      ensures HasEdge(g, p[i], p[i + 1])
    {
      if i < |q| - 1 {
        assert p[i] == q[i] && p[i + 1] == q[i + 1];
      }
    }
  }

  /** A path followed by an edge out of its last node is a path. */
  lemma {:induction false} PathSnocEdge(g: Graph, q: seq<string>, e: Edge)
    requires IsPath(g, q) && e in g.edges && q[|q| - 1] == e.src
    ensures IsPath(g, q + [e.dst])
  {
    EdgeStep(g, e);
    PathSnoc(g, q, e.dst);
  }

  /** A path without its last node is a path. */
  lemma {:induction false} PathPrefix(g: Graph, p: seq<string>)
    requires IsPath(g, p) && |p| > 1
    ensures IsPath(g, p[..|p| - 1]) && HasEdge(g, p[|p| - 2], p[|p| - 1])
  {
    var q := p[..|p| - 1];
    forall i | 0 <= i < |q| - 1
      ensures HasEdge(g, q[i], q[i + 1])
    {
      assert HasEdge(g, p[i], p[i + 1]);
    }
  }

  /** The end of a path from `source` with `n` edges is reachable within `n` edges. */
  lemma {:induction false} PathWithin(g: Graph, p: seq<string>, source: string)
    requires IsPath(g, p) && p[0] == source
    ensures p[|p| - 1] in Within(g, source, |p| - 1)
  {
    if |p| > 1 {
      var q := p[..|p| - 1];
      PathPrefix(g, p);
      PathWithin(g, q, source);
      var e :| e in g.edges && e.src == p[|p| - 2] && e.dst == p[|p| - 1];
      assert p[|p| - 1] in Step(g, Within(g, source, |p| - 2));
    }
  }

  /** A found hop count reaches the target, and no layer from `k` up to it does. */
  lemma {:induction false} SearchFound(g: Graph, source: string, target: string, k: nat, reached: set<string>, d: nat, j: nat)
    requires g.Valid() && reached == Within(g, source, k) && reached <= g.nodes.entries.Keys
    requires Search(g, source, target, k, reached) == Some(d)
    requires k <= j
    ensures k <= d && target in Within(g, source, d)
    ensures j < d ==> target !in Within(g, source, j)
    decreases |g.nodes.entries.Keys - reached|
  {
    if target !in reached {
      var next := reached + Step(g, reached);
      NextLayer(g, source, k, reached);
      Shrinks(g.nodes.entries.Keys, reached, next);
      SearchFound(g, source, target, k + 1, next, d, if j == k then k + 1 else j);
    }
  }

  /** When the search gives up, the target is in no layer. */
  lemma {:induction false} SearchGivesUp(g: Graph, source: string, target: string, k: nat, reached: set<string>, j: nat)
    requires g.Valid() && reached == Within(g, source, k) && reached <= g.nodes.entries.Keys
    requires Search(g, source, target, k, reached) == None
    ensures target !in Within(g, source, j)
    decreases |g.nodes.entries.Keys - reached|
  {
    var next := reached + Step(g, reached);
    NextLayer(g, source, k, reached);
    if j <= k {
      WithinMonotone(g, source, j, k);
    } else if next == reached {
      WithinStable(g, source, k, j);
    } else {
      Shrinks(g.nodes.entries.Keys, reached, next);
      SearchGivesUp(g, source, target, k + 1, next, j);
    }
  }

  /** A found path runs from `source` to `target` along edges, and no path between them is shorter. */
  lemma {:induction false} ShortestPathIsShortest(g: Graph, source: string, target: string, q: seq<string>)
    requires g.Valid()
    requires ShortestPath(g, source, target).Some?
    ensures PathBetween(g, ShortestPath(g, source, target).value, source, target)
    ensures PathBetween(g, q, source, target) ==> |ShortestPath(g, source, target).value| <= |q|
  {
    var d := Search(g, source, target, 0, {source}).value;
    SearchFound(g, source, target, 0, {source}, d, 0);
    if PathBetween(g, q, source, target) {
      PathWithin(g, q, source);
      SearchFound(g, source, target, 0, {source}, d, |q| - 1);
    }
  }

  /** `None` exactly when an endpoint is missing or no path joins them. */
  lemma {:induction false} ShortestPathNone(g: Graph, source: string, target: string)
    requires g.Valid()
    ensures ShortestPath(g, source, target).None? <==>
      !g.HasNode(source) || !g.HasNode(target) || forall q :: !PathBetween(g, q, source, target)
  {
    if g.HasNode(source) && g.HasNode(target) {
      match Search(g, source, target, 0, {source})
      case None =>
        forall q | PathBetween(g, q, source, target)
          ensures false
        {
          PathWithin(g, q, source);
          SearchGivesUp(g, source, target, 0, {source}, |q| - 1);
        }
      case Some(d) =>
        SearchFound(g, source, target, 0, {source}, d, 0);
        assert PathBetween(g, PathTo(g, source, d, target), source, target);
    }
  }

  /** A package reaches itself by the one-node path. */
  lemma {:induction false} ShortestPathToSelf(g: Graph, n: string)
    requires g.Valid() && g.HasNode(n)
    ensures ShortestPath(g, n, n) == Some([n])
  {
  }

  // ---------------------------------------------------------------------------------------
  // find_all_paths
  // ---------------------------------------------------------------------------------------

  /** The targets of the edges out of `u`, in edge order, once per parallel edge. */
  function Targets(edges: seq<Edge>, u: string): seq<string> {
    if edges == [] then []
    else Targets(edges[..|edges| - 1], u) + if edges[|edges| - 1].src == u then [edges[|edges| - 1].dst] else []
  }

  /** The targets listed are exactly the successors. */
  lemma {:induction false} TargetsAreSuccessors(g: Graph, edges: seq<Edge>, u: string, v: string)
    requires forall e :: e in edges ==> e in g.edges
    ensures v in Targets(edges, u) ==> HasEdge(g, u, v)
    ensures edges == g.edges && HasEdge(g, u, v) ==> v in Targets(edges, u)
  {
    if edges != [] {
      var init, last := edges[..|edges| - 1], edges[|edges| - 1];
      TargetsAreSuccessors(g, init, u, v);
      if edges == g.edges && HasEdge(g, u, v) {
        var e :| e in g.edges && e.src == u && e.dst == v;
        if e != last {
          assert e in init by {
            var i :| 0 <= i < |edges| && edges[i] == e;
            assert init[i] == e;
          }
          TargetsHasEdge(init, u, e);
        }
      }
    }
  }

  /** An edge out of `u` among `edges` puts its target in the list. */
  lemma {:induction false} TargetsHasEdge(edges: seq<Edge>, u: string, e: Edge)
    requires e in edges && e.src == u
    ensures e.dst in Targets(edges, u)
  {
    var init, last := edges[..|edges| - 1], edges[|edges| - 1];
    if e != last {
      assert e in init by {
        var i :| 0 <= i < |edges| && edges[i] == e;
        assert init[i] == e;
      }
      TargetsHasEdge(init, u, e);
    }
  }

  /**
   * The simple paths the depth-first search of the graph library yields below `path` when
   * the children still to visit are `out`: a child already on the path is skipped, the
   * target ends a path, and any other child is entered while the path has fewer than
   * `cutoff` nodes.
   */
  function Branches(g: Graph, target: string, cutoff: nat, path: seq<string>, out: seq<string>): seq<seq<string>>
    requires 1 <= |path| <= cutoff
    decreases cutoff - |path|, |out|
  {
    if out == [] then []
    else
      var v := out[0];
      (if v in path then []
       else if v == target then [path + [v]]
       else if |path| < cutoff then Branches(g, target, cutoff, path + [v], Targets(g.edges, v))
       else [])
      + Branches(g, target, cutoff, path, out[1..])
  }

  /** `sorted(paths, key=len)`: `x` goes after every path that is not longer. */
  function InsertByLength(x: seq<string>, s: seq<seq<string>>): (r: seq<seq<string>>)
    ensures |r| == |s| + 1
  {
    if s == [] then [x]
    else if |x| < |s[0]| then [x] + s
    else [s[0]] + InsertByLength(x, s[1..])
  }

  /** Stable insertion sort by length. */
  function SortByLength(s: seq<seq<string>>): (r: seq<seq<string>>)
    ensures |r| == |s|
  {
    if s == [] then [] else InsertByLength(s[|s| - 1], SortByLength(s[..|s| - 1]))
  }

  /** What `find_all_paths` returns for `max_length` `cutoff`. */
  function AllSimplePaths(g: Graph, source: string, target: string, cutoff: int): seq<seq<string>> {
    if !g.HasNode(source) || !g.HasNode(target) then []
    else if cutoff < 1 || source == target then []
    else SortByLength(Branches(g, target, cutoff, [source], Targets(g.edges, source)))
  }

  /** Non-decreasing by length. */
  predicate ByLength(s: seq<seq<string>>) {
    forall i, j :: 0 <= i < j < |s| ==> |s[i]| <= |s[j]|
  }

  /** The paths of `s` with `n` nodes, in order. */
  function WithLength(s: seq<seq<string>>, n: nat): seq<seq<string>> {
    if s == [] then []
    else WithLength(s[..|s| - 1], n) + (if |s[|s| - 1]| == n then [s[|s| - 1]] else [])
  }

  lemma {:induction false} InsertByLengthPermutes(x: seq<string>, s: seq<seq<string>>)
    ensures multiset(InsertByLength(x, s)) == multiset(s) + multiset{x}
  {
    if s != [] && |x| >= |s[0]| {
      InsertByLengthPermutes(x, s[1..]);
      assert s == [s[0]] + s[1..];
    }
  }

  lemma {:induction false} InsertByLengthBounded(x: seq<string>, s: seq<seq<string>>, bound: nat)
    requires |x| >= bound
    requires forall i :: 0 <= i < |s| ==> |s[i]| >= bound
    ensures forall i :: 0 <= i < |InsertByLength(x, s)| ==> |InsertByLength(x, s)[i]| >= bound
  {
    if s != [] && |x| >= |s[0]| {
      InsertByLengthBounded(x, s[1..], bound);
    }
  }

  lemma {:induction false} InsertByLengthSorted(x: seq<string>, s: seq<seq<string>>)
    requires ByLength(s)
    ensures ByLength(InsertByLength(x, s))
  {
    if s != [] && |x| >= |s[0]| {
      var rest := s[1..];
      InsertByLengthSorted(x, rest);
      InsertByLengthBounded(x, rest, |s[0]|);
      var r := InsertPastFirst(x, s, rest);
      forall i, j | 0 <= i < j < |r|
        ensures |r[i]| <= |r[j]|
      {
        assert r[j] == InsertByLength(x, rest)[j - 1];
        if i > 0 {
          assert r[i] == InsertByLength(x, rest)[i - 1];
        }
      }
    }
  }

  /** The shape of an insertion that passes the first element. */
  function InsertPastFirst(x: seq<string>, s: seq<seq<string>>, rest: seq<seq<string>>): (r: seq<seq<string>>)
    requires s != [] && |x| >= |s[0]| && rest == s[1..]
    ensures r == InsertByLength(x, s)
  {
    [s[0]] + InsertByLength(x, rest)
  }

  lemma {:induction false} SortByLengthSortsAndPermutes(s: seq<seq<string>>)
    ensures multiset(SortByLength(s)) == multiset(s) && ByLength(SortByLength(s))
  {
    if s != [] {
      var init, x := s[..|s| - 1], s[|s| - 1];
      SortByLengthSortsAndPermutes(init);
      InsertByLengthPermutes(x, SortByLength(init));
      InsertByLengthSorted(x, SortByLength(init));
      assert s == init + [x];
    }
  }

  lemma {:induction false} WithLengthCons(x: seq<string>, s: seq<seq<string>>, n: nat)
    ensures WithLength([x] + s, n) == (if |x| == n then [x] else []) + WithLength(s, n)
  {
    if s == [] {
      assert [x] + s == [x];
      assert [x][..0] == [];
    } else {
      var t := [x] + s;
      assert t[..|t| - 1] == [x] + s[..|s| - 1];
      WithLengthCons(x, s[..|s| - 1], n);
    }
  }

  lemma {:induction false} WithLengthNone(s: seq<seq<string>>, n: nat)
    requires ByLength(s) && (s != [] ==> |s[0]| > n)
    ensures WithLength(s, n) == []
  {
    if s != [] {
      WithLengthNone(s[..|s| - 1], n);
      assert |s[|s| - 1]| >= |s[0]|;
    }
  }

  lemma {:induction false} InsertByLengthWithLength(x: seq<string>, s: seq<seq<string>>, n: nat)
    requires ByLength(s)
    ensures WithLength(InsertByLength(x, s), n) == WithLength(s, n) + (if |x| == n then [x] else [])
  {
    if s == [] {
      assert [x][..0] == [];
    } else if |x| < |s[0]| {
      InsertFrontWithLength(x, s, n);
    } else {
      ByLengthTail(s);
      InsertByLengthWithLength(x, s[1..], n);
      InsertPastWithLength(x, s, n);
    }
  }

  lemma {:induction false} ByLengthTail(s: seq<seq<string>>)
    requires ByLength(s) && s != []
    ensures ByLength(s[1..])
  {
    var tail := s[1..];
    forall i, j | 0 <= i < j < |tail|
      ensures |tail[i]| <= |tail[j]|
    {
      assert tail[i] == s[i + 1] && tail[j] == s[j + 1];
    }
  }

  /** A path at least as long as the first one is inserted into the rest. */
  lemma {:induction false} InsertPastWithLength(x: seq<string>, s: seq<seq<string>>, n: nat)
    requires s != [] && |x| >= |s[0]|
    requires WithLength(InsertByLength(x, s[1..]), n) == WithLength(s[1..], n) + (if |x| == n then [x] else [])
    ensures WithLength(InsertByLength(x, s), n) == WithLength(s, n) + (if |x| == n then [x] else [])
  {
    var tail := s[1..];
    var rest := InsertByLength(x, tail);
    var head := if |s[0]| == n then [s[0]] else [];
    var xs := if |x| == n then [x] else [];
    WithLengthCons(s[0], rest, n);
    WithLengthCons(s[0], tail, n);
    assert [s[0]] + tail == s;
    calc {
      WithLength(InsertByLength(x, s), n);
      WithLength([s[0]] + rest, n);
      head + WithLength(rest, n);
      head + (WithLength(tail, n) + xs);
      WithLength(s, n) + xs;
    }
  }

  /** A path shorter than every sorted path goes first. */
  lemma {:induction false} InsertFrontWithLength(x: seq<string>, s: seq<seq<string>>, n: nat)
    requires ByLength(s) && s != [] && |x| < |s[0]|
    ensures WithLength(InsertByLength(x, s), n) == WithLength(s, n) + (if |x| == n then [x] else [])
  {
    WithLengthCons(x, s, n);
    if |x| == n {
      WithLengthNone(s, n);
    }
  }

  /** The sort is stable: paths of equal length keep the order the search found them in. */
  lemma {:induction false} SortByLengthIsStable(s: seq<seq<string>>, n: nat)
    ensures WithLength(SortByLength(s), n) == WithLength(s, n)
  {
    if s != [] {
      SortByLengthIsStable(s[..|s| - 1], n);
      SortByLengthSortsAndPermutes(s[..|s| - 1]);
      InsertByLengthWithLength(s[|s| - 1], SortByLength(s[..|s| - 1]), n);
    }
  }

  /** Every path found below `path` is a simple path that extends it and ends at the target. */
  lemma {:induction false} BranchesSound(g: Graph, target: string, cutoff: nat, path: seq<string>, out: seq<string>, p: seq<string>)
    requires 1 <= |path| <= cutoff
    requires IsPath(g, path) && Distinct(path)
    requires forall v :: v in out ==> HasEdge(g, path[|path| - 1], v)
    requires p in Branches(g, target, cutoff, path, out)
    ensures IsPath(g, p) && Distinct(p) && |path| < |p| <= cutoff + 1
    ensures p[..|path|] == path && p[|p| - 1] == target
    decreases cutoff - |path|, |out|
  {
    var v := out[0];
    var here := if v in path then []
       else if v == target then [path + [v]]
       else if |path| < cutoff then Branches(g, target, cutoff, path + [v], Targets(g.edges, v))
       else [];
    assert v in out;
    if p in here {
      PathSnoc(g, path, v);
      var longer := path + [v];
      assert Distinct(longer) by {
        forall i, j | 0 <= i < j < |longer|
          ensures longer[i] != longer[j]
        {
          if j < |path| {
            assert longer[i] == path[i] && longer[j] == path[j];
          } else {
            assert longer[i] == path[i];
          }
        }
      }
      if v != target {
        forall w | w in Targets(g.edges, v)
          ensures HasEdge(g, longer[|longer| - 1], w)
        {
          TargetsAreSuccessors(g, g.edges, v, w);
        }
        BranchesSound(g, target, cutoff, longer, Targets(g.edges, v), p);
        assert p[..|path|] == p[..|longer|][..|path|];
      }
    } else {
      forall w | w in out[1..]
        ensures HasEdge(g, path[|path| - 1], w)
      {
        assert w in out;
      }
      BranchesSound(g, target, cutoff, path, out[1..], p);
    }
  }

  /**
   * Every simple path to the target that extends `path` through a child in `out`, with at
   * most `cutoff` edges, is found.
   */
  lemma {:induction false} BranchesComplete(g: Graph, target: string, cutoff: nat, path: seq<string>, out: seq<string>, q: seq<string>)
    requires 1 <= |path| <= cutoff
    requires IsPath(g, q) && Distinct(q) && |path| < |q| <= cutoff + 1
    requires q[..|path|] == path && q[|q| - 1] == target
    requires q[|path|] in out
    ensures q in Branches(g, target, cutoff, path, out)
    decreases cutoff - |path|, |out|
  {
    var v := out[0];
    if v == q[|path|] {
      assert v !in path by {
        forall i | 0 <= i < |path|
          ensures path[i] != v
        {
          assert path[i] == q[i];
        }
      }
      if v == target {
        assert q[|path|] == q[|q| - 1];
        assert |q| - 1 == |path|;
        assert q == path + [v];
      } else {
        var longer := path + [v];
        assert q[..|longer|] == longer;
        assert q[|path|] != q[|q| - 1];
        assert HasEdge(g, q[|path|], q[|path| + 1]);
        TargetsAreSuccessors(g, g.edges, v, q[|longer|]);
        BranchesComplete(g, target, cutoff, longer, Targets(g.edges, v), q);
      }
    } else {
      BranchesComplete(g, target, cutoff, path, out[1..], q);
    }
  }

  /**
   * Each path returned is a simple path from `source` to `target` with at least one and at
   * most `max_length` edges.
   */
  lemma {:induction false} AllSimplePathsSound(g: Graph, source: string, target: string, cutoff: int, p: seq<string>)
    requires p in AllSimplePaths(g, source, target, cutoff)
    ensures PathBetween(g, p, source, target) && Distinct(p) && 2 <= |p| <= cutoff + 1
  {
    var raw := Branches(g, target, cutoff, [source], Targets(g.edges, source));
    SortByLengthSortsAndPermutes(raw);
    assert p in multiset(SortByLength(raw));
    forall v | v in Targets(g.edges, source)
      ensures HasEdge(g, source, v)
    {
      TargetsAreSuccessors(g, g.edges, source, v);
    }
    BranchesSound(g, target, cutoff, [source], Targets(g.edges, source), p);
    assert p[0] == p[..1][0];
  }

  /**
   * Every simple path between two distinct present packages with at most `max_length` edges
   * is returned.
   */
  lemma {:induction false} AllSimplePathsComplete(g: Graph, source: string, target: string, cutoff: int, q: seq<string>)
    requires g.HasNode(source) && g.HasNode(target) && source != target
    requires PathBetween(g, q, source, target) && Distinct(q) && |q| <= cutoff + 1
    ensures q in AllSimplePaths(g, source, target, cutoff)
  {
    var raw := Branches(g, target, cutoff, [source], Targets(g.edges, source));
    assert |q| >= 2;
    assert q[..1] == [source];
    assert HasEdge(g, q[0], q[1]);
    TargetsAreSuccessors(g, g.edges, source, q[1]);
    BranchesComplete(g, target, cutoff, [source], Targets(g.edges, source), q);
    SortByLengthSortsAndPermutes(raw);
    assert q in multiset(SortByLength(raw));
  }

  /**
   * The paths come shortest first; paths of equal length stay in the order the search found
   * them; a missing endpoint gives no paths.
   */
  lemma {:induction false} AllSimplePathsOrdered(g: Graph, source: string, target: string, cutoff: int, n: nat)
    ensures ByLength(AllSimplePaths(g, source, target, cutoff))
    ensures g.HasNode(source) && g.HasNode(target) && cutoff >= 1 && source != target ==>
      WithLength(AllSimplePaths(g, source, target, cutoff), n)
      == WithLength(Branches(g, target, cutoff, [source], Targets(g.edges, source)), n)
    ensures !g.HasNode(source) || !g.HasNode(target) ==> AllSimplePaths(g, source, target, cutoff) == []
  {
    if g.HasNode(source) && g.HasNode(target) && cutoff >= 1 && source != target {
      var raw := Branches(g, target, cutoff, [source], Targets(g.edges, source));
      SortByLengthSortsAndPermutes(raw);
      SortByLengthIsStable(raw, n);
    }
  }

  // ---------------------------------------------------------------------------------------
  // get_path_details
  // ---------------------------------------------------------------------------------------

  /** The edge fields a step reports. */
  datatype EdgeInfo = EdgeInfo(relationType: string, version: Option<string>)

  /** One step of a path: the package with its domain and role, and the edge to the next step. */
  datatype PathStep = PathStep(package: string, domain: Value, role: Value, edge: Option<EdgeInfo>)

  /** The first of the parallel edges from `a` to `b`, if any. */
  function FirstEdge(edges: seq<Edge>, a: string, b: string): (r: Option<Edge>)
    ensures r.Some? ==> r.value in edges && r.value.src == a && r.value.dst == b
    ensures r.None? <==> forall e :: e in edges ==> !(e.src == a && e.dst == b)
  {
    if edges == [] then None
    else if edges[0].src == a && edges[0].dst == b then Some(edges[0])
    else FirstEdge(edges[1..], a, b)
  }

  /** The first parallel edge is the earliest one. */
  lemma {:induction false} FirstEdgeIsEarliest(edges: seq<Edge>, a: string, b: string, i: int)
    requires FirstEdge(edges, a, b).Some? && 0 <= i < |edges| && edges[i].src == a && edges[i].dst == b
    ensures exists j :: 0 <= j <= i && edges[j] == FirstEdge(edges, a, b).value
  {
    if !(edges[0].src == a && edges[0].dst == b) {
      FirstEdgeIsEarliest(edges[1..], a, b, i - 1);
      var j :| 0 <= j <= i - 1 && edges[1..][j] == FirstEdge(edges, a, b).value;
      assert edges[j + 1] == edges[1..][j];
    }
  }

  /** `data.get(key, 'unknown')`. */
  function AttrOrUnknown(data: Attrs, key: string): Value {
    if key in data then data[key] else VStr("unknown")
  }

  /** The step `get_path_details` records for position `i`. */
  function StepAt(g: Graph, path: seq<string>, i: nat): PathStep
    requires i < |path|
  {
    var data := Data(g, path[i]);
    PathStep(
      path[i],
      AttrOrUnknown(data, "domain"),
      AttrOrUnknown(data, "role"),
      if i < |path| - 1 then
        match FirstEdge(g.edges, path[i], path[i + 1])
        case Some(e) => Some(EdgeInfo(e.relationType, e.versionConstraint))
        case None => None
      else None)
  }

  /** The steps for the first `n` positions. */
  function StepsUpTo(g: Graph, path: seq<string>, n: nat): (r: seq<PathStep>)
    requires n <= |path|
    ensures |r| == n && forall i :: 0 <= i < n ==> r[i] == StepAt(g, path, i)
  {
    if n == 0 then [] else StepsUpTo(g, path, n - 1) + [StepAt(g, path, n - 1)]
  }

  /** What `get_path_details` returns; `G.nodes[node]` raises `KeyError` for a missing node. */
  function PathDetails(g: Graph, path: seq<string>): Outcome<seq<PathStep>> {
    if forall n :: n in path ==> g.HasNode(n) then Returned(StepsUpTo(g, path, |path|)) else Raised(KeyError)
  }

  /** `get_path_details`: one step per path node, in order. */
  method GetPathDetails(g: Graph, path: seq<string>) returns (r: Outcome<seq<PathStep>>)
    ensures r == PathDetails(g, path)
  {
    var details: seq<PathStep> := [];
    for i := 0 to |path|
      invariant details == StepsUpTo(g, path, i)
      invariant forall j :: 0 <= j < i ==> g.HasNode(path[j])
    {
      var node := path[i];
      if node !in g.nodes.entries {
        assert node in path;
        return Raised(KeyError);
      }
      var data := g.nodes.entries[node];
      var step := PathStep(node, AttrOrUnknown(data, "domain"), AttrOrUnknown(data, "role"), None);
      if i < |path| - 1 {
        var edgeData := FirstEdge(g.edges, node, path[i + 1]);
        if edgeData.Some? {
          step := step.(edge := Some(EdgeInfo(edgeData.value.relationType, edgeData.value.versionConstraint)));
        }
      }
      details := details + [step];
    }
    return Returned(details);
  }

  /**
   * For a path of nodes, each step names its node with that node's domain and role ('unknown'
   * when missing); every step but the last reports the first parallel edge to the next node
   * when there is one, and the last step reports no edge.
   */
  lemma {:induction false} PathDetailsSteps(g: Graph, path: seq<string>, i: int)
    requires forall n :: n in path ==> g.HasNode(n)
    requires 0 <= i < |path|
    ensures PathDetails(g, path).Returned? && |PathDetails(g, path).value| == |path|
    ensures PathDetails(g, path).value[i].package == path[i]
    ensures PathDetails(g, path).value[i].domain == AttrOrUnknown(Data(g, path[i]), "domain")
    ensures PathDetails(g, path).value[i].role == AttrOrUnknown(Data(g, path[i]), "role")
    ensures i == |path| - 1 ==> PathDetails(g, path).value[i].edge == None
    ensures i < |path| - 1 ==>
      (PathDetails(g, path).value[i].edge.None? <==> !HasEdge(g, path[i], path[i + 1]))
    ensures i < |path| - 1 && PathDetails(g, path).value[i].edge.Some? ==>
      exists e :: e in g.edges && e.src == path[i] && e.dst == path[i + 1]
        && PathDetails(g, path).value[i].edge.value == EdgeInfo(e.relationType, e.versionConstraint)
    ensures i < |path| - 1 && PathDetails(g, path).value[i].edge.Some? ==>
      FirstEdge(g.edges, path[i], path[i + 1]).Some?
      && PathDetails(g, path).value[i].edge.value
        == EdgeInfo(FirstEdge(g.edges, path[i], path[i + 1]).value.relationType,
                    FirstEdge(g.edges, path[i], path[i + 1]).value.versionConstraint)
  {
    if i < |path| - 1 {
      var first := FirstEdge(g.edges, path[i], path[i + 1]);
      if first.Some? {
        assert HasEdge(g, path[i], path[i + 1]);
      }
    }
  }

  /** Any node missing from the graph makes the query raise `KeyError`. */
  lemma {:induction false} PathDetailsMissingNode(g: Graph, path: seq<string>, i: int)
    requires 0 <= i < |path| && !g.HasNode(path[i])
    ensures PathDetails(g, path) == Raised(KeyError)
  {
  }

  // ---------------------------------------------------------------------------------------
  // find_common_dependencies / find_common_dependents
  // ---------------------------------------------------------------------------------------

  /** `x` placed in the strictly sorted `s`, unless it is already there. */
  function InsertStr(x: string, s: seq<string>): seq<string> {
    if s == [] then [x]
    else if StrLt(x, s[0]) then [x] + s
    else if x == s[0] then s
    else [s[0]] + InsertStr(x, s[1..])
  }

  /** Inserting keeps the sequence strictly sorted and adds exactly `x`. */
  lemma {:induction false} InsertStrSorted(x: string, s: seq<string>)
    requires StrictlySorted(s)
    ensures StrictlySorted(InsertStr(x, s))
    ensures forall y :: y in InsertStr(x, s) <==> y == x || y in s
  {
    if s == [] {
    } else if StrLt(x, s[0]) {
      forall j | 0 < j < |s|
        ensures StrLt(x, s[j])
      {
        StrLtTransitive(x, s[0], s[j]);
      }
      InsertBelow(x, s);
    } else if x != s[0] {
      var rest := InsertStr(x, s[1..]);
      InsertStrSorted(x, s[1..]);
      StrLtTotal(x, s[0]);
      forall y | y in rest
        ensures StrLt(s[0], y)
      {
        if y != x {
          var k :| 0 <= k < |s[1..]| && s[1..][k] == y;
          assert s[1..][k] == s[k + 1];
        }
      }
      InsertBelow(s[0], rest);
      assert s == [s[0]] + s[1..];
    }
  }

  /** A value below every element of a strictly sorted sequence can go first. */
  lemma {:induction false} InsertBelow(x: string, s: seq<string>)
    requires StrictlySorted(s) && forall y :: y in s ==> StrLt(x, y)
    ensures StrictlySorted([x] + s)
  {
    var r := [x] + s;
    forall i, j | 0 <= i < j < |r|
      ensures StrLt(r[i], r[j])
    {
      assert r[j] == s[j - 1];
      if i > 0 {
        assert r[i] == s[i - 1];
      }
    }
  }

  /** `sorted(s)` for a set of strings. */
  method SortedSet(s: set<string>) returns (r: seq<string>)
    ensures StrictlySorted(r) && forall x :: x in r <==> x in s
  {
    r := [];
    var rest := s;
    while rest != {}
      invariant StrictlySorted(r)
      invariant rest <= s
      invariant forall x :: x in r <==> x in s && x !in rest
      decreases rest
    {
      var x :| x in rest;
      InsertStrSorted(x, r);
      r := InsertStr(x, r);
      rest := rest - {x};
    }
  }

  /** A strictly sorted listing of a set is the only one: `sorted` leaves no choice. */
  lemma {:induction false} SortedListingUnique(a: seq<string>, b: seq<string>)
    requires StrictlySorted(a) && StrictlySorted(b)
    requires forall x :: x in a <==> x in b
    ensures a == b
  {
    if a != [] || b != [] {
      assert a != [] && b != [] by {
        if a != [] {
          assert a[0] in a;
        }
        if b != [] {
          assert b[0] in b;
        }
      }
      if a[0] != b[0] {
        assert a[0] in a && b[0] in b;
        var ib :| 0 <= ib < |b| && b[ib] == a[0];
        var ia :| 0 <= ia < |a| && a[ia] == b[0];
        assert ib > 0 && ia > 0;
        StrLtTransitive(a[0], a[ia], a[0]);
        StrLtIrreflexive(a[0]);
      }
      forall x
        ensures x in a[1..] <==> x in b[1..]
      {
        if x in a[1..] {
          var i :| 0 <= i < |a[1..]| && a[1..][i] == x;
          assert a[i + 1] == x && StrLt(a[0], x);
          StrLtIrreflexive(x);
          assert x in b;
        }
        if x in b[1..] {
          var i :| 0 <= i < |b[1..]| && b[1..][i] == x;
          assert b[i + 1] == x && StrLt(b[0], x);
          StrLtIrreflexive(x);
          assert x in a;
        }
      }
      SortedListingUnique(a[1..], b[1..]);
      assert a == [a[0]] + a[1..] && b == [b[0]] + b[1..];
    }
  }

  /** The neighbour sets of the names present in the graph, in order. */
  function NeighbourSets(g: Graph, names: seq<string>, forward: bool): (r: seq<set<string>>)
    ensures |r| <= |names|
  {
    if names == [] then []
    else
      var n := names[|names| - 1];
      NeighbourSets(g, names[..|names| - 1], forward)
      + if g.HasNode(n) then [if forward then Successors(g, n) else Predecessors(g, n)] else []
  }

  /** The intersection of a non-empty list of sets. */
  function Intersection(sets: seq<set<string>>): set<string>
    requires sets != []
  {
    if |sets| == 1 then sets[0] else Intersection(sets[..|sets| - 1]) * sets[|sets| - 1]
  }

  /** The set `find_common_dependencies` (forward) or `find_common_dependents` sorts. */
  function Common(g: Graph, names: seq<string>, forward: bool): set<string> {
    var sets := NeighbourSets(g, names, forward);
    if sets == [] then {} else Intersection(sets)
  }

  /**
   * `find_common_dependencies` (`forward`) and `find_common_dependents`: intersect the
   * successor (predecessor) sets of the present names, then sort.
   */
  method FindCommon(g: Graph, names: seq<string>, forward: bool) returns (r: seq<string>)
    ensures StrictlySorted(r) && forall x :: x in r <==> x in Common(g, names, forward)
  {
    if names == [] {
      return [];
    }
    var sets: seq<set<string>> := [];
    for i := 0 to |names|
      invariant sets == NeighbourSets(g, names[..i], forward)
    {
      assert names[..i + 1][..i] == names[..i];
      var n := names[i];
      if n in g.nodes.entries {
        sets := sets + [if forward then Successors(g, n) else Predecessors(g, n)];
      }
    }
    assert names[..|names|] == names;
    if sets == [] {
      return [];
    }
    var common := sets[0];
    for i := 1 to |sets|
      invariant common == Intersection(sets[..i])
    {
      assert sets[..i + 1][..i] == sets[..i];
      common := common * sets[i];
    }
    assert sets[..|sets|] == sets;
    r := SortedSet(common);
  }

  /** The sets listed are exactly those of the present names. */
  lemma {:induction false} NeighbourSetsOfPresent(g: Graph, names: seq<string>, forward: bool, s: set<string>)
    ensures s in NeighbourSets(g, names, forward) <==>
      exists n :: n in names && g.HasNode(n) && s == (if forward then Successors(g, n) else Predecessors(g, n))
  {
    if names != [] {
      var init := names[..|names| - 1];
      NeighbourSetsOfPresent(g, init, forward, s);
      assert names == init + [names[|names| - 1]];
    }
  }

  /** An element is in the intersection exactly when it is in every set. */
  lemma {:induction false} IntersectionMember(sets: seq<set<string>>, x: string)
    requires sets != []
    ensures x in Intersection(sets) <==> forall s :: s in sets ==> x in s
  {
    if |sets| > 1 {
      IntersectionMember(sets[..|sets| - 1], x);
      assert sets == sets[..|sets| - 1] + [sets[|sets| - 1]];
    }
  }

  /**
   * A package is common exactly when some listed name is present and it is a successor
   * (predecessor) of every present listed name; absent names are skipped.
   */
  lemma {:induction false} CommonMember(g: Graph, names: seq<string>, forward: bool, x: string)
    ensures x in Common(g, names, forward) <==>
      (exists n :: n in names && g.HasNode(n))
      && forall n :: n in names && g.HasNode(n) ==> x in (if forward then Successors(g, n) else Predecessors(g, n))
  {
    var sets := NeighbourSets(g, names, forward);
    if sets == [] {
      forall n | n in names && g.HasNode(n)
        ensures false
      {
        NeighbourSetsOfPresent(g, names, forward, if forward then Successors(g, n) else Predecessors(g, n));
      }
    } else {
      IntersectionMember(sets, x);
      NeighbourSetsOfPresent(g, names, forward, sets[0]);
      forall n | n in names && g.HasNode(n)
        ensures (if forward then Successors(g, n) else Predecessors(g, n)) in sets
      {
        NeighbourSetsOfPresent(g, names, forward, if forward then Successors(g, n) else Predecessors(g, n));
      }
      forall s | s in sets
        ensures exists n :: n in names && g.HasNode(n) && s == (if forward then Successors(g, n) else Predecessors(g, n))
      {
        NeighbourSetsOfPresent(g, names, forward, s);
      }
    }
  }

  /** With only one present name the result is that name's own successor (predecessor) set. */
  lemma {:induction false} CommonOfOne(g: Graph, names: seq<string>, forward: bool, n: string)
    requires g.HasNode(n) && forall m :: m in names && g.HasNode(m) ==> m == n
    requires n in names
    ensures Common(g, names, forward) == if forward then Successors(g, n) else Predecessors(g, n)
  {
    var expected := if forward then Successors(g, n) else Predecessors(g, n);
    forall x
      ensures x in Common(g, names, forward) <==> x in expected
    {
      CommonMember(g, names, forward, x);
    }
  }
}
