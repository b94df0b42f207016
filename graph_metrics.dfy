/**
 * Centrality metrics of the dependency graph. Degrees are counted here; PageRank,
 * betweenness, density and the connected components come from the graph library and are
 * given as inputs.
 */
module GraphMetrics {
  import opened Wrappers
  import opened Seqs
  import opened Dicts
  import opened Models
  import opened GraphBuilder

  /** The metrics of one node. */
  datatype NodeMetrics = NodeMetrics(inDegree: int, outDegree: int, pagerank: real, betweenness: real)

  /**
   * The library's centrality scores: `pagerank` is `None` when the power iteration did not
   * converge; `betweenness` is exact or sampled, as the library computed it.
   */
  datatype Centrality = Centrality(pagerank: Option<map<string, real>>, betweenness: map<string, real>)

  /** `d.get(n, 0.0)`. */
  function RealOr0(d: map<string, real>, n: string): real {
    if n in d then d[n] else 0.0
  }

  /** The metrics `compute_metrics` records for node `n`; a failed PageRank reads as 0.0 everywhere. */
  function MetricsOf(g: Graph, c: Centrality, n: string): NodeMetrics {
    NodeMetrics(
      InDegree(g.edges, n),
      OutDegree(g.edges, n),
      if c.pagerank.Some? then RealOr0(c.pagerank.value, n) else 0.0,
      RealOr0(c.betweenness, n))
  }

  /** What `compute_metrics` returns after its loop has seen `names`. */
  function MetricsFor(g: Graph, c: Centrality, names: seq<string>): Dict<string, NodeMetrics> {
    Dict(names, map n | n in names :: MetricsOf(g, c, n))
  }

  /** Recording one more node extends the dictionary by that node's entry. */
  lemma {:induction false} MetricsForSnoc(g: Graph, c: Centrality, names: seq<string>, n: string)
    requires n !in names
    ensures MetricsFor(g, c, names + [n]) == MetricsFor(g, c, names).Put(n, MetricsOf(g, c, n))
  {
    var a := MetricsFor(g, c, names + [n]);
    var b := MetricsFor(g, c, names).Put(n, MetricsOf(g, c, n));
    assert a.keys == b.keys;
    assert a.entries == b.entries;
  }

  /** `compute_metrics`: one entry per node, in node order. */
  method ComputeMetrics(g: Graph, c: Centrality) returns (metrics: Dict<string, NodeMetrics>)
    requires g.nodes.Valid()
    ensures metrics == MetricsFor(g, c, g.nodes.keys)
  {
    var names := g.nodes.keys;
    metrics := EmptyDict();
    for i := 0 to |names|
      invariant metrics == MetricsFor(g, c, names[..i])
    {
      var n := names[i];
      assert n !in names[..i] by {
        forall j | 0 <= j < i
          ensures names[..i][j] != n
        {
          assert names[..i][j] == names[j];
        }
      }
      assert names[..i + 1] == names[..i] + [n];
      MetricsForSnoc(g, c, names[..i], n);
      metrics := metrics.Put(n, MetricsOf(g, c, n));
    }
    assert names[..|names|] == names;
  }

  // ---------------------------------------------------------------------------------------
  // update_package_metrics
  // ---------------------------------------------------------------------------------------

  /** A package with the metrics of its node written back, when it has one. */
  function WithMetrics(p: Package, metrics: Dict<string, NodeMetrics>): Package {
    if p.name in metrics.entries then
      var m := metrics.entries[p.name];
      p.(inDegree := m.inDegree, outDegree := m.outDegree, pagerank := m.pagerank, betweenness := m.betweenness)
    else p
  }

  /** `update_package_metrics`: the package objects are updated in place; the model returns them. */
  method UpdatePackageMetrics(packages: seq<Package>, g: Graph, c: Centrality) returns (r: seq<Package>)
    requires g.nodes.Valid()
    ensures |r| == |packages|
    ensures forall i :: 0 <= i < |packages| ==> r[i] == WithMetrics(packages[i], MetricsFor(g, c, g.nodes.keys))
  {
    var metrics := ComputeMetrics(g, c);
    r := packages;
    for i := 0 to |packages|
      invariant |r| == |packages|
      invariant forall j :: 0 <= j < i ==> r[j] == WithMetrics(packages[j], metrics)
      invariant forall j :: i <= j < |packages| ==> r[j] == packages[j]
    {
      var pkg := r[i];
      if pkg.name in metrics.entries {
        var m := metrics.entries[pkg.name];
        pkg := pkg.(inDegree := m.inDegree, outDegree := m.outDegree, pagerank := m.pagerank, betweenness := m.betweenness);
      }
      r := r[i := pkg];
    }
  }

  /**
   * A package present in the graph gets its node's degrees and centrality and nothing else
   * changes; a package absent from the graph is untouched.
   */
  lemma {:induction false} MetricsWrittenBack(p: Package, g: Graph, c: Centrality)
    ensures var q := WithMetrics(p, MetricsFor(g, c, g.nodes.keys));
      q == p.(inDegree := q.inDegree, outDegree := q.outDegree, pagerank := q.pagerank, betweenness := q.betweenness)
      && (p.name in g.nodes.keys ==>
            q.inDegree == InDegree(g.edges, p.name) && q.outDegree == OutDegree(g.edges, p.name)
            && q.pagerank == (if c.pagerank.Some? then RealOr0(c.pagerank.value, p.name) else 0.0)
            && q.betweenness == RealOr0(c.betweenness, p.name))
      && (p.name !in g.nodes.keys ==> q == p)
  {
  }

  // ---------------------------------------------------------------------------------------
  // find_hidden_pillars
  // ---------------------------------------------------------------------------------------

  /** One entry of the hidden-pillar ranking: a node's metrics with its score and star count. */
  datatype Pillar = Pillar(name: string, metrics: NodeMetrics, score: real, stars: int)

  /** `data.get('github_stars') or 0`: a missing, null or zero star count reads as 0. */
  function StarsOf(data: Attrs): int {
    if "github_stars" in data && data["github_stars"].VInt? then data["github_stars"].i else 0
  }

  function Min(a: real, b: real): real {
    if a <= b then a else b
  }

  /** High centrality with low visibility: the centrality score discounted by up to half for popular packages. */
  function Score(m: NodeMetrics, stars: int): real {
    var centrality := m.pagerank * 1000.0 + m.betweenness * 100.0;
    var penalty := Min(stars as real / 10000.0, 1.0);
    centrality * (1.0 - penalty * 0.5)
  }

  /** The entry `find_hidden_pillars` builds for node `n`. */
  function PillarOf(g: Graph, metrics: Dict<string, NodeMetrics>, n: string): Pillar
    requires n in metrics.entries
  {
    var stars := StarsOf(Data(g, n));
    Pillar(n, metrics.entries[n], Score(metrics.entries[n], stars), stars)
  }

  /** The entries of `names`, in order. */
  function Pillars(g: Graph, metrics: Dict<string, NodeMetrics>, names: seq<string>): (r: seq<Pillar>)
    requires forall n :: n in names ==> n in metrics.entries
    ensures |r| == |names|
  {
    if names == [] then []
    else Pillars(g, metrics, names[..|names| - 1]) + [PillarOf(g, metrics, names[|names| - 1])]
  }

  /** Non-increasing by score. */
  predicate ByScore(s: seq<Pillar>) {
    forall i, j :: 0 <= i < j < |s| ==> s[i].score >= s[j].score
  }

  /** The entries of `s` with score `k`, in order. */
  function WithScore(s: seq<Pillar>, k: real): seq<Pillar> {
    if s == [] then []
    else WithScore(s[..|s| - 1], k) + (if s[|s| - 1].score == k then [s[|s| - 1]] else [])
  }

  /** `x` placed after every entry of the sorted `s` whose score is at least its own. */
  function Insert(x: Pillar, s: seq<Pillar>): (r: seq<Pillar>)
    ensures |r| == |s| + 1
  {
    if s == [] then [x]
    else if s[0].score < x.score then [x] + s
    else [s[0]] + Insert(x, s[1..])
  }

  /** `sorted(s, key=score, reverse=True)`: Python's sort is stable, also in reverse. */
  function SortByScore(s: seq<Pillar>): (r: seq<Pillar>)
    ensures |r| == |s|
  {
    if s == [] then [] else Insert(s[|s| - 1], SortByScore(s[..|s| - 1]))
  }

  /** Inserting adds exactly `x`. */
  lemma {:induction false} InsertPermutes(x: Pillar, s: seq<Pillar>)
    ensures multiset(Insert(x, s)) == multiset(s) + multiset{x}
  {
    if s != [] && s[0].score >= x.score {
      InsertPermutes(x, s[1..]);
      assert s == [s[0]] + s[1..];
    }
  }

  /** Inserting below a bound keeps every score below it. */
  lemma {:induction false} InsertBounded(x: Pillar, s: seq<Pillar>, bound: real)
    requires x.score <= bound
    requires forall i :: 0 <= i < |s| ==> s[i].score <= bound
    ensures forall i :: 0 <= i < |Insert(x, s)| ==> Insert(x, s)[i].score <= bound
  {
    if s != [] && s[0].score >= x.score {
      InsertBounded(x, s[1..], bound);
    }
  }

  /** Inserting into a sorted sequence keeps it sorted. */
  lemma {:induction false} InsertSorted(x: Pillar, s: seq<Pillar>)
    requires ByScore(s)
    ensures ByScore(Insert(x, s))
  {
    if s != [] && s[0].score >= x.score {
      var rest := s[1..];
      InsertSorted(x, rest);
      InsertBounded(x, rest, s[0].score);
      var r := Insert(x, s);
      assert r == [s[0]] + Insert(x, rest);
      forall i, j | 0 <= i < j < |r|
        ensures r[i].score >= r[j].score
      {
        assert r[j] == Insert(x, rest)[j - 1];
        if i > 0 {
          assert r[i] == Insert(x, rest)[i - 1];
        }
      }
    }
  }

  /** The result is a sorted permutation of the input. */
  lemma {:induction false} SortSortsAndPermutes(s: seq<Pillar>)
    ensures multiset(SortByScore(s)) == multiset(s) && ByScore(SortByScore(s))
  {
    if s != [] {
      var init, x := s[..|s| - 1], s[|s| - 1];
      SortSortsAndPermutes(init);
      InsertPermutes(x, SortByScore(init));
      InsertSorted(x, SortByScore(init));
      assert s == init + [x];
    }
  }

  /** `s[:n]`: a negative `n` drops that many entries from the end. */
  function Take<T>(s: seq<T>, n: int): (r: seq<T>)
    ensures n >= 0 ==> |r| == (if n < |s| then n else |s|)
    ensures n < 0 ==> |r| == (if |s| + n > 0 then |s| + n else 0)
    ensures r == s[..|r|]
  {
    if n >= 0 then (if n < |s| then s[..n] else s)
    else if |s| + n > 0 then s[..|s| + n] else []
  }

  /** What `find_hidden_pillars` returns. */
  function HiddenPillars(g: Graph, c: Centrality, topN: int): seq<Pillar> {
    var metrics := MetricsFor(g, c, g.nodes.keys);
    Take(SortByScore(Pillars(g, metrics, g.nodes.keys)), topN)
  }

  /** `find_hidden_pillars`: score every node, sort by score descending, keep the first `top_n`. */
  method FindHiddenPillars(g: Graph, c: Centrality, topN: int) returns (r: seq<Pillar>)
    requires g.nodes.Valid()
    ensures r == HiddenPillars(g, c, topN)
  {
    var metrics := ComputeMetrics(g, c);
    var scored: seq<Pillar> := [];
    var names := metrics.keys;
    for i := 0 to |names|
      invariant scored == Pillars(g, metrics, names[..i])
    {
      assert names[..i + 1][..i] == names[..i];
      var n := names[i];
      var data := Data(g, n);
      var stars := StarsOf(data);
      var m := metrics.entries[n];
      scored := scored + [Pillar(n, m, Score(m, stars), stars)];
    }
    assert names[..|names|] == names;
    r := Take(SortByScore(scored), topN);
  }

  /** Inserting keeps every other score's entries in order and puts `x` last among its equals. */
  lemma {:induction false} InsertWithScore(x: Pillar, s: seq<Pillar>, k: real)
    requires ByScore(s)
    ensures WithScore(Insert(x, s), k) == WithScore(s, k) + (if x.score == k then [x] else [])
  {
    if s == [] {
      assert [x][..0] == [];
    } else if s[0].score < x.score {
      InsertFrontWithScore(x, s, k);
    } else {
      var tail := s[1..];
      var rest := Insert(x, tail);
      var head := if s[0].score == k then [s[0]] else [];
      var xs := if x.score == k then [x] else [];
      assert ByScore(tail) by {
        forall i, j | 0 <= i < j < |tail|
          ensures tail[i].score >= tail[j].score
        {
          assert tail[i] == s[i + 1] && tail[j] == s[j + 1];
        }
      }
      InsertWithScore(x, tail, k);
      WithScoreCons(s[0], rest, k);
      WithScoreCons(s[0], tail, k);
      assert [s[0]] + tail == s;
      calc {
        WithScore(Insert(x, s), k);
        WithScore([s[0]] + rest, k);
        head + WithScore(rest, k);
        head + (WithScore(tail, k) + xs);
        WithScore(s, k) + xs;
      }
    }
  }

  /** A pillar scoring above every sorted pillar goes first. */
  lemma {:induction false} InsertFrontWithScore(x: Pillar, s: seq<Pillar>, k: real)
    requires ByScore(s) && s != [] && s[0].score < x.score
    ensures WithScore(Insert(x, s), k) == WithScore(s, k) + (if x.score == k then [x] else [])
  {
    WithScoreCons(x, s, k);
    if x.score == k {
      WithScoreNone(s, k);
    }
  }

  /** The entries with score `k` of a sequence with a first element. */
  lemma {:induction false} WithScoreCons(x: Pillar, s: seq<Pillar>, k: real)
    ensures WithScore([x] + s, k) == (if x.score == k then [x] else []) + WithScore(s, k)
  {
    if s == [] {
      assert [x] + s == [x];
      assert [x][..0] == [];
    } else {
      var t := [x] + s;
      assert t[..|t| - 1] == [x] + s[..|s| - 1];
      WithScoreCons(x, s[..|s| - 1], k);
    }
  }

  /** A sorted sequence that starts below `k` has no entry with score `k`. */
  lemma {:induction false} WithScoreNone(s: seq<Pillar>, k: real)
    requires ByScore(s) && (s != [] ==> s[0].score < k)
    ensures WithScore(s, k) == []
  {
    if s != [] {
      WithScoreNone(s[..|s| - 1], k);
      assert s[|s| - 1].score <= s[0].score;
    }
  }

  /**
   * The sort is stable: for every score, the entries with that score appear in the sorted
   * sequence in the order they had before.
   */
  lemma {:induction false} SortIsStable(s: seq<Pillar>, k: real)
    ensures WithScore(SortByScore(s), k) == WithScore(s, k)
  {
    if s != [] {
      SortIsStable(s[..|s| - 1], k);
      SortSortsAndPermutes(s[..|s| - 1]);
      InsertWithScore(s[|s| - 1], SortByScore(s[..|s| - 1]), k);
    }
  }

  /**
   * Every node is scored exactly once: the entry at position `i` is the entry of the `i`-th
   * node, built from that node's metrics and stars.
   */
  lemma {:induction false} PillarsOfNodes(g: Graph, metrics: Dict<string, NodeMetrics>, names: seq<string>)
    requires forall n :: n in names ==> n in metrics.entries
    ensures forall i :: 0 <= i < |names| ==> Pillars(g, metrics, names)[i] == PillarOf(g, metrics, names[i])
  {
    if names != [] {
      var init := names[..|names| - 1];
      PillarsOfNodes(g, metrics, init);
      assert forall i :: 0 <= i < |init| ==> init[i] == names[i];
    }
  }

  /**
   * The ranking is a permutation of the scored nodes by non-increasing score; the result is
   * its first `min(top_n, node count)` entries for a non-negative `top_n`, and no node left
   * out scores higher than one listed.
   */
  lemma {:induction false} HiddenPillarsRanked(g: Graph, c: Centrality, topN: int, ranked: seq<Pillar>)
    requires ranked == SortByScore(Pillars(g, MetricsFor(g, c, g.nodes.keys), g.nodes.keys))
    ensures multiset(ranked) == multiset(Pillars(g, MetricsFor(g, c, g.nodes.keys), g.nodes.keys))
    ensures ByScore(ranked)
    ensures HiddenPillars(g, c, topN) == ranked[..|HiddenPillars(g, c, topN)|]
    ensures topN >= 0 ==> |HiddenPillars(g, c, topN)| == (if topN < |g.nodes.keys| then topN else |g.nodes.keys|)
    ensures forall i, j :: 0 <= i < |HiddenPillars(g, c, topN)| <= j < |ranked| ==> ranked[i].score >= ranked[j].score
  {
    SortSortsAndPermutes(Pillars(g, MetricsFor(g, c, g.nodes.keys), g.nodes.keys));
  }

  /**
   * For a non-negative star count and non-negative centrality, the score lies between half
   * the centrality score and the full centrality score; a package without stars keeps it all.
   */
  lemma {:induction false} ScoreBounds(m: NodeMetrics, stars: int)
    requires stars >= 0 && m.pagerank >= 0.0 && m.betweenness >= 0.0
    ensures var centrality := m.pagerank * 1000.0 + m.betweenness * 100.0;
      centrality / 2.0 <= Score(m, stars) <= centrality
      && (stars == 0 ==> Score(m, stars) == centrality)
      && (stars >= 10000 ==> Score(m, stars) == centrality / 2.0)
  {
    var centrality := m.pagerank * 1000.0 + m.betweenness * 100.0;
    var penalty := Min(stars as real / 10000.0, 1.0);
    assert 0.0 <= penalty <= 1.0;
    assert Score(m, stars) == centrality * (1.0 - penalty * 0.5);
    assert centrality * (1.0 - penalty * 0.5) == centrality - centrality * penalty * 0.5;
    assert 0.0 <= centrality * penalty <= centrality;
  }

  // ---------------------------------------------------------------------------------------
  // get_graph_stats
  // ---------------------------------------------------------------------------------------

  /** The statistics `get_graph_stats` reports. */
  datatype GraphStats = GraphStats(
    numNodes: int,
    numEdges: int,
    density: real,
    avgInDegree: real,
    avgOutDegree: real,
    numComponents: int,
    largestComponentSize: int)

  /** `sum(dict(G.in_degree()).values())` over the nodes `names`. */
  function TotalInDegree(names: seq<string>, edges: seq<Edge>): nat {
    if names == [] then 0 else TotalInDegree(names[..|names| - 1], edges) + InDegree(edges, names[|names| - 1])
  }

  /** `sum(dict(G.out_degree()).values())` over the nodes `names`. */
  function TotalOutDegree(names: seq<string>, edges: seq<Edge>): nat {
    if names == [] then 0 else TotalOutDegree(names[..|names| - 1], edges) + OutDegree(edges, names[|names| - 1])
  }

  /** `len(max(components, key=len))`, or 0 when there is no component. */
  function LargestSize(components: seq<set<string>>): (r: nat)
    ensures forall i :: 0 <= i < |components| ==> |components[i]| <= r
    ensures components != [] ==> exists i :: 0 <= i < |components| && |components[i]| == r
    ensures components == [] ==> r == 0
  {
    if components == [] then 0
    else
      var best := LargestSize(components[..|components| - 1]);
      var last := |components[|components| - 1]|;
      if components[..|components| - 1] == [] || last > best then last else best
  }

  /**
   * `get_graph_stats`, given the density and the connected components of the undirected view
   * that the graph library computes.
   */
  function GetGraphStats(g: Graph, density: real, components: seq<set<string>>): GraphStats {
    var n := |g.nodes.keys|;
    var denominator := if n > 1 then n else 1;
    GraphStats(
      n,
      |g.edges|,
      density,
      TotalInDegree(g.nodes.keys, g.edges) as real / denominator as real,
      TotalOutDegree(g.nodes.keys, g.edges) as real / denominator as real,
      |components|,
      if |components| > 0 then LargestSize(components) else 0)
  }

  /** One more edge adds one to the in-degree total for each listing of its target. */
  lemma {:induction false} TotalInDegreeSnoc(names: seq<string>, edges: seq<Edge>, e: Edge)
    ensures TotalInDegree(names, edges + [e]) == TotalInDegree(names, edges) + Count(names, e.dst)
  {
    if names != [] {
      TotalInDegreeSnoc(names[..|names| - 1], edges, e);
      assert (edges + [e])[..|edges|] == edges;
    }
  }

  /** One more edge adds one to the out-degree total for each listing of its source. */
  lemma {:induction false} TotalOutDegreeSnoc(names: seq<string>, edges: seq<Edge>, e: Edge)
    ensures TotalOutDegree(names, edges + [e]) == TotalOutDegree(names, edges) + Count(names, e.src)
  {
    if names != [] {
      TotalOutDegreeSnoc(names[..|names| - 1], edges, e);
      assert (edges + [e])[..|edges|] == edges;
    }
  }

  /** A value listed once in a sequence without repeats is counted once. */
  lemma {:induction false} CountDistinct(names: seq<string>, x: string)
    requires Distinct(names) && x in names
    ensures Count(names, x) == 1
  {
    var init := names[..|names| - 1];
    assert Distinct(init) by {
      forall i, j | 0 <= i < j < |init|
        ensures init[i] != init[j]
      {
        assert init[i] == names[i] && init[j] == names[j];
      }
    }
    if names[|names| - 1] == x {
      CountAbsent(init, x);
    } else {
      assert x in init by {
        var i :| 0 <= i < |names| && names[i] == x;
        assert init[i] == x;
      }
      CountDistinct(init, x);
    }
  }

  /** A value that is not listed is counted zero times. */
  lemma {:induction false} CountAbsent(names: seq<string>, x: string)
    requires forall i :: 0 <= i < |names| ==> names[i] != x
    ensures Count(names, x) == 0
  {
    if names != [] {
      CountAbsent(names[..|names| - 1], x);
    }
  }

  /** Every edge is counted once as an in-edge and once as an out-edge. */
  lemma {:induction false} DegreeTotals(names: seq<string>, edges: seq<Edge>)
    requires Distinct(names)
    requires forall e :: e in edges ==> e.src in names && e.dst in names
    ensures TotalInDegree(names, edges) == |edges| && TotalOutDegree(names, edges) == |edges|
  {
    if edges == [] {
      ZeroTotals(names);
    } else {
      var init, e := edges[..|edges| - 1], edges[|edges| - 1];
      DegreeTotals(names, init);
      assert edges == init + [e];
      TotalInDegreeSnoc(names, init, e);
      TotalOutDegreeSnoc(names, init, e);
      CountDistinct(names, e.dst);
      CountDistinct(names, e.src);
    }
  }

  /** Without edges every total is zero. */
  lemma {:induction false} ZeroTotals(names: seq<string>)
    ensures TotalInDegree(names, []) == 0 && TotalOutDegree(names, []) == 0
  {
    if names != [] {
      ZeroTotals(names[..|names| - 1]);
    }
  }

  /**
   * On a valid graph both average degrees are the edge count (parallel edges included) over
   * the node count, or over 1 for an empty graph; and the largest component size is 0 exactly
   * when there is no component.
   */
  lemma {:induction false} GraphStatsFacts(g: Graph, density: real, components: seq<set<string>>)
    requires g.Valid()
    requires forall i :: 0 <= i < |components| ==> components[i] != {}
    ensures var s := GetGraphStats(g, density, components);
      var denominator := if |g.nodes.keys| > 1 then |g.nodes.keys| else 1;
      s.numEdges == |g.edges|
      && s.avgInDegree == s.avgOutDegree == |g.edges| as real / denominator as real
      && (s.largestComponentSize == 0 <==> s.numComponents == 0)
  {
    assert forall e :: e in g.edges ==> e.src in g.nodes.keys && e.dst in g.nodes.keys;
    DegreeTotals(g.nodes.keys, g.edges);
    if components != [] {
      assert |components[0]| > 0;
    }
  }
}
