/**
 * Graph-based inference over the name-keyed package map: two passes that give a
 * still-unclassified package ("utilities") the most common domain among its neighbours, and
 * a pass that promotes heavily-used libraries to frameworks.
 */
module Inference {
  import opened Wrappers
  import opened Seqs
  import opened Dicts
  import opened Models

  /** Which end of a dependency a pass looks at: the target for dependencies, the source for dependents. */
  datatype Endpoint = TargetEnd | SourceEnd {
    function Of(d: Dependency): string {
      if TargetEnd? then d.target else d.source
    }
  }

  /** The domain `d` votes for: that of its endpoint, when the endpoint is a known, classified package. */
  function Vote(d: Dependency, end: Endpoint, packages: map<string, Package>): Option<string> {
    var name := end.Of(d);
    if name in packages && packages[name].domain != Utilities.Value() then Some(packages[name].domain) else None
  }

  /** The votes of `deps`, in order. */
  function Votes(deps: seq<Dependency>, end: Endpoint, packages: map<string, Package>): (r: seq<string>)
    ensures forall v :: v in r ==> v != Utilities.Value()
  {
    if deps == [] then []
    else
      var rest := Votes(deps[..|deps| - 1], end, packages);
      match Vote(deps[|deps| - 1], end, packages)
      case Some(v) => rest + [v]
      case None => rest
  }

  /** The `Counter` of `votes`: each value with its number of occurrences, in order of first occurrence. */
  function Tally(votes: seq<string>): Dict<string, int> {
    if votes == [] then EmptyDict()
    else
      var t := Tally(votes[..|votes| - 1]);
      var v := votes[|votes| - 1];
      t.Put(v, t.Get(v, 0) + 1)
  }

  /** `most_common(1)[0][0]`: the first of `keys` whose count is largest. */
  function MostCommon(keys: seq<string>, counts: map<string, int>): (r: string)
    requires keys != [] && forall k :: k in keys ==> k in counts
    ensures r in keys
  {
    if |keys| == 1 then keys[0]
    else
      var best := MostCommon(keys[..|keys| - 1], counts);
      var last := keys[|keys| - 1];
      if counts[last] > counts[best] then last else best
  }

  /**
   * `infer_from_dependencies` / `infer_from_dependents` given the votes of the package's
   * dependencies (or dependents): an unclassified package takes the most common vote.
   */
  function InferDomain(pkg: Package, votes: seq<string>): (r: Package)
    ensures r == pkg.(domain := r.domain)
    ensures pkg.domain != Utilities.Value() || votes == [] ==> r == pkg
    ensures pkg.domain == Utilities.Value() && votes != [] ==> r.domain in votes
  {
    if pkg.domain != Utilities.Value() then pkg
    else
      var t := Tally(votes);
      TallyKeys(votes);
      assert votes != [] ==> votes[0] in t.keys;
      if t.keys == [] then pkg else pkg.(domain := MostCommon(t.keys, t.entries))
  }

  /** The `Counter` loop of a domain pass over the dependencies `deps` of one package. */
  method TallyVotes(deps: seq<Dependency>, end: Endpoint, allPackages: map<string, Package>)
    returns (counts: Dict<string, int>)
    ensures counts == Tally(Votes(deps, end, allPackages))
  {
    counts := EmptyDict();
    for i := 0 to |deps|
      invariant counts == Tally(Votes(deps[..i], end, allPackages))
    {
      VotesSnoc(deps[..i], deps[i], end, allPackages);
      assert deps[..i + 1] == deps[..i] + [deps[i]];
      ghost var before := Votes(deps[..i], end, allPackages);
      var name := end.Of(deps[i]);
      if name in allPackages && allPackages[name].domain != Utilities.Value() {
        var domain := allPackages[name].domain;
        assert Vote(deps[i], end, allPackages) == Some(domain);
        assert Votes(deps[..i + 1], end, allPackages) == before + [domain];
        TallySnoc(before, domain, counts);
        counts := counts.Put(domain, counts.Get(domain, 0) + 1);
      } else {
        assert Vote(deps[i], end, allPackages) == None;
        assert Votes(deps[..i + 1], end, allPackages) == before;
      }
    }
    assert deps[..|deps|] == deps;
  }

  /** One more dependency adds its vote, if any, at the end. */
  lemma {:induction false} VotesSnoc(deps: seq<Dependency>, d: Dependency, end: Endpoint, packages: map<string, Package>)
    ensures Votes(deps + [d], end, packages) == Votes(deps, end, packages) + Vote(d, end, packages).ToSeq()
  {
    assert (deps + [d])[..|deps|] == deps;
  }

  /** One more vote is counted once more, and a new value goes to the end of the keys. */
  lemma {:induction false} TallySnoc(votes: seq<string>, v: string, t: Dict<string, int>)
    requires t == Tally(votes)
    ensures Tally(votes + [v]) == t.Put(v, t.Get(v, 0) + 1)
  {
    assert (votes + [v])[..|votes|] == votes;
  }

  /** `infer_from_dependencies` (with `TargetEnd`) and `infer_from_dependents` (with `SourceEnd`). */
  method InferDomainFrom(pkg: Package, deps: seq<Dependency>, end: Endpoint, allPackages: map<string, Package>)
    returns (r: Package)
    ensures r == InferDomain(pkg, Votes(deps, end, allPackages))
  {
    if pkg.domain != Utilities.Value() {
      return pkg;
    }
    var counts := TallyVotes(deps, end, allPackages);
    TallyKeys(Votes(deps, end, allPackages));
    r := pkg;
    if counts.keys != [] {
      r := pkg.(domain := MostCommon(counts.keys, counts.entries));
    }
  }

  /** `infer_role_from_centrality`: only a library can change, and only into a framework. */
  function InferRole(pkg: Package): (r: Package)
    ensures r == pkg.(role := r.role)
    ensures r.role != pkg.role ==> pkg.role == Library.Value() && r.role == Framework.Value()
    ensures pkg.role == Library.Value() ==>
      (r.role == Framework.Value() <==> pkg.inDegree > 10 && pkg.outDegree < pkg.inDegree * 2)
  {
    if pkg.role != Library.Value() then pkg
    else if pkg.inDegree > 10 && pkg.outDegree < pkg.inDegree * 2 then pkg.(role := Framework.Value())
    else if pkg.outDegree <= 2 && pkg.inDegree > 0 then pkg.(role := Library.Value())
    else pkg
  }

  // ---------------------------------------------------------------------------------------
  // run_inference
  // ---------------------------------------------------------------------------------------

  /** `deps_by_source` / `deps_by_target`: the dependencies grouped by one endpoint, each group in order. */
  function IndexBy(deps: seq<Dependency>, end: Endpoint): map<string, seq<Dependency>> {
    if deps == [] then map[]
    else
      var index := IndexBy(deps[..|deps| - 1], end);
      var d := deps[|deps| - 1];
      index[end.Of(d) := Group(index, end.Of(d)) + [d]]
  }

  /** `index.get(name, [])`. */
  function Group(index: map<string, seq<Dependency>>, name: string): seq<Dependency> {
    if name in index then index[name] else []
  }

  /** The `setdefault(...).append(...)` loop that builds both indexes. */
  method BuildIndexes(deps: seq<Dependency>) returns (bySource: map<string, seq<Dependency>>, byTarget: map<string, seq<Dependency>>)
    ensures bySource == IndexBy(deps, SourceEnd) && byTarget == IndexBy(deps, TargetEnd)
  {
    bySource, byTarget := map[], map[];
    for i := 0 to |deps|
      invariant bySource == IndexBy(deps[..i], SourceEnd) && byTarget == IndexBy(deps[..i], TargetEnd)
    {
      assert deps[..i + 1][..i] == deps[..i];
      var d := deps[i];
      bySource := bySource[d.source := Group(bySource, d.source) + [d]];
      byTarget := byTarget[d.target := Group(byTarget, d.target) + [d]];
    }
    assert deps[..|deps|] == deps;
  }

  /**
   * A domain pass over `names` in order; each package is updated in place, so a later package
   * already sees the domains given to earlier ones.
   */
  function DomainPass(names: seq<string>, packages: map<string, Package>, index: map<string, seq<Dependency>>, end: Endpoint)
    : (r: map<string, Package>)
    requires forall n :: n in names ==> n in packages
    ensures r.Keys == packages.Keys
  {
    if names == [] then packages
    else
      var m := DomainPass(names[..|names| - 1], packages, index, end);
      var name := names[|names| - 1];
      m[name := InferDomain(m[name], Votes(Group(index, name), end, m))]
  }

  /** The role pass: every package of `names` has its role inferred. */
  function RolePass(names: seq<string>, packages: map<string, Package>): (r: map<string, Package>)
    ensures r.Keys == packages.Keys
  {
    map k | k in packages :: if k in names then InferRole(packages[k]) else packages[k]
  }

  /** What `run_inference` returns. */
  function Inferred(packages: Dict<string, Package>, deps: seq<Dependency>): Dict<string, Package>
    requires packages.Valid()
  {
    var afterDependencies := DomainPass(packages.keys, packages.entries, IndexBy(deps, SourceEnd), TargetEnd);
    var afterDependents := DomainPass(packages.keys, afterDependencies, IndexBy(deps, TargetEnd), SourceEnd);
    Dict(packages.keys, RolePass(packages.keys, afterDependents))
  }

  /** One domain pass of `run_inference`: the loop over `packages.items()`. */
  method RunDomainPass(names: seq<string>, packages: map<string, Package>, index: map<string, seq<Dependency>>, end: Endpoint)
    returns (m: map<string, Package>)
    requires forall n :: n in names ==> n in packages
    ensures m == DomainPass(names, packages, index, end)
  {
    m := packages;
    for i := 0 to |names|
      invariant m == DomainPass(names[..i], packages, index, end)
    {
      var name := names[i];
      assert names[..i + 1] == names[..i] + [name];
      DomainPassSnoc(names[..i], name, packages, index, end, m);
      var updated := InferDomainFrom(m[name], Group(index, name), end, m);
      m := m[name := updated];
    }
    assert names[..|names|] == names;
  }

  /** One more name updates that package, seeing the map as the earlier names left it. */
  lemma {:induction false} DomainPassSnoc(names: seq<string>, name: string, packages: map<string, Package>,
                       index: map<string, seq<Dependency>>, end: Endpoint, m: map<string, Package>)
    requires forall n :: n in names + [name] ==> n in packages
    requires m == DomainPass(names, packages, index, end)
    ensures name in m
    ensures DomainPass(names + [name], packages, index, end) == m[name := InferDomain(m[name], Votes(Group(index, name), end, m))]
  {
    assert (names + [name])[..|names|] == names;
  }

  /** The role pass of `run_inference`: the loop over `packages.values()`. */
  method RunRolePass(names: seq<string>, packages: map<string, Package>) returns (m: map<string, Package>)
    requires forall i, j :: 0 <= i < j < |names| ==> names[i] != names[j]
    requires forall n :: n in names ==> n in packages
    ensures m == RolePass(names, packages)
  {
    m := packages;
    for i := 0 to |names|
      invariant m == RolePass(names[..i], packages)
    {
      var name := names[i];
      assert name !in names[..i] by {
        forall j | 0 <= j < i
          ensures names[..i][j] != name
        {
          assert names[..i][j] == names[j];
        }
      }
      assert names[..i + 1] == names[..i] + [name];
      m := m[name := InferRole(m[name])];
    }
    assert names[..|names|] == names;
  }

  /** `run_inference`: the two indexes, then the three passes over the map in key order. */
  method RunInference(packages: Dict<string, Package>, deps: seq<Dependency>) returns (r: Dict<string, Package>)
    requires packages.Valid()
    ensures r == Inferred(packages, deps)
  {
    var bySource, byTarget := BuildIndexes(deps);
    var afterDependencies := RunDomainPass(packages.keys, packages.entries, bySource, TargetEnd);
    var afterDependents := RunDomainPass(packages.keys, afterDependencies, byTarget, SourceEnd);
    var afterRoles := RunRolePass(packages.keys, afterDependents);
    r := Dict(packages.keys, afterRoles);
  }

  // ---------------------------------------------------------------------------------------
  // The tally and the most common value
  // ---------------------------------------------------------------------------------------

  /** `a` occurs in `votes` before any occurrence of `b`. */
  ghost predicate OccursBefore(votes: seq<string>, a: string, b: string) {
    exists i :: 0 <= i < |votes| && votes[i] == a && forall j :: 0 <= j <= i ==> votes[j] != b
  }

  /** The tally lists each value once, and exactly the values voted for. */
  lemma {:induction false} TallyKeys(votes: seq<string>)
    ensures Tally(votes).Valid()
    ensures forall v :: v in Tally(votes).keys <==> v in votes
    ensures forall v :: v in Tally(votes).keys ==> v in Tally(votes).entries
  {
    if votes != [] {
      var init, last := votes[..|votes| - 1], votes[|votes| - 1];
      TallyKeys(init);
      assert votes == init + [last];
      assert forall v :: v in votes <==> v in init || v == last;
    }
  }

  /** The tally counts every value exactly. */
  lemma {:induction false} TallyCounts(votes: seq<string>, v: string)
    ensures Tally(votes).Get(v, 0) == Count(votes, v)
  {
    if votes != [] {
      TallyCounts(votes[..|votes| - 1], v);
    }
  }

  /** The keys of the tally are in order of first occurrence. */
  lemma {:induction false} TallyOrder(votes: seq<string>)
    ensures forall i, j :: 0 <= i < j < |Tally(votes).keys| ==> OccursBefore(votes, Tally(votes).keys[i], Tally(votes).keys[j])
  {
    if votes != [] {
      var init, v := votes[..|votes| - 1], votes[|votes| - 1];
      TallyOrder(init);
      TallyKeys(init);
      var before, keys := Tally(init).keys, Tally(votes).keys;
      forall i, j | 0 <= i < j < |keys|
        ensures OccursBefore(votes, keys[i], keys[j])
      {
        assert forall m :: 0 <= m < |before| ==> keys[m] == before[m];
        if j < |before| {
          assert OccursBefore(init, before[i], before[j]);
          var k :| 0 <= k < |init| && init[k] == keys[i] && forall l :: 0 <= l <= k ==> init[l] != keys[j];
          assert votes[k] == keys[i] && forall l :: 0 <= l <= k ==> votes[l] == init[l];
        } else {
          assert keys[j] == v && v !in init && keys[i] in init;
          var k :| 0 <= k < |init| && init[k] == keys[i];
          assert votes[k] == keys[i];
          forall l | 0 <= l <= k
            ensures votes[l] != v
          {
            assert votes[l] == init[l] && init[l] in init;
          }
        }
      }
    }
  }

  /** Where `MostCommon` found its key. */
  ghost function MostCommonIndex(keys: seq<string>, counts: map<string, int>): (i: nat)
    requires keys != [] && forall k :: k in keys ==> k in counts
    ensures i < |keys| && keys[i] == MostCommon(keys, counts)
  {
    if |keys| == 1 then 0
    else
      var best := MostCommonIndex(keys[..|keys| - 1], counts);
      if counts[keys[|keys| - 1]] > counts[keys[best]] then |keys| - 1 else best
  }

  /** `MostCommon` picks a largest count, and no earlier key has that count. */
  lemma {:induction false} MostCommonIsFirstMaximum(keys: seq<string>, counts: map<string, int>)
    requires keys != [] && forall k :: k in keys ==> k in counts
    ensures var i := MostCommonIndex(keys, counts);
      (forall j :: 0 <= j < |keys| ==> counts[keys[j]] <= counts[keys[i]])
      && (forall j :: 0 <= j < i ==> counts[keys[j]] < counts[keys[i]])
  {
    if |keys| > 1 {
      var init := keys[..|keys| - 1];
      MostCommonIsFirstMaximum(init, counts);
      assert forall j :: 0 <= j < |init| ==> keys[j] == init[j];
    }
  }

  /** The most common key of a tally is a vote; any other vote is less frequent, or as frequent and first seen later. */
  lemma {:induction false} TallyMostCommon(votes: seq<string>, t: Dict<string, int>)
    requires t == Tally(votes) && t.keys != []
    ensures forall k :: k in t.keys ==> k in t.entries
    ensures var w := MostCommon(t.keys, t.entries);
      w in votes
      && forall d :: d in votes && d != w ==>
           Count(votes, d) < Count(votes, w) || (Count(votes, d) == Count(votes, w) && OccursBefore(votes, w, d))
  {
    TallyKeys(votes);
    var w := MostCommon(t.keys, t.entries);
    forall d | d in votes && d != w
      ensures Count(votes, d) < Count(votes, w) || (Count(votes, d) == Count(votes, w) && OccursBefore(votes, w, d))
    {
      OutvotedBy(votes, t, d);
    }
  }

  /** One vote `d` other than the most common key of the tally loses to it. */
  lemma {:induction false} OutvotedBy(votes: seq<string>, t: Dict<string, int>, d: string)
    requires t == Tally(votes) && t.keys != [] && forall k :: k in t.keys ==> k in t.entries
    requires d in t.keys && d != MostCommon(t.keys, t.entries)
    ensures var w := MostCommon(t.keys, t.entries);
      Count(votes, d) < Count(votes, w) || (Count(votes, d) == Count(votes, w) && OccursBefore(votes, w, d))
  {
    var keys, counts := t.keys, t.entries;
    var i := MostCommonIndex(keys, counts);
    var w := keys[i];
    MostCommonIsFirstMaximum(keys, counts);
    var j :| 0 <= j < |keys| && keys[j] == d;
    TallyCounts(votes, d);
    TallyCounts(votes, w);
    assert d in counts && w in counts;
    assert Count(votes, d) == counts[keys[j]] && Count(votes, w) == counts[keys[i]];
    if j < i {
      assert counts[keys[j]] < counts[keys[i]];
    } else {
      assert j != i && counts[keys[j]] <= counts[keys[i]];
      TallyOrder(votes);
      assert OccursBefore(votes, keys[i], keys[j]);
    }
  }

  /**
   * An unclassified package with at least one vote takes the most frequent vote; a vote as
   * frequent as it occurs later than it for the first time.
   */
  lemma {:induction false} MostFrequentVoteWins(pkg: Package, votes: seq<string>)
    ensures var r := InferDomain(pkg, votes);
      pkg.domain == Utilities.Value() && votes != [] ==>
        r.domain in votes
        && forall d :: d in votes && d != r.domain ==>
             Count(votes, d) < Count(votes, r.domain)
             || (Count(votes, d) == Count(votes, r.domain) && OccursBefore(votes, r.domain, d))
  {
    var t := Tally(votes);
    if pkg.domain == Utilities.Value() && votes != [] {
      TallyKeys(votes);
      assert votes[0] in t.keys;
      TallyMostCommon(votes, t);
    }
  }

  /** A vote comes from a dependency whose endpoint is a known package of that (non-utilities) domain. */
  lemma {:induction false} VotesFromPresentEndpoints(deps: seq<Dependency>, end: Endpoint, packages: map<string, Package>, v: string)
    requires v in Votes(deps, end, packages)
    ensures exists i :: 0 <= i < |deps| && end.Of(deps[i]) in packages && packages[end.Of(deps[i])].domain == v
  {
    var init := deps[..|deps| - 1];
    if v in Votes(init, end, packages) {
      VotesFromPresentEndpoints(init, end, packages, v);
      var i :| 0 <= i < |init| && end.Of(init[i]) in packages && packages[end.Of(init[i])].domain == v;
      assert deps[i] == init[i];
    } else {
      assert end.Of(deps[|deps| - 1]) in packages;
    }
  }

  /** Each group of an index holds exactly the dependencies with that endpoint, in order. */
  lemma {:induction false} IndexGroups(deps: seq<Dependency>, end: Endpoint, name: string)
    ensures Group(IndexBy(deps, end), name) == Filter((d: Dependency) => end.Of(d) == name, deps)
  {
    if deps != [] {
      IndexGroups(deps[..|deps| - 1], end, name);
    }
  }

  // ---------------------------------------------------------------------------------------
  // What the passes leave alone
  // ---------------------------------------------------------------------------------------

  /** A domain pass changes only domains, and only those that were "utilities". */
  lemma {:induction false} DomainPassFrame(names: seq<string>, packages: map<string, Package>, index: map<string, seq<Dependency>>, end: Endpoint)
    requires forall n :: n in names ==> n in packages
    ensures var r := DomainPass(names, packages, index, end);
      forall k :: k in packages ==>
        r[k] == packages[k].(domain := r[k].domain)
        && (packages[k].domain != Utilities.Value() ==> r[k] == packages[k])
  {
    if names != [] {
      DomainPassFrame(names[..|names| - 1], packages, index, end);
    }
  }

  /** `run_inference` keeps the names in their order and changes only domains and roles, as the rules allow. */
  lemma {:induction false} InferredFrame(packages: Dict<string, Package>, deps: seq<Dependency>)
    requires packages.Valid()
    ensures var r := Inferred(packages, deps);
      r.Valid() && r.keys == packages.keys && r.entries.Keys == packages.entries.Keys
      && forall k :: k in packages.entries ==>
        var p, q := packages.entries[k], r.entries[k];
        q == p.(domain := q.domain, role := q.role)
        && (p.domain != Utilities.Value() ==> q.domain == p.domain)
        && (q.role != p.role ==> p.role == Library.Value() && q.role == Framework.Value())
        && (p.role == Library.Value() ==> (q.role == Framework.Value() <==> p.inDegree > 10 && p.outDegree < p.inDegree * 2))
  {
    var index1, index2 := IndexBy(deps, SourceEnd), IndexBy(deps, TargetEnd);
    var m1 := DomainPass(packages.keys, packages.entries, index1, TargetEnd);
    DomainPassFrame(packages.keys, packages.entries, index1, TargetEnd);
    DomainPassFrame(packages.keys, m1, index2, SourceEnd);
  }
}
