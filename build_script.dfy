/**
 * The assembly of the batch graph build: every repository's dependencies are extracted and
 * refined, the first repository of each package name creates the package, every dependency
 * target becomes a package too, and then the graph is built, its metrics are written back and
 * the facet inference runs. Loading from and saving to the database, and printing, are not
 * part of this model.
 */
module BuildScript {
  import opened Wrappers
  import opened Seqs
  import opened Dicts
  import opened DateTimes
  import opened Models
  import opened DependencyExtractor
  import opened RelationTypes
  import opened PackageTaxonomy
  import opened GraphBuilder
  import opened GraphMetrics
  import opened Inference

  /** An aware `datetime`, as `datetime.now(timezone.utc)` returns. */
  type AwareDateTime = d: ValidDateTime | d.utcOffset.Some? witness DateTime(1, 1, 1, 0, 0, 0, 0, Some(0))

  /** The package a repository creates, before classification. */
  function NewPackage(repo: Repository): (p: Package)
    ensures p.name == PackageName(repo)
    ensures p.githubRepo == Some(repo.fullName) && p.description == repo.description
    ensures p.githubStars == Some(repo.stars) && p.lastCommitDate == repo.lastCommit
    ensures p.domain == "utilities" && p.role == "library" && p.healthStatus == "unknown"
    ensures p.latestVersion == None && p.inDegree == 0 && p.outDegree == 0 && p.pagerank == 0.0 && p.betweenness == 0.0
  {
    Package(
      name := PackageName(repo),
      githubRepo := Some(repo.fullName),
      description := repo.description,
      githubStars := Some(repo.stars),
      lastCommitDate := repo.lastCommit)
  }

  /** `extract_dependencies` with the given parsers. */
  function ExtractWith(parsers: FormatParsers): Extractor {
    (repo: Repository) => Extracted(repo, parsers)
  }

  /** The package the first repository of a name creates: classified and assessed at `now`. */
  function CreateAt(now: AwareDateTime): Creator {
    (repo: Repository) => AssessHealth(Classified(NewPackage(repo)), now)
  }

  /** The package created for a dependency target that no repository provides. */
  function PlaceholderPackage(target: string, now: AwareDateTime): (p: Package)
    ensures p.name == target && p.healthStatus == Unknown.Value()
    ensures p == Classified(Package(name := target)).(healthStatus := Unknown.Value())
  {
    var classified := Classified(Package(name := target));
    assert classified.lastCommitDate.None?;
    AssessHealth(classified, now).value
  }

  function PlaceholderAt(now: AwareDateTime): string -> Package {
    (target: string) => PlaceholderPackage(target, now)
  }

  /** `extract_dependencies`, and the creation of a repository's package. */
  type Extractor = Repository -> Outcome<seq<Dependency>>
  type Creator = Repository -> Outcome<Package>

  /** What the script collects from the repositories. */
  datatype Assembly = Assembly(packages: Dict<string, Package>, allDeps: seq<Dependency>)

  /** One iteration of the repository loop. */
  function AddRepo(a: Assembly, repo: Repository, extract: Extractor, create: Creator): Outcome<Assembly>
  {
    var deps :- extract(repo);
    var allDeps := a.allDeps + Refined(deps);
    var name := PackageName(repo);
    if name in a.packages.entries then Returned(Assembly(a.packages, allDeps))
    else
      var pkg :- create(repo);
      Returned(Assembly(a.packages.Put(name, pkg), allDeps))
  }

  /** The repository loop over `repos`; the first exception escapes. */
  function AddRepos(repos: seq<Repository>, extract: Extractor, create: Creator): Outcome<Assembly>
  {
    if repos == [] then Returned(Assembly(EmptyDict(), []))
    else
      var earlier :- AddRepos(repos[..|repos| - 1], extract, create);
      AddRepo(earlier, repos[|repos| - 1], extract, create)
  }

  /** The target loop over `deps`. */
  function AddTargets(packages: Dict<string, Package>, deps: seq<Dependency>, placeholder: string -> Package)
    : Dict<string, Package>
  {
    if deps == [] then packages
    else
      var earlier := AddTargets(packages, deps[..|deps| - 1], placeholder);
      var target := deps[|deps| - 1].target;
      if target in earlier.entries then earlier else earlier.Put(target, placeholder(target))
  }

  /** Both assembly loops. */
  function Assembled(repos: seq<Repository>, extract: Extractor,
                     create: Creator, placeholder: string -> Package): Outcome<Assembly>
  {
    var a :- AddRepos(repos, extract, create);
    Returned(Assembly(AddTargets(a.packages, a.allDeps, placeholder), a.allDeps))
  }

  /** `list(d.values())`. */
  function Values(d: Dict<string, Package>): (r: seq<Package>)
    requires d.Valid()
    ensures |r| == |d.keys| && forall i :: 0 <= i < |r| ==> r[i] == d.entries[d.keys[i]]
  {
    seq(|d.keys|, i requires 0 <= i < |d.keys| => d.entries[d.keys[i]])
  }

  /** `{p.name: p for p in pkgs}`. */
  function ByName(pkgs: seq<Package>): (r: Dict<string, Package>)
    ensures r.Valid()
  {
    if pkgs == [] then EmptyDict() else ByName(pkgs[..|pkgs| - 1]).Put(pkgs[|pkgs| - 1].name, pkgs[|pkgs| - 1])
  }

  /** `update_package_metrics` applied to a list. */
  function MapWithMetrics(pkgs: seq<Package>, metrics: Dict<string, NodeMetrics>): (r: seq<Package>)
    ensures |r| == |pkgs| && forall i :: 0 <= i < |pkgs| ==> r[i] == WithMetrics(pkgs[i], metrics)
  {
    seq(|pkgs|, i requires 0 <= i < |pkgs| => WithMetrics(pkgs[i], metrics))
  }

  /** What the script has computed before saving. */
  datatype BuildResult = BuildResult(packages: Dict<string, Package>, allDeps: seq<Dependency>, graph: Graph)

  /**
   * Graph, metrics and inference over the assembled packages. The centrality the graph
   * library computes is a function of the graph.
   */
  function Analysed(a: Assembly, centrality: Graph -> Centrality): BuildResult
    requires a.packages.Valid()
  {
    var pkgList := Values(a.packages);
    var g := Built(pkgList, a.allDeps);
    BuiltValid(pkgList, a.allDeps, g);
    var updated := MapWithMetrics(pkgList, MetricsFor(g, centrality(g), g.nodes.keys));
    BuildResult(Inferred(ByName(updated), a.allDeps), a.allDeps, g)
  }

  /** The script from loading to saving; with no repositories it stops at once. */
  function Pipeline(repos: seq<Repository>, parsers: FormatParsers, now: AwareDateTime, centrality: Graph -> Centrality)
    : Outcome<Option<BuildResult>>
  {
    if repos == [] then Returned(None)
    else
      var a :- Assembled(repos, ExtractWith(parsers), CreateAt(now), PlaceholderAt(now));
      AssembledValid(repos, ExtractWith(parsers), CreateAt(now), PlaceholderAt(now));
      Returned(Some(Analysed(a, centrality)))
  }

  /** The batch build: the two assembly loops, then graph, metrics and inference. */
  method BuildAll(repos: seq<Repository>, parsers: FormatParsers, now: AwareDateTime, centrality: Graph -> Centrality)
    returns (r: Outcome<Option<BuildResult>>)
    ensures r == Pipeline(repos, parsers, now, centrality)
  {
    if repos == [] {
      return Returned(None);
    }
    var collected := CollectRepos(repos, parsers, now);
    if collected.Raised? {
      return Raised(collected.error);
    }
    AddReposValid(repos, ExtractWith(parsers), CreateAt(now));
    var packages := AddDependencyTargets(collected.value.packages, collected.value.allDeps, now);
    var a := Assembly(packages, collected.value.allDeps);
    AssembledValid(repos, ExtractWith(parsers), CreateAt(now), PlaceholderAt(now));
    var result := Analyse(a, centrality);
    return Returned(Some(result));
  }

  /** The repository loop: extract, refine, collect, and create the package of a new name. */
  method CollectRepos(repos: seq<Repository>, parsers: FormatParsers, now: AwareDateTime) returns (r: Outcome<Assembly>)
    ensures r == AddRepos(repos, ExtractWith(parsers), CreateAt(now))
  {
    var extract, create := ExtractWith(parsers), CreateAt(now);
    var allDeps: seq<Dependency> := [];
    var packages: Dict<string, Package> := EmptyDict();
    for i := 0 to |repos|
      invariant AddRepos(repos[..i], extract, create) == Returned(Assembly(packages, allDeps))
    {
      var repo := repos[i];
      assert repos[..i + 1][..i] == repos[..i];
      var deps := ExtractDependencies(repo, parsers);
      assert deps == extract(repo);
      if deps.Raised? {
        AddReposStopsAtRaise(repos, extract, create, i + 1);
        return Raised(deps.error);
      }
      var refined := RefineDependencies(deps.value);
      allDeps := allDeps + refined;
      var pkgName := PackageName(repo);
      if pkgName !in packages.entries {
        var pkg := CreatePackage(repo, now);
        if pkg.Raised? {
          AddReposStopsAtRaise(repos, extract, create, i + 1);
          return Raised(pkg.error);
        }
        packages := packages.Put(pkgName, pkg.value);
      }
    }
    assert repos[..|repos|] == repos;
    return Returned(Assembly(packages, allDeps));
  }

  /** The package a new repository name creates: classified, then assessed at `now`. */
  method CreatePackage(repo: Repository, now: AwareDateTime) returns (r: Outcome<Package>)
    ensures r == CreateAt(now)(repo)
  {
    r := ClassifyAndAssess(NewPackage(repo), now);
  }

  /** The target loop: a dependency target that is not yet a package becomes one. */
  method AddDependencyTargets(packages: Dict<string, Package>, allDeps: seq<Dependency>, now: AwareDateTime)
    returns (r: Dict<string, Package>)
    ensures r == AddTargets(packages, allDeps, PlaceholderAt(now))
  {
    r := packages;
    for i := 0 to |allDeps|
      invariant r == AddTargets(packages, allDeps[..i], PlaceholderAt(now))
    {
      var dep := allDeps[i];
      assert allDeps[..i + 1][..i] == allDeps[..i];
      if dep.target !in r.entries {
        var pkg := ClassifyAndAssess(Package(name := dep.target), now);
        assert pkg == Returned(PlaceholderAt(now)(dep.target));
        r := r.Put(dep.target, pkg.value);
      }
    }
    assert allDeps[..|allDeps|] == allDeps;
  }

  /** Graph, metrics and inference, as the script runs them. */
  method Analyse(a: Assembly, centrality: Graph -> Centrality) returns (r: BuildResult)
    requires a.packages.Valid()
    ensures r == Analysed(a, centrality)
  {
    var pkgList := Values(a.packages);
    var g := BuildGraph(pkgList, a.allDeps);
    BuiltValid(pkgList, a.allDeps, g);
    var updated := UpdatePackageMetrics(pkgList, g, centrality(g));
    assert updated == MapWithMetrics(pkgList, MetricsFor(g, centrality(g), g.nodes.keys));
    var packages := ByName(updated);
    var inferred := RunInference(packages, a.allDeps);
    r := BuildResult(inferred, a.allDeps, g);
  }

  // ---------------------------------------------------------------------------------------
  // Properties
  // ---------------------------------------------------------------------------------------

  /** Once a repository raises, the whole loop raises the same exception. */
  lemma {:induction false} AddReposStopsAtRaise(repos: seq<Repository>, extract: Extractor, create: Creator, k: nat)
    requires k <= |repos| && AddRepos(repos[..k], extract, create).Raised?
    ensures AddRepos(repos, extract, create) == AddRepos(repos[..k], extract, create)
    decreases |repos| - k
  {
    if k < |repos| {
      assert repos[..k + 1][..k] == repos[..k];
      AddReposStopsAtRaise(repos, extract, create, k + 1);
    } else {
      assert repos[..k] == repos;
    }
  }

  /** A completed loop over `repos` completed over all but the last one, which it then added. */
  lemma {:induction false} AddReposLast(repos: seq<Repository>, extract: Extractor, create: Creator)
    requires repos != [] && AddRepos(repos, extract, create).Returned?
    ensures AddRepos(repos[..|repos| - 1], extract, create).Returned?
    ensures AddRepo(AddRepos(repos[..|repos| - 1], extract, create).value, repos[|repos| - 1], extract, create)
         == AddRepos(repos, extract, create)
  {
  }

  /** What one completed iteration adds to the dependencies and to the packages. */
  lemma {:induction false} AddRepoReturned(a: Assembly, repo: Repository, extract: Extractor, create: Creator)
    requires AddRepo(a, repo, extract, create).Returned?
    ensures extract(repo).Returned?
    ensures AddRepo(a, repo, extract, create).value.allDeps == a.allDeps + Refined(extract(repo).value)
    ensures PackageName(repo) in a.packages.entries ==> AddRepo(a, repo, extract, create).value.packages == a.packages
    ensures PackageName(repo) !in a.packages.entries ==>
      create(repo).Returned?
      && AddRepo(a, repo, extract, create).value.packages == a.packages.Put(PackageName(repo), create(repo).value)
  {
  }

  /** The package names of `repos`. */
  function RepoNames(repos: seq<Repository>): set<string> {
    set i | 0 <= i < |repos| :: PackageName(repos[i])
  }

  lemma {:induction false} RepoNamesSnoc(repos: seq<Repository>)
    requires repos != []
    ensures RepoNames(repos) == RepoNames(repos[..|repos| - 1]) + {PackageName(repos[|repos| - 1])}
  {
    var init := repos[..|repos| - 1];
    forall i | 0 <= i < |init|
      ensures init[i] == repos[i]
    {
    }
  }

  /** The loop's dictionary is well formed and holds exactly the package names of the repositories. */
  lemma {:induction false} AddReposValid(repos: seq<Repository>, extract: Extractor, create: Creator)
    requires AddRepos(repos, extract, create).Returned?
    ensures AddRepos(repos, extract, create).value.packages.Valid()
    ensures AddRepos(repos, extract, create).value.packages.entries.Keys == RepoNames(repos)
  {
    if repos != [] {
      AddReposValid(repos[..|repos| - 1], extract, create);
      RepoNamesSnoc(repos);
    }
  }

  /**
   * The first repository with a given package name creates that package; a later repository
   * with the same name changes nothing about it.
   */
  lemma {:induction false} FirstRepoWins(repos: seq<Repository>, extract: Extractor, create: Creator, i: nat)
    requires AddRepos(repos, extract, create).Returned?
    requires i < |repos| && forall j :: 0 <= j < i ==> PackageName(repos[j]) != PackageName(repos[i])
    ensures create(repos[i]).Returned?
    ensures PackageName(repos[i]) in AddRepos(repos, extract, create).value.packages.entries
    ensures AddRepos(repos, extract, create).value.packages.entries[PackageName(repos[i])] == create(repos[i]).value
  {
    var init := repos[..|repos| - 1];
    var name := PackageName(repos[i]);
    AddReposLast(repos, extract, create);
    AddRepoReturned(AddRepos(init, extract, create).value, repos[|repos| - 1], extract, create);
    AddReposValid(init, extract, create);
    if i == |repos| - 1 {
      assert name !in RepoNames(init) by {
        forall j | 0 <= j < |init|
          ensures PackageName(init[j]) != name
        {
          assert init[j] == repos[j];
        }
      }
    } else {
      assert forall j :: 0 <= j < i ==> init[j] == repos[j];
      assert init[i] == repos[i];
      FirstRepoWins(init, extract, create, i);
    }
  }

  /** The dependencies each repository contributes: extracted, then refined. */
  function RepoDeps(repo: Repository, extract: Extractor): seq<Dependency> {
    match extract(repo)
    case Returned(deps) => Refined(deps)
    case Raised(_) => []
  }

  /** The contributions of `repos`, concatenated in order. */
  function ConcatDeps(repos: seq<Repository>, extract: Extractor): seq<Dependency> {
    if repos == [] then [] else ConcatDeps(repos[..|repos| - 1], extract) + RepoDeps(repos[|repos| - 1], extract)
  }

  /**
   * When the loop completes, no repository's extraction raised, and `all_deps` is the
   * concatenation, in repository order, of each repository's extracted-then-refined list.
   */
  lemma {:induction false} AllDepsConcatenated(repos: seq<Repository>, extract: Extractor, create: Creator, i: nat)
    requires AddRepos(repos, extract, create).Returned?
    ensures i < |repos| ==> extract(repos[i]).Returned?
    ensures AddRepos(repos, extract, create).value.allDeps == ConcatDeps(repos, extract)
  {
    if repos != [] {
      var init := repos[..|repos| - 1];
      AddReposLast(repos, extract, create);
      AddRepoReturned(AddRepos(init, extract, create).value, repos[|repos| - 1], extract, create);
      AllDepsConcatenated(init, extract, create, i);
      if i < |init| {
        assert init[i] == repos[i];
      }
    }
  }

  /**
   * After the target loop every dependency target is a package; the packages of the
   * repositories are kept; and a package the loop adds is the placeholder of a target.
   */
  lemma {:induction false} TargetsArePackages(packages: Dict<string, Package>, deps: seq<Dependency>,
                                              placeholder: string -> Package, n: string)
    ensures forall d :: d in deps ==> d.target in AddTargets(packages, deps, placeholder).entries
    ensures n in packages.entries ==>
      n in AddTargets(packages, deps, placeholder).entries
      && AddTargets(packages, deps, placeholder).entries[n] == packages.entries[n]
    ensures n !in packages.entries && n in AddTargets(packages, deps, placeholder).entries ==>
      AddTargets(packages, deps, placeholder).entries[n] == placeholder(n)
      && exists d :: d in deps && d.target == n
  {
    if deps != [] {
      var init := deps[..|deps| - 1];
      TargetsArePackages(packages, init, placeholder, n);
      forall d | d in deps
        ensures d.target in AddTargets(packages, deps, placeholder).entries
      {
        if d != deps[|deps| - 1] {
          var k :| 0 <= k < |deps| && deps[k] == d;
          assert init[k] == d;
        }
      }
      if n !in packages.entries && n in AddTargets(packages, init, placeholder).entries {
        var d :| d in init && d.target == n;
        assert d in deps;
      }
    }
  }

  /** The target loop keeps the dictionary well formed. */
  lemma {:induction false} AddTargetsValid(packages: Dict<string, Package>, deps: seq<Dependency>,
                                           placeholder: string -> Package)
    requires packages.Valid()
    ensures AddTargets(packages, deps, placeholder).Valid()
  {
    if deps != [] {
      AddTargetsValid(packages, deps[..|deps| - 1], placeholder);
    }
  }

  /** Both loops together leave a well-formed dictionary. */
  lemma {:induction false} AssembledValid(repos: seq<Repository>, extract: Extractor, create: Creator, placeholder: string -> Package)
    requires Assembled(repos, extract, create, placeholder).Returned?
    ensures Assembled(repos, extract, create, placeholder).value.packages.Valid()
  {
    AddReposValid(repos, extract, create);
    var a := AddRepos(repos, extract, create).value;
    AddTargetsValid(a.packages, a.allDeps, placeholder);
  }

  /** Packages the script creates are named after their repository or their target. */
  lemma {:induction false} CreatedNames(now: AwareDateTime, repo: Repository, target: string)
    ensures CreateAt(now)(repo).Returned? ==> CreateAt(now)(repo).value.name == PackageName(repo)
    ensures PlaceholderAt(now)(target).name == target
  {
  }

  /** Every package the repository loop stores is stored under its own name. */
  lemma {:induction false} StoredUnderOwnName(repos: seq<Repository>, extract: Extractor, create: Creator, n: string)
    requires forall r :: create(r).Returned? ==> create(r).value.name == PackageName(r)
    requires AddRepos(repos, extract, create).Returned?
    requires n in AddRepos(repos, extract, create).value.packages.entries
    ensures AddRepos(repos, extract, create).value.packages.entries[n].name == n
  {
    if repos != [] {
      var earlier := AddRepos(repos[..|repos| - 1], extract, create);
      if n in earlier.value.packages.entries {
        StoredUnderOwnName(repos[..|repos| - 1], extract, create, n);
      }
    }
  }

  /**
   * Rebuilding a dictionary by name from a list of packages whose names are distinct lists
   * the names in order and stores each package under its name.
   */
  lemma {:induction false} ByNameOfDistinct(pkgs: seq<Package>)
    requires forall i, j :: 0 <= i < j < |pkgs| ==> pkgs[i].name != pkgs[j].name
    ensures |ByName(pkgs).keys| == |pkgs|
    ensures forall i :: 0 <= i < |pkgs| ==>
      ByName(pkgs).keys[i] == pkgs[i].name && ByName(pkgs).entries[pkgs[i].name] == pkgs[i]
  {
    if pkgs != [] {
      var init := pkgs[..|pkgs| - 1];
      var last := pkgs[|pkgs| - 1];
      ByNameOfDistinct(init);
      var earlier := ByName(init);
      assert last.name !in earlier.entries by {
        forall i | 0 <= i < |earlier.keys|
          ensures earlier.keys[i] != last.name
        {
          assert earlier.keys[i] == pkgs[i].name;
        }
      }
      forall i | 0 <= i < |pkgs|
        ensures ByName(pkgs).keys[i] == pkgs[i].name && ByName(pkgs).entries[pkgs[i].name] == pkgs[i]
      {
        if i < |init| {
          assert init[i] == pkgs[i];
        }
      }
    }
  }

  /** Rebuilding by name a list that lists a dictionary's keys in order gives back those keys. */
  lemma {:induction false} ByNameOfKeys(d: Dict<string, Package>, updated: seq<Package>)
    requires d.Valid()
    requires |updated| == |d.keys| && forall i :: 0 <= i < |updated| ==> updated[i].name == d.keys[i]
    ensures ByName(updated).keys == d.keys && ByName(updated).entries.Keys == d.entries.Keys
    ensures forall i :: 0 <= i < |updated| ==> ByName(updated).entries[d.keys[i]] == updated[i]
  {
    assert forall i, j :: 0 <= i < j < |updated| ==> updated[i].name != updated[j].name by {
      forall i, j | 0 <= i < j < |updated|
        ensures updated[i].name != updated[j].name
      {
        assert d.keys[i] != d.keys[j];
      }
    }
    ByNameOfDistinct(updated);
    var r := ByName(updated);
    assert r.keys == d.keys;
    SameKeysSameSet(r, d);
  }

  /** Two well-formed dictionaries that list the same keys have the same key set. */
  lemma {:induction false} SameKeysSameSet<V>(a: Dict<string, V>, b: Dict<string, Package>)
    requires a.Valid() && b.Valid() && a.keys == b.keys
    ensures a.entries.Keys == b.entries.Keys
  {
  }

  /**
   * The script's `{p.name: p for p in pkg_list}` after the metrics are written back is the
   * packages dictionary, with the same keys in the same order, each package carrying its
   * node's metrics.
   */
  lemma {:induction false} MetricsDictionary(d: Dict<string, Package>, metrics: Dict<string, NodeMetrics>)
    requires d.Valid() && forall n :: n in d.entries ==> d.entries[n].name == n
    ensures ByName(MapWithMetrics(Values(d), metrics)).keys == d.keys
    ensures ByName(MapWithMetrics(Values(d), metrics)).entries
         == map n | n in d.entries :: WithMetrics(d.entries[n], metrics)
  {
    var updated := MapWithMetrics(Values(d), metrics);
    assert forall i :: 0 <= i < |updated| ==> updated[i].name == d.keys[i] by {
      forall i | 0 <= i < |updated|
        ensures updated[i].name == d.keys[i]
      {
        assert d.keys[i] in d.entries;
      }
    }
    ByNameOfKeys(d, updated);
    var r := ByName(updated);
    forall n | n in d.entries
      ensures r.entries[n] == WithMetrics(d.entries[n], metrics)
    {
      var i :| 0 <= i < |d.keys| && d.keys[i] == n;
    }
  }
}
