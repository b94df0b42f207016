/**
 * Merging the three manifest formats of a repository: the dependencies of `pyproject.toml`,
 * `setup.py` and `requirements.txt`, concatenated in that priority order, with later records
 * dropped when their (source, target, relation type) triple was already seen.
 */
module DependencyExtractor {
  import opened Wrappers
  import opened PyStrings
  import opened Seqs
  import opened Dicts
  import opened Models
  import RequirementsParser
  import PyprojectParser
  import SetupParser

  /**
   * The two foreign parsers, `tomli.loads` and `ast.parse`, as the values they produce for a
   * text; `None` stands for the `TOMLDecodeError` or `SyntaxError` they raise.
   */
  datatype ForeignParsers = ForeignParsers(
    tomlLoads: string -> Option<seq<(string, PyprojectParser.Toml)>>,
    astParse: string -> Option<seq<SetupParser.Stmt>>)

  /** Python's truth value of an optional string: present and non-empty. */
  predicate Present(o: Option<string>) {
    o.Some? && o.value != []
  }

  /** `repo.package_name or repo.full_name.split('/')[-1].lower()`. */
  function PackageName(repo: Repository): (r: string)
    ensures Present(repo.packageName) ==> r == repo.packageName.value
    ensures !Present(repo.packageName) ==>
      var n := |repo.fullName|;
      |r| <= n && '/' !in r && r == ToLower(repo.fullName[n - |r|..])
      && (|r| < n ==> repo.fullName[n - |r| - 1] == '/')
  {
    if Present(repo.packageName) then repo.packageName.value
    else
      var segment := AfterLast(repo.fullName, '/');
      assert forall i :: 0 <= i < |segment| ==> LowerChar(segment[i]) != '/';
      ToLower(segment)
  }

  /**
   * How each of the three formats is read: the pyproject and setup.py parsers take the text and
   * the source package name, and may let an exception escape; the requirements parser takes
   * the text and the source package name, with the file name fixed to `requirements.txt`.
   */
  datatype FormatParsers = FormatParsers(
    pyproject: (string, string) -> Outcome<seq<Dependency>>,
    setup: (string, string) -> Outcome<seq<Dependency>>,
    requirements: (string, string) -> seq<Dependency>)

  /** The parsers of this model, fed with what the foreign parsers make of each text. */
  function ModelParsers(foreign: ForeignParsers): FormatParsers {
    FormatParsers(
      (content: string, pkg: string) => PyprojectParser.Pyproject(content, foreign.tomlLoads(content), pkg),
      (content: string, pkg: string) => SetupParser.SetupDeps(content, foreign.astParse(content), pkg),
      (content: string, pkg: string) => RequirementsParser.Requirements(content, pkg, "requirements.txt"))
  }

  // ---------------------------------------------------------------------------------------
  // What each format contributes
  // ---------------------------------------------------------------------------------------

  function FromPyproject(repo: Repository, parsers: FormatParsers, pkg: string): Outcome<seq<Dependency>> {
    if Present(repo.pyprojectToml) then parsers.pyproject(repo.pyprojectToml.value, pkg) else Returned([])
  }

  function FromSetup(repo: Repository, parsers: FormatParsers, pkg: string): Outcome<seq<Dependency>> {
    if Present(repo.setupPy) then parsers.setup(repo.setupPy.value, pkg) else Returned([])
  }

  function FromRequirements(repo: Repository, parsers: FormatParsers, pkg: string): seq<Dependency> {
    if Present(repo.requirementsTxt) then parsers.requirements(repo.requirementsTxt.value, pkg) else []
  }

  /**
   * The records of the three formats in priority order; an exception escaping from a parser
   * ends the extraction (the parsers after it are not run).
   */
  function Collected(repo: Repository, parsers: FormatParsers): Outcome<seq<Dependency>> {
    var pkg := PackageName(repo);
    var fromPyproject :- FromPyproject(repo, parsers, pkg);
    var fromSetup :- FromSetup(repo, parsers, pkg);
    Returned(fromPyproject + fromSetup + FromRequirements(repo, parsers, pkg))
  }

  // ---------------------------------------------------------------------------------------
  // Deduplication
  // ---------------------------------------------------------------------------------------

  type Triple = (string, string, RelationType)

  /** The key a record is deduplicated by. */
  function TripleOf(d: Dependency): Triple {
    (d.source, d.target, d.relationType)
  }

  function Triples(s: seq<Dependency>): set<Triple> {
    set d | d in s :: TripleOf(d)
  }

  /** The records of `s` whose triple does not occur earlier in `s`, in order. */
  function Dedup(s: seq<Dependency>): (r: seq<Dependency>)
    ensures |r| <= |s|
  {
    if s == [] then []
    else
      var init := s[..|s| - 1];
      var rest := Dedup(init);
      if TripleOf(s[|s| - 1]) in Triples(init) then rest else rest + [s[|s| - 1]]
  }

  /** The dedup loop of `extract_dependencies`, with its `seen` set and `unique` list. */
  method Deduplicate(deps: seq<Dependency>) returns (unique: seq<Dependency>)
    ensures unique == Dedup(deps)
  {
    var seen: set<Triple> := {};
    unique := [];
    for i := 0 to |deps|
      invariant seen == Triples(deps[..i])
      invariant unique == Dedup(deps[..i])
    {
      var key := TripleOf(deps[i]);
      assert deps[..i + 1][..i] == deps[..i];
      TriplesSnoc(deps[..i], deps[i]);
      assert deps[..i] + [deps[i]] == deps[..i + 1];
      if key !in seen {
        seen := seen + {key};
        unique := unique + [deps[i]];
      }
    }
    assert deps[..|deps|] == deps;
  }

  /** What `extract_dependencies` returns for a repository. */
  function Extracted(repo: Repository, parsers: FormatParsers): Outcome<seq<Dependency>> {
    var all :- Collected(repo, parsers);
    Returned(Dedup(all))
  }

  /** `extract_dependencies`, reading each format with `parsers`. */
  method ExtractDependencies(repo: Repository, parsers: FormatParsers) returns (r: Outcome<seq<Dependency>>)
    ensures r == Extracted(repo, parsers)
  {
    var pkgName := PackageName(repo);
    var deps: seq<Dependency> := [];
    if Present(repo.pyprojectToml) {
      var fromPyproject := parsers.pyproject(repo.pyprojectToml.value, pkgName);
      if fromPyproject.Raised? {
        return Raised(fromPyproject.error);
      }
      deps := fromPyproject.value;
    }
    if Present(repo.setupPy) {
      var fromSetup := parsers.setup(repo.setupPy.value, pkgName);
      if fromSetup.Raised? {
        return Raised(fromSetup.error);
      }
      deps := deps + fromSetup.value;
    } else {
      assert deps + [] == deps;
    }
    if Present(repo.requirementsTxt) {
      deps := deps + parsers.requirements(repo.requirementsTxt.value, pkgName);
    } else {
      assert deps + [] == deps;
    }
    var unique := Deduplicate(deps);
    return Returned(unique);
  }

  // ---------------------------------------------------------------------------------------
  // Properties of the deduplication
  // ---------------------------------------------------------------------------------------

  lemma {:induction false} TriplesSnoc(s: seq<Dependency>, d: Dependency)
    ensures Triples(s + [d]) == Triples(s) + {TripleOf(d)}
  {
    assert d in s + [d];
    forall e | e in s
      ensures e in s + [d]
    {
    }
  }

  /** Every triple of the input occurs in the output, and no other. */
  lemma {:induction false} DedupTriples(s: seq<Dependency>)
    ensures Triples(Dedup(s)) == Triples(s)
  {
    if s != [] {
      var init, last := s[..|s| - 1], s[|s| - 1];
      assert s == init + [last];
      DedupTriples(init);
      TriplesSnoc(init, last);
      if TripleOf(last) !in Triples(init) {
        TriplesSnoc(Dedup(init), last);
      }
    }
  }

  /** How the last record of a non-empty input decides the output. */
  lemma {:induction false} DedupLast(s: seq<Dependency>)
    requires s != []
    ensures TripleOf(s[|s| - 1]) in Triples(s[..|s| - 1]) ==> Dedup(s) == Dedup(s[..|s| - 1])
    ensures TripleOf(s[|s| - 1]) !in Triples(s[..|s| - 1]) ==> Dedup(s) == Dedup(s[..|s| - 1]) + [s[|s| - 1]]
  {
  }

  /** No two records of `r` share a triple. */
  ghost predicate DistinctTriples(r: seq<Dependency>) {
    forall i, j :: 0 <= i < j < |r| ==> TripleOf(r[i]) != TripleOf(r[j])
  }

  lemma {:induction false} DistinctSnoc(r: seq<Dependency>, x: Dependency)
    requires DistinctTriples(r) && TripleOf(x) !in Triples(r)
    ensures DistinctTriples(r + [x])
  {
    forall i | 0 <= i < |r|
      ensures TripleOf(r[i]) != TripleOf(x)
    {
      assert r[i] in r;
    }
  }

  /** The output never holds two records with the same triple. */
  lemma {:induction false} DedupDistinctTriples(s: seq<Dependency>)
    ensures DistinctTriples(Dedup(s))
  {
    if s != [] {
      var init, last := s[..|s| - 1], s[|s| - 1];
      DedupDistinctTriples(init);
      DedupLast(s);
      if TripleOf(last) !in Triples(init) {
        DedupTriples(init);
        DistinctSnoc(Dedup(init), last);
      }
    }
  }

  /** A subsequence followed by the same last element is a subsequence. */
  lemma {:induction false} SubsequenceSnoc<T>(r: seq<T>, s: seq<T>, x: T)
    requires IsSubsequence(r, s)
    ensures IsSubsequence(r + [x], s + [x])
  {
    assert (r + [x])[..|r|] == r;
    assert (s + [x])[..|s|] == s;
  }

  /** The output keeps the order of the input: it is the input with some records deleted. */
  lemma {:induction false} DedupIsSubsequence(s: seq<Dependency>)
    ensures IsSubsequence(Dedup(s), s)
  {
    if s != [] {
      var init, last := s[..|s| - 1], s[|s| - 1];
      DedupIsSubsequence(init);
      DedupLast(s);
      assert s == init + [last];
      if TripleOf(last) in Triples(init) {
        SubsequenceOfPrefix(Dedup(init), init, last);
      } else {
        SubsequenceSnoc(Dedup(init), init, last);
      }
    }
  }

  /** No record before index `i` has the triple of `s[i]`. */
  ghost predicate IsFirst(s: seq<Dependency>, i: int) {
    0 <= i < |s| && forall j :: 0 <= j < i ==> TripleOf(s[j]) != TripleOf(s[i])
  }

  lemma {:induction false} IsFirstInPrefix(s: seq<Dependency>, k: nat, i: nat)
    requires i < k <= |s|
    ensures IsFirst(s[..k], i) <==> IsFirst(s, i)
  {
    assert forall j :: 0 <= j <= i ==> s[..k][j] == s[j];
  }

  /** Every kept record is the first occurrence of its triple. */
  lemma {:induction false} DedupKeptIsFirst(s: seq<Dependency>, x: Dependency)
    requires x in Dedup(s)
    ensures exists i :: IsFirst(s, i) && s[i] == x
  {
    var init, last := s[..|s| - 1], s[|s| - 1];
    var n := |s| - 1;
    if x in Dedup(init) {
      DedupKeptIsFirst(init, x);
      var i :| IsFirst(init, i) && init[i] == x;
      IsFirstInPrefix(s, n, i);
      assert IsFirst(s, i) && s[i] == x;
    } else {
      assert x == last && TripleOf(last) !in Triples(init);
      forall j | 0 <= j < n
        ensures TripleOf(s[j]) != TripleOf(last)
      {
        assert s[j] == init[j] && init[j] in init;
      }
      assert IsFirst(s, n) && s[n] == x;
    }
  }

  /** The first occurrence of every triple is kept. */
  lemma {:induction false} DedupFirstIsKept(s: seq<Dependency>, i: nat)
    requires IsFirst(s, i)
    ensures s[i] in Dedup(s)
  {
    var init, last := s[..|s| - 1], s[|s| - 1];
    var n := |s| - 1;
    if i < n {
      IsFirstInPrefix(s, n, i);
      DedupFirstIsKept(init, i);
      assert init[i] == s[i];
    } else {
      assert TripleOf(last) !in Triples(init) by {
        forall d | d in init
          ensures TripleOf(d) != TripleOf(last)
        {
          var j :| 0 <= j < n && init[j] == d;
          assert s[j] == d;
        }
      }
    }
  }

  /** A record is kept exactly when it is the first occurrence of its triple. */
  lemma {:induction false} DedupKeepsFirst(s: seq<Dependency>, x: Dependency)
    ensures x in Dedup(s) <==> exists i :: IsFirst(s, i) && s[i] == x
  {
    if x in Dedup(s) {
      DedupKeptIsFirst(s, x);
    }
    if exists i :: IsFirst(s, i) && s[i] == x {
      var i :| IsFirst(s, i) && s[i] == x;
      DedupFirstIsKept(s, i);
    }
  }

  /** A kept record whose triple occurs in a prefix of the input was taken from that prefix. */
  lemma {:induction false} EarlierPartWins(a: seq<Dependency>, b: seq<Dependency>, x: Dependency)
    requires x in Dedup(a + b) && TripleOf(x) in Triples(a)
    ensures x in Dedup(a)
  {
    var s := a + b;
    DedupKeepsFirst(s, x);
    var i :| IsFirst(s, i) && s[i] == x;
    var d :| d in a && TripleOf(d) == TripleOf(x);
    var j :| 0 <= j < |a| && a[j] == d;
    assert s[j] == d;
    assert i <= j;
    assert forall k :: 0 <= k <= i ==> s[k] == a[k];
    assert IsFirst(a, i) && a[i] == x;
    DedupKeepsFirst(a, x);
  }

  // ---------------------------------------------------------------------------------------
  // Properties of the extraction
  // ---------------------------------------------------------------------------------------

  /**
   * pyproject.toml wins over setup.py, which wins over requirements.txt: a kept record whose
   * triple some higher-priority file produced comes from that file.
   */
  lemma {:induction false} PriorityOrder(repo: Repository, parsers: FormatParsers, x: Dependency)
    requires Extracted(repo, parsers).Returned? && x in Extracted(repo, parsers).value
    ensures var pkg := PackageName(repo);
      var fromPyproject := FromPyproject(repo, parsers, pkg).value;
      var fromSetup := FromSetup(repo, parsers, pkg).value;
      (TripleOf(x) in Triples(fromPyproject) ==> x in fromPyproject)
      && (TripleOf(x) in Triples(fromPyproject + fromSetup) ==> x in fromPyproject + fromSetup)
  {
    var pkg := PackageName(repo);
    var a := FromPyproject(repo, parsers, pkg).value;
    var b := FromSetup(repo, parsers, pkg).value;
    var c := FromRequirements(repo, parsers, pkg);
    assert a + b + c == a + (b + c);
    if TripleOf(x) in Triples(a) {
      EarlierPartWins(a, b + c, x);
      DedupIsSubsequenceMember(a, x);
    }
    if TripleOf(x) in Triples(a + b) {
      EarlierPartWins(a + b, c, x);
      DedupIsSubsequenceMember(a + b, x);
    }
  }

  lemma {:induction false} DedupIsSubsequenceMember(s: seq<Dependency>, x: Dependency)
    requires x in Dedup(s)
    ensures x in s
  {
    DedupKeepsFirst(s, x);
  }

  /** The output of `extract_dependencies`: no repeated triple, every triple kept, first occurrences only, in order. */
  lemma {:induction false} ExtractedIsDeduplicated(repo: Repository, parsers: FormatParsers)
    requires Collected(repo, parsers).Returned?
    ensures var all := Collected(repo, parsers).value;
      Extracted(repo, parsers) == Returned(Dedup(all))
      && Triples(Dedup(all)) == Triples(all)
      && IsSubsequence(Dedup(all), all)
  {
    var all := Collected(repo, parsers).value;
    DedupTriples(all);
    DedupIsSubsequence(all);
  }

  /** The `setup.cfg` text of a repository is never read. */
  lemma {:induction false} SetupCfgIgnored(repo: Repository, parsers: FormatParsers, cfg: Option<string>)
    ensures Extracted(repo.(setupCfg := cfg), parsers) == Extracted(repo, parsers)
  {
    assert PackageName(repo.(setupCfg := cfg)) == PackageName(repo);
  }

  // ---------------------------------------------------------------------------------------
  // extract_all
  // ---------------------------------------------------------------------------------------

  /**
   * `extract_all` for a per-repository extraction `extract`: each repository's records under
   * its package name, later repositories overwriting earlier ones; the first exception escapes.
   */
  function ExtractAllWith(extract: Repository -> Outcome<seq<Dependency>>, repos: seq<Repository>)
    : Outcome<Dict<string, seq<Dependency>>>
  {
    if repos == [] then Returned(EmptyDict())
    else
      var last := repos[|repos| - 1];
      var before :- ExtractAllWith(extract, repos[..|repos| - 1]);
      var deps :- extract(last);
      Returned(before.Put(PackageName(last), deps))
  }

  /** What `extract_all` returns. */
  function ExtractedAll(repos: seq<Repository>, parsers: FormatParsers): Outcome<Dict<string, seq<Dependency>>> {
    ExtractAllWith((repo: Repository) => Extracted(repo, parsers), repos)
  }

  /** `extract_all`, reading each format with `parsers`. */
  method ExtractAll(repos: seq<Repository>, parsers: FormatParsers) returns (r: Outcome<Dict<string, seq<Dependency>>>)
    ensures r == ExtractedAll(repos, parsers)
  {
    var result := EmptyDict();
    for i := 0 to |repos|
      invariant ExtractedAll(repos[..i], parsers) == Returned(result)
    {
      assert repos[..i + 1][..i] == repos[..i];
      var deps := ExtractDependencies(repos[i], parsers);
      if deps.Raised? {
        ExtractAllStopsAtRaise((repo: Repository) => Extracted(repo, parsers), repos, i + 1);
        return Raised(deps.error);
      }
      result := result.Put(PackageName(repos[i]), deps.value);
    }
    assert repos[..|repos|] == repos;
    return Returned(result);
  }

  /** Once a prefix of the repositories raises, the whole run raises the same exception. */
  lemma {:induction false} ExtractAllStopsAtRaise(extract: Repository -> Outcome<seq<Dependency>>, repos: seq<Repository>, k: nat)
    requires k <= |repos| && ExtractAllWith(extract, repos[..k]).Raised?
    ensures ExtractAllWith(extract, repos) == ExtractAllWith(extract, repos[..k])
    decreases |repos| - k
  {
    if k < |repos| {
      assert repos[..k + 1][..k] == repos[..k];
      ExtractAllStopsAtRaise(extract, repos, k + 1);
    } else {
      assert repos[..k] == repos;
    }
  }

  /** `extract_all` raises exactly when the extraction of some repository raises. */
  lemma {:induction false} ExtractAllRaises(extract: Repository -> Outcome<seq<Dependency>>, repos: seq<Repository>)
    ensures ExtractAllWith(extract, repos).Returned? <==> forall i :: 0 <= i < |repos| ==> extract(repos[i]).Returned?
  {
    if repos != [] {
      var init := repos[..|repos| - 1];
      ExtractAllRaises(extract, init);
      assert forall i :: 0 <= i < |init| ==> init[i] == repos[i];
    }
  }

  /** The result is keyed by the package names of the repositories, each listed once. */
  lemma {:induction false} ExtractAllKeys(extract: Repository -> Outcome<seq<Dependency>>, repos: seq<Repository>)
    requires ExtractAllWith(extract, repos).Returned?
    ensures var d := ExtractAllWith(extract, repos).value;
      d.Valid() && d.entries.Keys == set repo | repo in repos :: PackageName(repo)
  {
    if repos != [] {
      var init, last := repos[..|repos| - 1], repos[|repos| - 1];
      ExtractAllKeys(extract, init);
      assert repos == init + [last];
      assert forall repo :: repo in repos <==> repo in init || repo == last;
    }
  }

  /** Under each name sits the extraction of the LAST repository with that name. */
  lemma {:induction false} ExtractAllLastWins(extract: Repository -> Outcome<seq<Dependency>>, repos: seq<Repository>, i: nat)
    requires ExtractAllWith(extract, repos).Returned? && i < |repos|
    requires forall j :: i < j < |repos| ==> PackageName(repos[j]) != PackageName(repos[i])
    ensures extract(repos[i]).Returned?
    ensures var d := ExtractAllWith(extract, repos).value;
      PackageName(repos[i]) in d.entries && d.entries[PackageName(repos[i])] == extract(repos[i]).value
  {
    ExtractAllRaises(extract, repos);
    var init := repos[..|repos| - 1];
    if i < |repos| - 1 {
      ExtractAllLastWins(extract, init, i);
    }
  }
}
