/**
 * The data model of the dependency graph: the enumerations of the ontology, packages,
 * dependency edges and source repositories, and their dictionary form.
 */
module Models {
  import opened Wrappers
  import opened Dicts
  import opened DateTimes

  /** How one package depends on another. */
  datatype RelationType = RequiresCore | RequiresOptional | RequiresDev | Extends {
    function Value(): string {
      match this
      case RequiresCore => "requires_core"
      case RequiresOptional => "requires_optional"
      case RequiresDev => "requires_dev"
      case Extends => "extends"
    }
  }

  /** `RelationType(s)`: the member whose value is `s`; `None` stands for the `ValueError` raised otherwise. */
  function RelationTypeFromValue(s: string): (r: Option<RelationType>)
    ensures r.Some? ==> r.value.Value() == s
    ensures forall t: RelationType :: t.Value() == s ==> r == Some(t)
  {
    if s == "requires_core" then Some(RequiresCore)
    else if s == "requires_optional" then Some(RequiresOptional)
    else if s == "requires_dev" then Some(RequiresDev)
    else if s == "extends" then Some(Extends)
    else None
  }

  /** The ML/data-science area a package belongs to. */
  datatype Domain = DeepLearning | TraditionalMl | DataProcessing | Visualization | Nlp
                  | ComputerVision | Utilities | Infrastructure
  {
    function Value(): string {
      match this
      case DeepLearning => "deep_learning"
      case TraditionalMl => "traditional_ml"
      case DataProcessing => "data_processing"
      case Visualization => "visualization"
      case Nlp => "nlp"
      case ComputerVision => "computer_vision"
      case Utilities => "utilities"
      case Infrastructure => "infrastructure"
    }
  }

  /** The part a package plays in the ecosystem. */
  datatype Role = Framework | Library | Tool | Extension {
    function Value(): string {
      match this
      case Framework => "framework"
      case Library => "library"
      case Tool => "tool"
      case Extension => "extension"
    }
  }

  /** How actively a package is maintained. */
  datatype HealthStatus = Active | Stable | Declining | Unknown {
    function Value(): string {
      match this
      case Active => "active"
      case Stable => "stable"
      case Declining => "declining"
      case Unknown => "unknown"
    }
  }

  /**
   * A node of the graph. `domain`, `role` and `healthStatus` hold the string values of the
   * enumerations, as the dataclass does; `pagerank` and `betweenness` are Python floats,
   * modelled as reals.
   */
  datatype Package = Package(
    name: string,
    githubRepo: Option<string> := None,
    domain: string := Utilities.Value(),
    role: string := Library.Value(),
    healthStatus: string := Unknown.Value(),
    description: Option<string> := None,
    latestVersion: Option<string> := None,
    githubStars: Option<int> := None,
    lastCommitDate: Option<ValidDateTime> := None,
    inDegree: int := 0,
    outDegree: int := 0,
    pagerank: real := 0.0,
    betweenness: real := 0.0)

  /** An edge of the graph: `source` depends on `target`. */
  datatype Dependency = Dependency(
    source: string,
    target: string,
    relationType: RelationType,
    versionConstraint: Option<string> := None,
    sourceFile: string := "",
    isTransitive: bool := false)

  /** A GitHub repository and the raw contents of its dependency files, when fetched. */
  datatype Repository = Repository(
    fullName: string,
    stars: int := 0,
    description: Option<string> := None,
    lastCommit: Option<ValidDateTime> := None,
    defaultBranch: string := "main",
    packageName: Option<string> := None,
    pyprojectToml: Option<string> := None,
    setupPy: Option<string> := None,
    requirementsTxt: Option<string> := None,
    setupCfg: Option<string> := None)

  /** A value stored in the dictionary form of a record. */
  datatype Value = VStr(s: string) | VInt(i: int) | VReal(r: real) | VBool(b: bool) | VNull | VDate(d: ValidDateTime)

  function OptStrValue(o: Option<string>): Value {
    match o
    case Some(s) => VStr(s)
    case None => VNull
  }

  function OptIntValue(o: Option<int>): Value {
    match o
    case Some(i) => VInt(i)
    case None => VNull
  }

  function StrField(v: Value): Option<string> {
    if v.VStr? then Some(v.s) else None
  }

  function OptStrField(v: Value): Option<Option<string>> {
    match v
    case VStr(s) => Some(Some(s))
    case VNull => Some(None)
    case _ => None
  }

  function IntField(v: Value): Option<int> {
    if v.VInt? then Some(v.i) else None
  }

  function OptIntField(v: Value): Option<Option<int>> {
    match v
    case VInt(i) => Some(Some(i))
    case VNull => Some(None)
    case _ => None
  }

  function RealField(v: Value): Option<real> {
    match v
    case VReal(r) => Some(r)
    case VInt(i) => Some(i as real)
    case _ => None
  }

  function BoolField(v: Value): Option<bool> {
    if v.VBool? then Some(v.b) else None
  }

  function OptDateField(v: Value): Option<Option<ValidDateTime>> {
    match v
    case VDate(d) => Some(Some(d))
    case VNull => Some(None)
    case _ => None
  }

  /** Python's truth value of a stored value. */
  predicate Truthy(v: Value) {
    match v
    case VStr(s) => s != []
    case VInt(i) => i != 0
    case VReal(r) => r != 0.0
    case VBool(b) => b
    case VNull => false
    case VDate(_) => true
  }

  const PackageFields: seq<string> := [
    "name", "github_repo", "domain", "role", "health_status", "description", "latest_version",
    "github_stars", "last_commit_date", "in_degree", "out_degree", "pagerank", "betweenness"]

  const PackageFieldSet: set<string> := {
    "name", "github_repo", "domain", "role", "health_status", "description", "latest_version",
    "github_stars", "last_commit_date", "in_degree", "out_degree", "pagerank", "betweenness"}

  /** What `to_dict` stores under the field name `key`. */
  function PackageFieldValue(p: Package, key: string): Value
  {
    if key == "name" then VStr(p.name)
    else if key == "github_repo" then OptStrValue(p.githubRepo)
    else if key == "domain" then VStr(p.domain)
    else if key == "role" then VStr(p.role)
    else if key == "health_status" then VStr(p.healthStatus)
    else if key == "description" then OptStrValue(p.description)
    else if key == "latest_version" then OptStrValue(p.latestVersion)
    else if key == "github_stars" then OptIntValue(p.githubStars)
    else if key == "last_commit_date" then
      (if p.lastCommitDate.Some? then VStr(IsoFormat(p.lastCommitDate.value)) else VNull)
    else if key == "in_degree" then VInt(p.inDegree)
    else if key == "out_degree" then VInt(p.outDegree)
    else if key == "pagerank" then VReal(p.pagerank)
    else VReal(p.betweenness)
  }

  /** `Package.to_dict()`: every field under its name, the last-commit date as its ISO text. */
  function PackageToDict(p: Package): (r: Dict<string, Value>)
    ensures r.keys == PackageFields && r.entries.Keys == PackageFieldSet
    ensures r.entries["name"] == VStr(p.name) && r.entries["github_repo"] == OptStrValue(p.githubRepo)
    ensures r.entries["domain"] == VStr(p.domain) && r.entries["role"] == VStr(p.role)
      && r.entries["health_status"] == VStr(p.healthStatus)
    ensures r.entries["description"] == OptStrValue(p.description)
      && r.entries["latest_version"] == OptStrValue(p.latestVersion)
      && r.entries["github_stars"] == OptIntValue(p.githubStars)
    ensures r.entries["last_commit_date"]
         == if p.lastCommitDate.Some? then VStr(IsoFormat(p.lastCommitDate.value)) else VNull
    ensures r.entries["in_degree"] == VInt(p.inDegree) && r.entries["out_degree"] == VInt(p.outDegree)
      && r.entries["pagerank"] == VReal(p.pagerank) && r.entries["betweenness"] == VReal(p.betweenness)
  {
    Dict(PackageFields, map key | key in PackageFieldSet :: PackageFieldValue(p, key))
  }

  /** The value stored under `key`, or the field's default when the key is absent. */
  function Lookup(m: map<string, Value>, key: string, default: Value): Value {
    if key in m then m[key] else default
  }

  /**
   * The `cls(**d)` step of `from_dict`: an unexpected key or a missing `name` raises
   * `TypeError`; an absent field takes its default.
   */
  function PackageFromFields(m: map<string, Value>): (r: Outcome<Package>)
    ensures !(m.Keys <= PackageFieldSet) || "name" !in m ==> r == Raised(TypeError)
    ensures r.Raised? ==> r.error == TypeError
    ensures r.Returned? ==> "name" in m && m.Keys <= PackageFieldSet && m["name"] == VStr(r.value.name)
    ensures r.Returned? ==>
      Lookup(m, "domain", VStr(Utilities.Value())) == VStr(r.value.domain)
      && Lookup(m, "role", VStr(Library.Value())) == VStr(r.value.role)
      && Lookup(m, "health_status", VStr(Unknown.Value())) == VStr(r.value.healthStatus)
    ensures r.Returned? ==>
      Lookup(m, "github_repo", VNull) == OptStrValue(r.value.githubRepo)
      && Lookup(m, "description", VNull) == OptStrValue(r.value.description)
      && Lookup(m, "latest_version", VNull) == OptStrValue(r.value.latestVersion)
      && Lookup(m, "github_stars", VNull) == OptIntValue(r.value.githubStars)
      && Lookup(m, "last_commit_date", VNull) == DateValue(r.value.lastCommitDate)
    ensures r.Returned? ==>
      Lookup(m, "in_degree", VInt(0)) == VInt(r.value.inDegree)
      && Lookup(m, "out_degree", VInt(0)) == VInt(r.value.outDegree)
      && RealField(Lookup(m, "pagerank", VReal(0.0))) == Some(r.value.pagerank)
      && RealField(Lookup(m, "betweenness", VReal(0.0))) == Some(r.value.betweenness)
  {
    if !(m.Keys <= PackageFieldSet) || "name" !in m then Raised(TypeError)
    else
      BuildPackage(
        m["name"], Lookup(m, "github_repo", VNull), Lookup(m, "domain", VStr(Utilities.Value())),
        Lookup(m, "role", VStr(Library.Value())), Lookup(m, "health_status", VStr(Unknown.Value())),
        Lookup(m, "description", VNull), Lookup(m, "latest_version", VNull),
        Lookup(m, "github_stars", VNull), Lookup(m, "last_commit_date", VNull),
        Lookup(m, "in_degree", VInt(0)), Lookup(m, "out_degree", VInt(0)),
        Lookup(m, "pagerank", VReal(0.0)), Lookup(m, "betweenness", VReal(0.0)))
  }

  /** The package whose fields hold the given values; `TypeError` when one has the wrong type. */
  function BuildPackage(
    name: Value, githubRepo: Value, domain: Value, role: Value, health: Value,
    description: Value, version: Value, stars: Value, date: Value,
    inDegree: Value, outDegree: Value, pagerank: Value, betweenness: Value): (r: Outcome<Package>)
    ensures r.Raised? ==> r.error == TypeError
    ensures r.Returned? ==>
      name == VStr(r.value.name) && githubRepo == OptStrValue(r.value.githubRepo)
      && domain == VStr(r.value.domain) && role == VStr(r.value.role) && health == VStr(r.value.healthStatus)
    ensures r.Returned? ==>
      description == OptStrValue(r.value.description) && version == OptStrValue(r.value.latestVersion)
      && stars == OptIntValue(r.value.githubStars) && date == DateValue(r.value.lastCommitDate)
    ensures r.Returned? ==>
      inDegree == VInt(r.value.inDegree) && outDegree == VInt(r.value.outDegree)
      && RealField(pagerank) == Some(r.value.pagerank) && RealField(betweenness) == Some(r.value.betweenness)
  {
    var name, githubRepo, domain, role, health :=
      StrField(name), OptStrField(githubRepo), StrField(domain), StrField(role), StrField(health);
    var description, version, stars, date :=
      OptStrField(description), OptStrField(version), OptIntField(stars), OptDateField(date);
    var inDegree, outDegree, pagerank, betweenness :=
      IntField(inDegree), IntField(outDegree), RealField(pagerank), RealField(betweenness);
    if name.None? || githubRepo.None? || domain.None? || role.None? || health.None?
       || description.None? || version.None? || stars.None? || date.None?
       || inDegree.None? || outDegree.None? || pagerank.None? || betweenness.None?
    then Raised(TypeError)
    else
      Returned(Package(name.value, githubRepo.value, domain.value, role.value, health.value,
        description.value, version.value, stars.value, date.value,
        inDegree.value, outDegree.value, pagerank.value, betweenness.value))
  }

  /**
   * `Package.from_dict(d)`: a non-empty string under `last_commit_date` is parsed with
   * `fromisoformat` first (`ValueError` when it is not an ISO timestamp), then the fields are
   * passed to the constructor.
   */
  function PackageFromDict(d: Dict<string, Value>): Outcome<Package> {
    var m := d.entries;
    if "last_commit_date" in m && m["last_commit_date"].VStr? && Truthy(m["last_commit_date"]) then
      match FromIsoFormat(m["last_commit_date"].s)
      case None => Raised(ValueError)
      case Some(dt) => PackageFromFields(m["last_commit_date" := VDate(dt)])
    else PackageFromFields(m)
  }

  /** The dictionary `from_dict` hands to the constructor after converting the timestamp. */
  function ConvertedDict(p: Package): map<string, Value> {
    var m := PackageToDict(p).entries;
    if p.lastCommitDate.Some? then m["last_commit_date" := VDate(p.lastCommitDate.value)] else m
  }

  lemma {:induction false} ConvertedLookup(p: Package, key: string)
    requires key in PackageFieldSet && key != "last_commit_date"
    ensures key in ConvertedDict(p) && ConvertedDict(p)[key] == PackageFieldValue(p, key)
  {
  }

  lemma {:induction false} ConvertedIdentity(p: Package)
    ensures var m := ConvertedDict(p);
      "name" in m && m["name"] == VStr(p.name)
      && Lookup(m, "github_repo", VNull) == OptStrValue(p.githubRepo)
      && Lookup(m, "description", VNull) == OptStrValue(p.description)
      && Lookup(m, "latest_version", VNull) == OptStrValue(p.latestVersion)
  {
    ConvertedLookup(p, "name");
    ConvertedLookup(p, "github_repo");
    ConvertedLookup(p, "description");
    ConvertedLookup(p, "latest_version");
  }

  lemma {:induction false} ConvertedFacets(p: Package)
    ensures var m := ConvertedDict(p);
      Lookup(m, "domain", VStr(Utilities.Value())) == VStr(p.domain)
      && Lookup(m, "role", VStr(Library.Value())) == VStr(p.role)
      && Lookup(m, "health_status", VStr(Unknown.Value())) == VStr(p.healthStatus)
  {
    ConvertedLookup(p, "domain");
    ConvertedLookup(p, "role");
    ConvertedLookup(p, "health_status");
  }

  lemma {:induction false} ConvertedMetrics(p: Package)
    ensures var m := ConvertedDict(p);
      Lookup(m, "github_stars", VNull) == OptIntValue(p.githubStars)
      && Lookup(m, "in_degree", VInt(0)) == VInt(p.inDegree)
      && Lookup(m, "out_degree", VInt(0)) == VInt(p.outDegree)
      && Lookup(m, "pagerank", VReal(0.0)) == VReal(p.pagerank)
      && Lookup(m, "betweenness", VReal(0.0)) == VReal(p.betweenness)
  {
    ConvertedLookup(p, "github_stars");
    ConvertedLookup(p, "in_degree");
    ConvertedLookup(p, "out_degree");
    ConvertedLookup(p, "pagerank");
    ConvertedLookup(p, "betweenness");
  }

  lemma {:induction false} ConvertedDate(p: Package)
    ensures var m := ConvertedDict(p);
      Lookup(m, "last_commit_date", VNull) == DateValue(p.lastCommitDate)
  {
  }

  /** `from_dict` converts the ISO text `to_dict` wrote back into the same timestamp. */
  lemma {:induction false} FromDictConverts(p: Package)
    ensures PackageFromDict(PackageToDict(p)) == PackageFromFields(ConvertedDict(p))
  {
    var m := PackageToDict(p).entries;
    if p.lastCommitDate.Some? {
      IsoFormatRoundTrip(p.lastCommitDate.value);
      assert m["last_commit_date"] == VStr(IsoFormat(p.lastCommitDate.value));
    } else {
      assert m["last_commit_date"] == VNull;
    }
  }

  function DateValue(date: Option<ValidDateTime>): Value {
    if date.Some? then VDate(date.value) else VNull
  }

  lemma {:induction false} BuildPackageOf(p: Package)
    ensures BuildPackage(
      VStr(p.name), OptStrValue(p.githubRepo), VStr(p.domain), VStr(p.role), VStr(p.healthStatus),
      OptStrValue(p.description), OptStrValue(p.latestVersion), OptIntValue(p.githubStars),
      DateValue(p.lastCommitDate), VInt(p.inDegree), VInt(p.outDegree), VReal(p.pagerank),
      VReal(p.betweenness)) == Returned(p)
  {
  }

  lemma {:induction false} ConvertedKeys(p: Package)
    ensures ConvertedDict(p).Keys == PackageFieldSet
  {
  }

  lemma {:induction false} ConvertedFields(p: Package)
    ensures PackageFromFields(ConvertedDict(p)) == Returned(p)
  {
    ConvertedKeys(p);
    BuildPackageOf(p);
    ConvertedIdentity(p);
    ConvertedFacets(p);
    ConvertedMetrics(p);
    ConvertedDate(p);
  }

  /** Writing a package out and reading it back gives the same package. */
  lemma {:induction false} PackageRoundTrip(p: Package)
    ensures PackageFromDict(PackageToDict(p)) == Returned(p)
  {
    FromDictConverts(p);
    ConvertedFields(p);
  }

  const DependencyFields: seq<string> :=
    ["source", "target", "relation_type", "version_constraint", "source_file", "is_transitive"]

  const DependencyFieldSet: set<string> :=
    {"source", "target", "relation_type", "version_constraint", "source_file", "is_transitive"}

  /** What `to_dict` stores under the field name `key`. */
  function DependencyFieldValue(dep: Dependency, key: string): Value {
    if key == "source" then VStr(dep.source)
    else if key == "target" then VStr(dep.target)
    else if key == "relation_type" then VStr(dep.relationType.Value())
    else if key == "version_constraint" then OptStrValue(dep.versionConstraint)
    else if key == "source_file" then VStr(dep.sourceFile)
    else VBool(dep.isTransitive)
  }

  /** `Dependency.to_dict()`: every field under its name, the relation type as its string value. */
  function DependencyToDict(dep: Dependency): (r: Dict<string, Value>)
    ensures r.keys == DependencyFields && r.entries.Keys == DependencyFieldSet
    ensures r.entries["source"] == VStr(dep.source) && r.entries["target"] == VStr(dep.target)
    ensures r.entries["relation_type"] == VStr(dep.relationType.Value())
    ensures r.entries["version_constraint"] == OptStrValue(dep.versionConstraint)
      && r.entries["source_file"] == VStr(dep.sourceFile) && r.entries["is_transitive"] == VBool(dep.isTransitive)
  {
    Dict(DependencyFields, map key | key in DependencyFieldSet :: DependencyFieldValue(dep, key))
  }

  /**
   * `Dependency.from_dict(d)`: a missing `relation_type` raises `KeyError`, an unknown one
   * `ValueError`; then an unexpected key or a missing `source`/`target` raises `TypeError`.
   */
  function DependencyFromDict(d: Dict<string, Value>): (r: Outcome<Dependency>)
    ensures "relation_type" !in d.entries ==> r == Raised(KeyError)
    ensures "relation_type" in d.entries
      && (!d.entries["relation_type"].VStr? || RelationTypeFromValue(d.entries["relation_type"].s).None?)
      ==> r == Raised(ValueError)
    ensures r.Returned? ==> "relation_type" in d.entries && d.entries["relation_type"] == VStr(r.value.relationType.Value())
    ensures r.Returned? ==>
      d.entries.Keys <= DependencyFieldSet
      && "source" in d.entries && d.entries["source"] == VStr(r.value.source)
      && "target" in d.entries && d.entries["target"] == VStr(r.value.target)
    ensures r.Returned? ==>
      Lookup(d.entries, "version_constraint", VNull) == OptStrValue(r.value.versionConstraint)
      && Lookup(d.entries, "source_file", VStr("")) == VStr(r.value.sourceFile)
      && Lookup(d.entries, "is_transitive", VBool(false)) == VBool(r.value.isTransitive)
  {
    var m := d.entries;
    if "relation_type" !in m then Raised(KeyError)
    else if !m["relation_type"].VStr? || RelationTypeFromValue(m["relation_type"].s).None? then Raised(ValueError)
    else if !(m.Keys <= DependencyFieldSet) || "source" !in m || "target" !in m then Raised(TypeError)
    else
      var source, target := StrField(m["source"]), StrField(m["target"]);
      var version := if "version_constraint" in m then OptStrField(m["version_constraint"]) else Some(None);
      var file := if "source_file" in m then StrField(m["source_file"]) else Some("");
      var transitive := if "is_transitive" in m then BoolField(m["is_transitive"]) else Some(false);
      if source.None? || target.None? || version.None? || file.None? || transitive.None? then Raised(TypeError)
      else
        Returned(Dependency(source.value, target.value, RelationTypeFromValue(m["relation_type"].s).value,
          version.value, file.value, transitive.value))
  }

  /** Writing a dependency out and reading it back gives the same dependency. */
  lemma {:induction false} DependencyRoundTrip(dep: Dependency)
    ensures DependencyFromDict(DependencyToDict(dep)) == Returned(dep)
  {
    var m := DependencyToDict(dep).entries;
    assert m["relation_type"] == VStr(dep.relationType.Value());
  }
}
