/**
 * Name-based classification of packages into a domain and a role, and the health status
 * derived from the age of the last commit.
 */
module PackageTaxonomy {
  import opened Wrappers
  import opened PyStrings
  import opened DateTimes
  import opened Models

  /** Hand-made classifications of well-known packages, by lower-cased name. */
  const KnownPackages: map<string, (Domain, Role)> := map[
    "torch" := (DeepLearning, Framework),
    "pytorch" := (DeepLearning, Framework),
    "tensorflow" := (DeepLearning, Framework),
    "jax" := (DeepLearning, Framework),
    "keras" := (DeepLearning, Framework),
    "flax" := (DeepLearning, Library),
    "pytorch-lightning" := (DeepLearning, Extension),
    "lightning" := (DeepLearning, Extension),
    "fastai" := (DeepLearning, Extension),
    "scikit-learn" := (TraditionalMl, Framework),
    "sklearn" := (TraditionalMl, Framework),
    "xgboost" := (TraditionalMl, Library),
    "lightgbm" := (TraditionalMl, Library),
    "catboost" := (TraditionalMl, Library),
    "pandas" := (DataProcessing, Framework),
    "numpy" := (DataProcessing, Framework),
    "polars" := (DataProcessing, Framework),
    "dask" := (DataProcessing, Framework),
    "scipy" := (DataProcessing, Library),
    "pyarrow" := (DataProcessing, Library),
    "h5py" := (DataProcessing, Library),
    "matplotlib" := (Visualization, Framework),
    "plotly" := (Visualization, Framework),
    "seaborn" := (Visualization, Library),
    "altair" := (Visualization, Library),
    "bokeh" := (Visualization, Framework),
    "transformers" := (Nlp, Framework),
    "spacy" := (Nlp, Framework),
    "nltk" := (Nlp, Library),
    "tokenizers" := (Nlp, Library),
    "sentencepiece" := (Nlp, Library),
    "tiktoken" := (Nlp, Library),
    "opencv-python" := (ComputerVision, Framework),
    "cv2" := (ComputerVision, Framework),
    "pillow" := (ComputerVision, Library),
    "pil" := (ComputerVision, Library),
    "torchvision" := (ComputerVision, Extension),
    "albumentations" := (ComputerVision, Library),
    "tqdm" := (Utilities, Library),
    "requests" := (Utilities, Library),
    "pyyaml" := (Utilities, Library),
    "pydantic" := (Utilities, Library),
    "click" := (Utilities, Library),
    "typer" := (Utilities, Library),
    "rich" := (Utilities, Library),
    "pytest" := (Infrastructure, Tool),
    "black" := (Infrastructure, Tool),
    "ruff" := (Infrastructure, Tool),
    "mypy" := (Infrastructure, Tool),
    "pip" := (Infrastructure, Tool),
    "setuptools" := (Infrastructure, Library),
    "wandb" := (DeepLearning, Tool),
    "mlflow" := (DeepLearning, Tool),
    "optuna" := (TraditionalMl, Tool),
    "ray" := (DeepLearning, Framework)]

  /** The substrings that suggest each domain, in table order. */
  const DomainPatterns: seq<(Domain, seq<string>)> := [
    (DeepLearning, ["torch", "tensorflow", "tf-", "keras", "neural", "nn-"]),
    (Nlp, ["nlp", "text", "language", "token", "bert", "gpt", "llm"]),
    (ComputerVision, ["vision", "image", "cv", "detection", "segmentation"]),
    (Visualization, ["plot", "chart", "graph", "vis", "draw"]),
    (DataProcessing, ["data", "pandas", "array", "table", "csv", "parquet"])]

  /** The frameworks whose `fw-…` and `…-fw` packages are extensions. */
  const ExtensionFrameworks: seq<string> := ["torch", "tf", "sklearn"]

  // ---------------------------------------------------------------------------------------
  // classify_package
  // ---------------------------------------------------------------------------------------

  /** One of `patterns` occurs in `name`. */
  predicate AnyOccurs(name: string, patterns: seq<string>) {
    exists k :: 0 <= k < |patterns| && Contains(name, patterns[k])
  }

  /**
   * The domain after scanning `table` from a package whose domain is `current`: each row with
   * a matching pattern overwrites the domain, so the last matching row decides.
   */
  function ScanDomains(name: string, table: seq<(Domain, seq<string>)>, current: string): string {
    if table == [] then current
    else if AnyOccurs(name, table[|table| - 1].1) then table[|table| - 1].0.Value()
    else ScanDomains(name, table[..|table| - 1], current)
  }

  predicate IsToolName(name: string) {
    EndsWith(name, "-cli") || EndsWith(name, "-tool")
  }

  predicate IsFrameworkExtensionName(name: string) {
    exists i :: 0 <= i < |ExtensionFrameworks|
      && (StartsWith(name, ExtensionFrameworks[i] + "-") || EndsWith(name, "-" + ExtensionFrameworks[i]))
  }

  /** What `classify_package` makes of a package. */
  function Classified(pkg: Package): (r: Package)
    ensures r == pkg.(domain := r.domain, role := r.role)
    ensures ToLower(pkg.name) in KnownPackages ==>
      r.domain == KnownPackages[ToLower(pkg.name)].0.Value() && r.role == KnownPackages[ToLower(pkg.name)].1.Value()
  {
    var name := ToLower(pkg.name);
    if name in KnownPackages then
      pkg.(domain := KnownPackages[name].0.Value(), role := KnownPackages[name].1.Value())
    else
      var role :=
        if IsToolName(name) then Tool.Value()
        else if IsFrameworkExtensionName(name) then Extension.Value()
        else pkg.role;
      pkg.(domain := ScanDomains(name, DomainPatterns, pkg.domain), role := role)
  }

  /** `classify_package`: the table first, then the nested pattern scan, then the role rules. */
  method ClassifyPackage(pkg: Package) returns (r: Package)
    ensures r == Classified(pkg)
  {
    var name := ToLower(pkg.name);
    if name in KnownPackages {
      var (domain, role) := KnownPackages[name];
      return pkg.(domain := domain.Value(), role := role.Value());
    }
    r := pkg;
    for i := 0 to |DomainPatterns|
      invariant r == pkg.(domain := ScanDomains(name, DomainPatterns[..i], pkg.domain))
    {
      assert DomainPatterns[..i + 1][..i] == DomainPatterns[..i];
      var (domain, patterns) := DomainPatterns[i];
      var j := 0;
      while j < |patterns|
        invariant 0 <= j <= |patterns|
        invariant forall k :: 0 <= k < j ==> !Contains(name, patterns[k])
      {
        if Contains(name, patterns[j]) {
          r := r.(domain := domain.Value());
          break;
        }
        j := j + 1;
      }
    }
    assert DomainPatterns[..|DomainPatterns|] == DomainPatterns;
    if IsToolName(name) {
      r := r.(role := Tool.Value());
    } else if IsFrameworkExtensionName(name) {
      r := r.(role := Extension.Value());
    }
  }

  // ---------------------------------------------------------------------------------------
  // assess_health
  // ---------------------------------------------------------------------------------------

  const Day: int := MicrosPerDay

  /** The health status for a commit `age` microseconds old. */
  function HealthForAge(age: int): HealthStatus {
    if age < 90 * Day then Active
    else if age < 365 * Day then Stable
    else Declining
  }

  /**
   * `assess_health` at the instant `now` (an aware `datetime`, as `datetime.now(timezone.utc)`
   * is): subtracting a naive commit date from it raises `TypeError`.
   */
  function AssessHealth(pkg: Package, now: ValidDateTime): (r: Outcome<Package>)
    requires now.utcOffset.Some?
    ensures r.Returned? ==> r.value == pkg.(healthStatus := r.value.healthStatus)
    ensures r.Raised? <==> pkg.lastCommitDate.Some? && pkg.lastCommitDate.value.utcOffset.None?
    ensures pkg.lastCommitDate.None? ==> r == Returned(pkg.(healthStatus := Unknown.Value()))
  {
    match pkg.lastCommitDate
    case None => Returned(pkg.(healthStatus := Unknown.Value()))
    case Some(date) =>
      if date.utcOffset.None? then Raised(TypeError)
      else Returned(pkg.(healthStatus := HealthForAge(UtcMicros(now) - UtcMicros(date)).Value()))
  }

  /** `classify_and_assess`. */
  method ClassifyAndAssess(pkg: Package, now: ValidDateTime) returns (r: Outcome<Package>)
    requires now.utcOffset.Some?
    ensures r == AssessHealth(Classified(pkg), now)
    ensures r.Returned? ==>
      r.value == pkg.(domain := r.value.domain, role := r.value.role, healthStatus := r.value.healthStatus)
  {
    var classified := ClassifyPackage(pkg);
    r := AssessHealth(classified, now);
  }

  // ---------------------------------------------------------------------------------------
  // Properties
  // ---------------------------------------------------------------------------------------

  /** With no matching pattern the scan leaves the domain as it was. */
  lemma {:induction false} ScanWithoutMatch(name: string, table: seq<(Domain, seq<string>)>, current: string)
    requires forall i :: 0 <= i < |table| ==> !AnyOccurs(name, table[i].1)
    ensures ScanDomains(name, table, current) == current
  {
    if table != [] {
      ScanWithoutMatch(name, table[..|table| - 1], current);
    }
  }

  /** The domain of the LAST row in table order with a matching pattern wins. */
  lemma {:induction false} ScanLastMatchWins(name: string, table: seq<(Domain, seq<string>)>, current: string, i: nat)
    requires i < |table| && AnyOccurs(name, table[i].1)
    requires forall j :: i < j < |table| ==> !AnyOccurs(name, table[j].1)
    ensures ScanDomains(name, table, current) == table[i].0.Value()
  {
    if i < |table| - 1 {
      var init := table[..|table| - 1];
      assert init[i] == table[i];
      ScanLastMatchWins(name, init, current, i);
    }
  }

  /** The role rules for a name the table does not know. */
  lemma {:induction false} ClassifiedRole(pkg: Package)
    requires ToLower(pkg.name) !in KnownPackages
    ensures var name := ToLower(pkg.name); var r := Classified(pkg);
      (IsToolName(name) ==> r.role == Tool.Value())
      && (!IsToolName(name) && IsFrameworkExtensionName(name) ==> r.role == Extension.Value())
      && (!IsToolName(name) && !IsFrameworkExtensionName(name) ==> r.role == pkg.role)
      && r.domain == ScanDomains(name, DomainPatterns, pkg.domain)
  {
  }

  /** A name matching both an NLP and a visualisation pattern goes to the later row. */
  lemma {:induction false} LaterRowWins()
    ensures ScanDomains("text-plot", DomainPatterns, Utilities.Value()) == Visualization.Value()
  {
    var name := "text-plot";
    assert OccursAt(name, "plot", 5);
    assert Contains(name, DomainPatterns[3].1[0]);
    assert AnyOccurs(name, DomainPatterns[3].1);
    assert !AnyOccurs(name, DomainPatterns[4].1) by {
      forall k | 0 <= k < |DomainPatterns[4].1|
        ensures !Contains(name, DomainPatterns[4].1[k])
      {
        var p := DomainPatterns[4].1[k];
        forall i | 0 <= i <= |name| - |p|
          ensures !OccursAt(name, p, i)
        {
          assert name[i] != p[0] || name[i + 1] != p[1];
        }
      }
    }
    ScanLastMatchWins(name, DomainPatterns, Utilities.Value(), 3);
  }

  /** The age buckets at their boundaries: 89 days is active, 90 and 364 stable, 365 declining. */
  lemma {:induction false} HealthBoundaries()
    ensures HealthForAge(89 * Day) == Active && HealthForAge(90 * Day - 1) == Active
    ensures HealthForAge(90 * Day) == Stable && HealthForAge(364 * Day) == Stable
    ensures HealthForAge(365 * Day - 1) == Stable && HealthForAge(365 * Day) == Declining
  {
  }

  /** The order of the buckets: fresher first. */
  function HealthRank(h: HealthStatus): nat {
    match h
    case Active => 0
    case Stable => 1
    case Declining => 2
    case Unknown => 3
  }

  /** An older commit never gives a healthier status. */
  lemma {:induction false} HealthMonotone(age1: int, age2: int)
    requires age1 <= age2
    ensures HealthRank(HealthForAge(age1)) <= HealthRank(HealthForAge(age2))
  {
  }
}
