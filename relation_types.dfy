/**
 * Refinement of dependency relation types from two static tables: packages that are always
 * development tools, and packages that extend a base framework.
 */
module RelationTypes {
  import opened PyStrings
  import opened Seqs
  import opened Models

  /** Packages that mark a development dependency wherever they appear. */
  const DevPackages: set<string> := {
    "pytest", "pytest-cov", "pytest-xdist", "pytest-asyncio",
    "black", "ruff", "flake8", "pylint", "mypy", "isort",
    "pre-commit", "tox", "nox", "coverage",
    "sphinx", "mkdocs", "pdoc",
    "twine", "build", "wheel", "setuptools",
    "ipdb", "pdb", "debugpy"}

  /** Each base framework with the known packages that extend it, in table order. */
  const ExtensionPatterns: seq<(string, seq<string>)> := [
    ("torch", ["pytorch-lightning", "torch-geometric", "torchvision", "torchaudio", "torchtext"]),
    ("tensorflow", ["tf-keras", "tensorflow-hub", "tensorflow-datasets"]),
    ("sklearn", ["scikit-image", "scikit-optimize"]),
    ("transformers", ["peft", "accelerate", "datasets"])]

  /** `target` is listed as an extension of `base`, or is named `base-…` or `base_…`. */
  predicate ExtendsBase(target: string, entry: (string, seq<string>)) {
    target in entry.1 || StartsWith(target, entry.0 + "-") || StartsWith(target, entry.0 + "_")
  }

  /** Some row of the extension table matches `target`. */
  predicate IsExtension(target: string) {
    exists i :: 0 <= i < |ExtensionPatterns| && ExtendsBase(target, ExtensionPatterns[i])
  }

  /**
   * `infer_relation_type`: a development dependency stays one, a known development package
   * becomes one, a known extension becomes EXTENDS, and anything else keeps its type.
   */
  function InferRelationType(dep: Dependency): (r: RelationType)
    ensures dep.relationType == RequiresDev ==> r == RequiresDev
    ensures ToLower(dep.target) in DevPackages ==> r == RequiresDev
    ensures dep.relationType != RequiresDev && ToLower(dep.target) !in DevPackages && IsExtension(ToLower(dep.target))
            ==> r == Extends
    ensures r == dep.relationType
            || (r == RequiresDev && ToLower(dep.target) in DevPackages)
            || (r == Extends && IsExtension(ToLower(dep.target)))
  {
    var target := ToLower(dep.target);
    if dep.relationType == RequiresDev then RequiresDev
    else if target in DevPackages then RequiresDev
    else if IsExtension(target) then Extends
    else dep.relationType
  }

  /** The record with its relation type refined; every other field is kept. */
  function Refine(dep: Dependency): Dependency {
    dep.(relationType := InferRelationType(dep))
  }

  /** What `refine_dependencies` returns. */
  function Refined(deps: seq<Dependency>): (r: seq<Dependency>)
    ensures |r| == |deps|
  {
    Map(Refine, deps)
  }

  /** `refine_dependencies`: a new record only where the type changes, kept in order. */
  method RefineDependencies(deps: seq<Dependency>) returns (refined: seq<Dependency>)
    ensures refined == Refined(deps)
  {
    refined := [];
    for i := 0 to |deps|
      invariant refined == Refined(deps[..i])
    {
      var dep := deps[i];
      var newType := InferRelationType(dep);
      if newType != dep.relationType {
        dep := Dependency(dep.source, dep.target, newType, dep.versionConstraint, dep.sourceFile, dep.isTransitive);
      }
      refined := refined + [dep];
    }
    assert deps[..|deps|] == deps;
  }

  // ---------------------------------------------------------------------------------------
  // Properties
  // ---------------------------------------------------------------------------------------

  /** Refining an already refined record changes nothing. */
  lemma {:induction false} InferIdempotent(dep: Dependency)
    ensures InferRelationType(Refine(dep)) == InferRelationType(dep)
  {
  }

  /** Refinement keeps length and order and changes nothing but the relation type. */
  lemma {:induction false} RefinedKeepsOtherFields(deps: seq<Dependency>)
    ensures var r := Refined(deps);
      |r| == |deps|
      && forall i :: 0 <= i < |deps| ==>
        r[i].source == deps[i].source && r[i].target == deps[i].target
        && r[i].versionConstraint == deps[i].versionConstraint && r[i].sourceFile == deps[i].sourceFile
        && r[i].isTransitive == deps[i].isTransitive
        && r[i].relationType == InferRelationType(deps[i])
  {
  }

  /** Refining refined output changes nothing. */
  lemma {:induction false} RefinedIdempotent(deps: seq<Dependency>)
    ensures Refined(Refined(deps)) == Refined(deps)
  {
    var r := Refined(deps);
    forall i | 0 <= i < |deps|
      ensures Refine(r[i]) == r[i]
    {
      InferIdempotent(deps[i]);
    }
  }

  /** Upper-case letters in the target do not matter. */
  lemma {:induction false} DevPackageIgnoresCase()
    ensures InferRelationType(Dependency("app", "PyTest", RequiresCore)) == RequiresDev
  {
    assert ToLower("PyTest") == "pytest";
  }

  /** A name that starts with a base and an underscore is an extension of that base. */
  lemma {:induction false} UnderscoreExtension()
    ensures InferRelationType(Dependency("app", "torch_scatter", RequiresOptional)) == Extends
  {
    var name := "torch_scatter";
    assert ToLower(name) == name;
    assert name !in DevPackages;
    assert ExtendsBase(name, ExtensionPatterns[0]);
  }
}
