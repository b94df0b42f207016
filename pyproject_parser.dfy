/**
 * Reading dependencies out of a `pyproject.toml`: the PEP 621 `[project]` table and the
 * Poetry `[tool.poetry]` tables. The TOML text is parsed by a foreign library; its result is
 * given here as a value tree, or as `None` when the text does not decode.
 */
module PyprojectParser {
  import opened Wrappers
  import opened PyStrings
  import opened Seqs
  import opened Models
  import opened RequirementsParser

  /** A value of the decoded TOML tree. A table keeps its keys in document order. */
  datatype Toml =
    | TStr(s: string)
    | TInt(i: int)
    | TFloat(f: real)
    | TBool(b: bool)
    | TArray(items: seq<Toml>)
    | TTable(entries: seq<(string, Toml)>)

  /** The value stored under `key`, if any. */
  function Lookup(entries: seq<(string, Toml)>, key: string): (r: Option<Toml>)
    ensures r.Some? ==> exists i :: 0 <= i < |entries| && entries[i] == (key, r.value)
    ensures r.None? ==> forall i :: 0 <= i < |entries| ==> entries[i].0 != key
  {
    if entries == [] then None
    else if entries[0].0 == key then Some(entries[0].1)
    else Lookup(entries[1..], key)
  }

  /** `v.get(key, default)`: only a table has `get`. */
  function Get(v: Toml, key: string, default: Toml): (r: Outcome<Toml>)
    ensures r.Raised? <==> !v.TTable?
    ensures r.Raised? ==> r.error == AttributeError
  {
    if v.TTable? then Returned(Lookup(v.entries, key).GetOr(default)) else Raised(AttributeError)
  }

  /** `v.items()`: only a table has `items`. */
  function Items(v: Toml): (r: Outcome<seq<(string, Toml)>>)
    ensures r.Raised? <==> !v.TTable?
    ensures r.Raised? ==> r.error == AttributeError
  {
    if v.TTable? then Returned(v.entries) else Raised(AttributeError)
  }

  /**
   * What `for x in v` visits: the items of an array, the one-character strings of a string,
   * the keys of a table; a number or a boolean is not iterable.
   */
  function Elements(v: Toml): (r: Outcome<seq<Toml>>)
    ensures r.Raised? <==> v.TInt? || v.TFloat? || v.TBool?
    ensures r.Returned? ==> forall i :: 0 <= i < |r.value| ==> r.value[i].TStr? || v.TArray?
    ensures v.TArray? ==> r == Returned(v.items)
    ensures v.TStr? ==>
      r.Returned? && |r.value| == |v.s| && forall i :: 0 <= i < |v.s| ==> r.value[i] == TStr([v.s[i]])
    ensures v.TTable? ==>
      r.Returned? && |r.value| == |v.entries| && forall i :: 0 <= i < |v.entries| ==> r.value[i] == TStr(v.entries[i].0)
  {
    match v
    case TArray(items) => Returned(items)
    case TStr(s) => Returned(seq(|s|, i requires 0 <= i < |s| => TStr([s[i]])))
    case TTable(entries) => Returned(seq(|entries|, i requires 0 <= i < |entries| => TStr(entries[i].0)))
    case _ => Raised(TypeError)
  }

  /** Python truthiness of a TOML value. */
  predicate Truthy(v: Toml) {
    match v
    case TStr(s) => s != []
    case TInt(i) => i != 0
    case TFloat(f) => f != 0.0
    case TBool(b) => b
    case TArray(items) => items != []
    case TTable(entries) => entries != []
  }

  // ---------------------------------------------------------------------------------------
  // parse_dep_string and make_poetry_dep
  // ---------------------------------------------------------------------------------------

  /** `parse_dep_string` applied to an element of a dependency array: only a string can be split. */
  function ParseDepString(v: Toml, sourcePkg: string, relType: RelationType, sourceFile: string): (r: Outcome<Option<Dependency>>)
    ensures r.Raised? <==> !v.TStr?
    ensures r.Raised? ==> r.error == TypeError
    ensures r.Returned? && r.value.Some? ==>
      var d := r.value.value;
      d.source == sourcePkg && d.target != [] && d.target != sourcePkg && d.relationType == relType
      && d.sourceFile == sourceFile
  {
    if v.TStr? then Returned(ParseSpecifier(v.s, sourcePkg, relType, sourceFile)) else Raised(TypeError)
  }

  /** The version of a Poetry dependency spec: the spec itself when it is a string, else its `version` key. */
  function PoetryVersion(spec: Toml): Option<string> {
    match spec
    case TStr(s) => Some(s)
    case TTable(entries) =>
      (match Lookup(entries, "version")
       case Some(TStr(s)) => Some(s)
       case _ => None)
    case _ => None
  }

  /** A table spec with a truthy `optional` key. */
  predicate PoetryOptional(spec: Toml) {
    spec.TTable? && match Lookup(spec.entries, "optional") case Some(v) => Truthy(v) case None => false
  }

  /**
   * `make_poetry_dep`: a record for the normalised name unless it is empty or the package
   * itself; an optional spec turns any relation into an optional one.
   */
  function MakePoetryDep(pkg: string, spec: Toml, sourcePkg: string, relType: RelationType, sourceFile: string): (r: Option<Dependency>)
    ensures r.Some? <==> NormalizeName(pkg) != [] && NormalizeName(pkg) != sourcePkg
    ensures r.Some? ==>
      && r.value.source == sourcePkg && r.value.target == NormalizeName(pkg) && r.value.sourceFile == sourceFile
      && r.value.versionConstraint == PoetryVersion(spec) && !r.value.isTransitive
      && r.value.relationType == (if PoetryOptional(spec) then RequiresOptional else relType)
  {
    var pkgName := NormalizeName(pkg);
    if pkgName == [] || pkgName == sourcePkg then None
    else
      var rel := if PoetryOptional(spec) then RequiresOptional else relType;
      Some(Dependency(pkgName, pkgName, rel, PoetryVersion(spec), sourceFile).(source := sourcePkg))
  }

  // ---------------------------------------------------------------------------------------
  // The loops of parse_pyproject, each specified from the front so that the first exception wins
  // ---------------------------------------------------------------------------------------

  /** `parse_dep_string` with its other arguments fixed. */
  function DepParser(sourcePkg: string, relType: RelationType, sourceFile: string): Toml -> Outcome<Option<Dependency>> {
    (v: Toml) => ParseDepString(v, sourcePkg, relType, sourceFile)
  }

  /** The records of a PEP 621 dependency array, in order; the first non-string raises. */
  function DepStrings(items: seq<Toml>, sourcePkg: string, relType: RelationType, sourceFile: string): Outcome<seq<Dependency>> {
    if items == [] then Returned([])
    else
      var dep :- DepParser(sourcePkg, relType, sourceFile)(items[0]);
      Prepend(dep.ToSeq(), DepStrings(items[1..], sourcePkg, relType, sourceFile))
  }

  method CollectDepStrings(items: seq<Toml>, sourcePkg: string, relType: RelationType, sourceFile: string)
    returns (r: Outcome<seq<Dependency>>)
    ensures r == DepStrings(items, sourcePkg, relType, sourceFile)
  {
    var deps: seq<Dependency> := [];
    var i := 0;
    PrependNothing(deps);
    assert items[0..] == items;
    while i < |items|
      invariant 0 <= i <= |items|
      invariant DepStrings(items, sourcePkg, relType, sourceFile) == Prepend(deps, DepStrings(items[i..], sourcePkg, relType, sourceFile))
    {
      DepStringsStep(items, i, deps, sourcePkg, relType, sourceFile);
      var dep :- DepParser(sourcePkg, relType, sourceFile)(items[i]);
      deps := deps + dep.ToSeq();
      i := i + 1;
    }
    PrependNothing(deps);
    return Returned(deps);
  }

  lemma {:induction false} DepStringsStep(items: seq<Toml>, i: nat, deps: seq<Dependency>, sourcePkg: string, relType: RelationType, sourceFile: string)
    requires i < |items|
    requires DepStrings(items, sourcePkg, relType, sourceFile) == Prepend(deps, DepStrings(items[i..], sourcePkg, relType, sourceFile))
    ensures match DepParser(sourcePkg, relType, sourceFile)(items[i])
      case Raised(e) => DepStrings(items, sourcePkg, relType, sourceFile) == Raised(e)
      case Returned(dep) =>
        DepStrings(items, sourcePkg, relType, sourceFile)
        == Prepend(deps + dep.ToSeq(), DepStrings(items[i + 1..], sourcePkg, relType, sourceFile))
  {
    assert items[i..][1..] == items[i + 1..];
    var o := DepParser(sourcePkg, relType, sourceFile)(items[i]);
    if o.Returned? {
      PrependTwice(deps, o.value.ToSeq(), DepStrings(items[i + 1..], sourcePkg, relType, sourceFile));
    }
  }

  lemma {:induction false} PrependNothing<T>(a: seq<T>)
    ensures Prepend(a, Returned([])) == Returned(a)
    ensures forall o: Outcome<seq<T>> :: Prepend([], o) == o
  {
    assert a + [] == a;
    forall o: Outcome<seq<T>>
      ensures Prepend([], o) == o
    {
      if o.Returned? {
        assert [] + o.value == o.value;
      }
    }
  }

  lemma {:induction false} PrependTwice<T>(a: seq<T>, b: seq<T>, o: Outcome<seq<T>>)
    ensures Prepend(a, Prepend(b, o)) == Prepend(a + b, o)
  {
    if o.Returned? {
      assert a + (b + o.value) == (a + b) + o.value;
    }
  }

  /** The optional-dependency groups that count as development ones. */
  predicate OptionalDevGroup(group: string) {
    group in {"dev", "test", "testing", "tests", "develop", "docs"}
  }

  /** The relation of the records of a group. */
  function OptionalGroupRelation(group: string): RelationType {
    if OptionalDevGroup(group) then RequiresDev else RequiresOptional
  }

  /** The `source_file` of a record read from a named group. */
  function GroupFile(group: string): string {
    "pyproject.toml[" + group + "]"
  }

  /** The records of `[project.optional-dependencies]`, group by group. */
  function OptionalGroups(groups: seq<(string, Toml)>, sourcePkg: string): Outcome<seq<Dependency>> {
    if groups == [] then Returned([])
    else
      var (group, depList) := groups[0];
      var rel := OptionalGroupRelation(group);
      var items :- Elements(depList);
      var deps :- DepStrings(items, sourcePkg, rel, GroupFile(group));
      Prepend(deps, OptionalGroups(groups[1..], sourcePkg))
  }

  method CollectOptionalGroups(groups: seq<(string, Toml)>, sourcePkg: string) returns (r: Outcome<seq<Dependency>>)
    ensures r == OptionalGroups(groups, sourcePkg)
  {
    var deps: seq<Dependency> := [];
    var i := 0;
    PrependNothing(deps);
    while i < |groups|
      invariant 0 <= i <= |groups|
      invariant OptionalGroups(groups, sourcePkg) == Prepend(deps, OptionalGroups(groups[i..], sourcePkg))
    {
      OptionalGroupsFrom(groups, i, sourcePkg);
      var (group, depList) := groups[i];
      var rel := OptionalGroupRelation(group);
      var items :- Elements(depList);
      var groupDeps :- CollectDepStrings(items, sourcePkg, rel, GroupFile(group));
      PrependTwice(deps, groupDeps, OptionalGroups(groups[i + 1..], sourcePkg));
      deps := deps + groupDeps;
      i := i + 1;
    }
    PrependNothing(deps);
    return Returned(deps);
  }

  lemma {:induction false} OptionalGroupsFrom(groups: seq<(string, Toml)>, i: nat, sourcePkg: string)
    requires i < |groups|
    ensures OptionalGroups(groups[i..], sourcePkg)
         == (var (group, depList) := groups[i];
             var items :- Elements(depList);
             var deps :- DepStrings(items, sourcePkg, OptionalGroupRelation(group), GroupFile(group));
             Prepend(deps, OptionalGroups(groups[i + 1..], sourcePkg)))
  {
    assert groups[i..][1..] == groups[i + 1..];
  }

  /** The Poetry core table skips the `python` key, in any case. */
  predicate IsPython(pkg: string) {
    ToLower(pkg) == "python"
  }

  /** The records of a Poetry dependency table; `skipPython` drops the interpreter entry. */
  function PoetryEntries(entries: seq<(string, Toml)>, sourcePkg: string, relType: RelationType, sourceFile: string, skipPython: bool): seq<Dependency> {
    if entries == [] then []
    else
      var (pkg, spec) := entries[0];
      var here := if skipPython && IsPython(pkg) then [] else MakePoetryDep(pkg, spec, sourcePkg, relType, sourceFile).ToSeq();
      here + PoetryEntries(entries[1..], sourcePkg, relType, sourceFile, skipPython)
  }

  method CollectPoetryEntries(entries: seq<(string, Toml)>, sourcePkg: string, relType: RelationType, sourceFile: string, skipPython: bool)
    returns (deps: seq<Dependency>)
    ensures deps == PoetryEntries(entries, sourcePkg, relType, sourceFile, skipPython)
  {
    deps := [];
    var i := 0;
    while i < |entries|
      invariant 0 <= i <= |entries|
      invariant PoetryEntries(entries, sourcePkg, relType, sourceFile, skipPython)
             == deps + PoetryEntries(entries[i..], sourcePkg, relType, sourceFile, skipPython)
    {
      PoetryEntriesStep(entries, i, deps, sourcePkg, relType, sourceFile, skipPython);
      var (pkg, spec) := entries[i];
      if !(skipPython && IsPython(pkg)) {
        var dep := MakePoetryDep(pkg, spec, sourcePkg, relType, sourceFile);
        deps := deps + dep.ToSeq();
      }
      i := i + 1;
    }
    assert deps + [] == deps;
  }

  lemma {:induction false} PoetryEntriesStep(entries: seq<(string, Toml)>, i: nat, deps: seq<Dependency>, sourcePkg: string, relType: RelationType, sourceFile: string, skipPython: bool)
    requires i < |entries|
    requires PoetryEntries(entries, sourcePkg, relType, sourceFile, skipPython)
          == deps + PoetryEntries(entries[i..], sourcePkg, relType, sourceFile, skipPython)
    ensures var here := if skipPython && IsPython(entries[i].0) then []
                        else MakePoetryDep(entries[i].0, entries[i].1, sourcePkg, relType, sourceFile).ToSeq();
      PoetryEntries(entries, sourcePkg, relType, sourceFile, skipPython)
      == (deps + here) + PoetryEntries(entries[i + 1..], sourcePkg, relType, sourceFile, skipPython)
  {
    assert entries[i..][1..] == entries[i + 1..];
  }

  /** The Poetry groups that count as development ones: a narrower set than for PEP 621. */
  predicate PoetryDevGroup(group: string) {
    group in {"dev", "test", "docs"}
  }

  /** The relation of the records of a group. */
  function PoetryGroupRelation(group: string): RelationType {
    if PoetryDevGroup(group) then RequiresDev else RequiresOptional
  }

  /** The records of `[tool.poetry.group.<name>.dependencies]`, group by group. */
  function PoetryGroups(groups: seq<(string, Toml)>, sourcePkg: string): Outcome<seq<Dependency>> {
    if groups == [] then Returned([])
    else
      var (group, groupData) := groups[0];
      var rel := PoetryGroupRelation(group);
      var table :- Get(groupData, "dependencies", TTable([]));
      var entries :- Items(table);
      Prepend(PoetryEntries(entries, sourcePkg, rel, GroupFile(group), false), PoetryGroups(groups[1..], sourcePkg))
  }

  method CollectPoetryGroups(groups: seq<(string, Toml)>, sourcePkg: string) returns (r: Outcome<seq<Dependency>>)
    ensures r == PoetryGroups(groups, sourcePkg)
  {
    var deps: seq<Dependency> := [];
    var i := 0;
    PrependNothing(deps);
    while i < |groups|
      invariant 0 <= i <= |groups|
      invariant PoetryGroups(groups, sourcePkg) == Prepend(deps, PoetryGroups(groups[i..], sourcePkg))
    {
      PoetryGroupsFrom(groups, i, sourcePkg);
      var (group, groupData) := groups[i];
      var rel := PoetryGroupRelation(group);
      var table :- Get(groupData, "dependencies", TTable([]));
      var entries :- Items(table);
      var groupDeps := CollectPoetryEntries(entries, sourcePkg, rel, GroupFile(group), false);
      PrependTwice(deps, groupDeps, PoetryGroups(groups[i + 1..], sourcePkg));
      deps := deps + groupDeps;
      i := i + 1;
    }
    PrependNothing(deps);
    return Returned(deps);
  }

  lemma {:induction false} PoetryGroupsFrom(groups: seq<(string, Toml)>, i: nat, sourcePkg: string)
    requires i < |groups|
    ensures PoetryGroups(groups[i..], sourcePkg)
         == (var (group, groupData) := groups[i];
             var table :- Get(groupData, "dependencies", TTable([]));
             var entries :- Items(table);
             Prepend(PoetryEntries(entries, sourcePkg, PoetryGroupRelation(group), GroupFile(group), false),
                     PoetryGroups(groups[i + 1..], sourcePkg)))
  {
    assert groups[i..][1..] == groups[i + 1..];
  }

  // ---------------------------------------------------------------------------------------
  // parse_pyproject
  // ---------------------------------------------------------------------------------------

  /**
   * What `parse_pyproject` returns or raises. `decoded` is the decoded TOML document, `None`
   * when the text does not decode.
   */
  function Pyproject(content: string, decoded: Option<seq<(string, Toml)>>, sourcePkg: string): Outcome<seq<Dependency>> {
    if content == [] || decoded.None? then Returned([])
    else
      var data := decoded.value;
      var project := Lookup(data, "project").GetOr(TTable([]));
      var coreList :- Get(project, "dependencies", TArray([]));
      var coreItems :- Elements(coreList);
      var core :- DepStrings(coreItems, sourcePkg, RequiresCore, "pyproject.toml");
      var optionalTable := Lookup(project.entries, "optional-dependencies").GetOr(TTable([]));
      var groups :- Items(optionalTable);
      var optional :- OptionalGroups(groups, sourcePkg);
      var tool := Lookup(data, "tool").GetOr(TTable([]));
      var poetry :- Get(tool, "poetry", TTable([]));
      var poetryTable :- Get(poetry, "dependencies", TTable([]));
      var poetryEntries :- Items(poetryTable);
      var devTable := Lookup(poetry.entries, "dev-dependencies").GetOr(TTable([]));
      var devEntries :- Items(devTable);
      var groupTable := Lookup(poetry.entries, "group").GetOr(TTable([]));
      var poetryGroups :- Items(groupTable);
      var grouped :- PoetryGroups(poetryGroups, sourcePkg);
      Returned(core + optional
               + PoetryEntries(poetryEntries, sourcePkg, RequiresCore, "pyproject.toml", true)
               + PoetryEntries(devEntries, sourcePkg, RequiresDev, "pyproject.toml", false)
               + grouped)
  }

  /** `parse_pyproject`. */
  method ParsePyproject(content: string, decoded: Option<seq<(string, Toml)>>, sourcePkg: string)
    returns (r: Outcome<seq<Dependency>>)
    ensures r == Pyproject(content, decoded, sourcePkg)
  {
    if content == [] || decoded.None? {
      return Returned([]);
    }
    var data := decoded.value;
    var project := Lookup(data, "project").GetOr(TTable([]));
    var coreList :- Get(project, "dependencies", TArray([]));
    var coreItems :- Elements(coreList);
    var deps :- CollectDepStrings(coreItems, sourcePkg, RequiresCore, "pyproject.toml");
    var optionalTable := Lookup(project.entries, "optional-dependencies").GetOr(TTable([]));
    var groups :- Items(optionalTable);
    var optional :- CollectOptionalGroups(groups, sourcePkg);
    deps := deps + optional;
    var tool := Lookup(data, "tool").GetOr(TTable([]));
    var poetry :- Get(tool, "poetry", TTable([]));
    var poetryTable :- Get(poetry, "dependencies", TTable([]));
    var poetryEntries :- Items(poetryTable);
    var poetryCore := CollectPoetryEntries(poetryEntries, sourcePkg, RequiresCore, "pyproject.toml", true);
    deps := deps + poetryCore;
    var devTable := Lookup(poetry.entries, "dev-dependencies").GetOr(TTable([]));
    var devEntries :- Items(devTable);
    var poetryDev := CollectPoetryEntries(devEntries, sourcePkg, RequiresDev, "pyproject.toml", false);
    deps := deps + poetryDev;
    var groupTable := Lookup(poetry.entries, "group").GetOr(TTable([]));
    var poetryGroups :- Items(groupTable);
    var grouped :- CollectPoetryGroups(poetryGroups, sourcePkg);
    return Returned(deps + grouped);
  }

  // ---------------------------------------------------------------------------------------
  // Properties
  // ---------------------------------------------------------------------------------------

  /** Empty text or text that does not decode gives no records and raises nothing. */
  lemma {:induction false} EmptyOrUndecodable(content: string, decoded: Option<seq<(string, Toml)>>, sourcePkg: string)
    requires content == [] || decoded.None?
    ensures Pyproject(content, decoded, sourcePkg) == Returned([])
  {
  }

  /** A dependency array raises exactly when one of its elements is not a string. */
  lemma {:induction false} DepStringsRaises(items: seq<Toml>, sourcePkg: string, relType: RelationType, sourceFile: string)
    ensures DepStrings(items, sourcePkg, relType, sourceFile).Raised? <==> exists i :: 0 <= i < |items| && !items[i].TStr?
  {
    if items != [] {
      DepStringsRaises(items[1..], sourcePkg, relType, sourceFile);
      if exists i :: 0 <= i < |items| - 1 && !items[1..][i].TStr? {
        var i :| 0 <= i < |items| - 1 && !items[1..][i].TStr?;
        assert !items[i + 1].TStr?;
      }
      if exists i :: 0 <= i < |items| && !items[i].TStr? {
        var i :| 0 <= i < |items| && !items[i].TStr?;
        if i > 0 {
          assert items[1..][i - 1] == items[i];
        }
      }
    }
  }

  /** Whether a record carries the package, the relation and the file of the array it came from. */
  predicate FromArray(d: Dependency, sourcePkg: string, relType: RelationType, sourceFile: string) {
    d.source == sourcePkg && d.target != [] && d.target != sourcePkg
    && d.relationType == relType && d.sourceFile == sourceFile
  }

  /** Every record of a dependency array has the array's relation and file, and is not a self-dependency. */
  lemma {:induction false} DepStringsRecords(items: seq<Toml>, sourcePkg: string, relType: RelationType, sourceFile: string)
    ensures var r := DepStrings(items, sourcePkg, relType, sourceFile);
      r.Returned? ==> forall d :: d in r.value ==> FromArray(d, sourcePkg, relType, sourceFile)
  {
    if items != [] {
      DepStringsRecords(items[1..], sourcePkg, relType, sourceFile);
    }
  }


  /** Whether `d` carries the file and the relation of group `k`. */
  predicate FromOptionalGroup(d: Dependency, sourcePkg: string, groups: seq<(string, Toml)>, k: int)
    requires 0 <= k < |groups|
  {
    FromArray(d, sourcePkg, OptionalGroupRelation(groups[k].0), GroupFile(groups[k].0))
  }

  /**
   * Every record of `[project.optional-dependencies]` names its group in its file, and is a
   * development dependency exactly when the group is one of the development groups.
   */
  lemma {:induction false} OptionalGroupsRecord(groups: seq<(string, Toml)>, sourcePkg: string, d: Dependency)
    requires OptionalGroups(groups, sourcePkg).Returned? && d in OptionalGroups(groups, sourcePkg).value
    ensures exists k :: 0 <= k < |groups| && FromOptionalGroup(d, sourcePkg, groups, k)
  {
    var (group, depList) := groups[0];
    var items := Elements(depList).value;
    var head := DepStrings(items, sourcePkg, OptionalGroupRelation(group), GroupFile(group)).value;
    var tail := OptionalGroups(groups[1..], sourcePkg);
    assert tail.Returned? && OptionalGroups(groups, sourcePkg).value == head + tail.value;
    if d in head {
      DepStringsRecords(items, sourcePkg, OptionalGroupRelation(group), GroupFile(group));
      assert FromOptionalGroup(d, sourcePkg, groups, 0);
    } else {
      OptionalGroupsRecord(groups[1..], sourcePkg, d);
      var k :| 0 <= k < |groups[1..]| && FromOptionalGroup(d, sourcePkg, groups[1..], k);
      assert groups[1..][k] == groups[k + 1];
      assert FromOptionalGroup(d, sourcePkg, groups, k + 1);
    }
  }

  /** Whether a record of a Poetry table carries the package and the table's file and relation. */
  predicate FromPoetryTable(d: Dependency, sourcePkg: string, relType: RelationType, sourceFile: string) {
    d.source == sourcePkg && d.target != [] && d.target != sourcePkg && d.sourceFile == sourceFile
    && (d.relationType == relType || d.relationType == RequiresOptional)
  }

  /** Every record of a Poetry table has the table's file, and its relation or an optional one. */
  lemma {:induction false} PoetryEntriesRecords(entries: seq<(string, Toml)>, sourcePkg: string, relType: RelationType, sourceFile: string, skipPython: bool)
    ensures forall d :: d in PoetryEntries(entries, sourcePkg, relType, sourceFile, skipPython) ==>
      FromPoetryTable(d, sourcePkg, relType, sourceFile)
  {
    if entries != [] {
      PoetryEntriesRecords(entries[1..], sourcePkg, relType, sourceFile, skipPython);
    }
  }

  function NotPython(entry: (string, Toml)): bool {
    !IsPython(entry.0)
  }

  /** Skipping the `python` key is the same as reading the table with that key removed. */
  lemma {:induction false} PythonSkipped(entries: seq<(string, Toml)>, sourcePkg: string, relType: RelationType, sourceFile: string)
    ensures PoetryEntries(entries, sourcePkg, relType, sourceFile, true)
         == PoetryEntries(Filter(NotPython, entries), sourcePkg, relType, sourceFile, false)
  {
    if entries != [] {
      var rest := Filter(NotPython, entries[1..]);
      PythonSkipped(entries[1..], sourcePkg, relType, sourceFile);
      assert entries == [entries[0]] + entries[1..];
      FilterCons(NotPython, entries[0], entries[1..]);
      var lhsHead := if IsPython(entries[0].0) then [] else MakePoetryDep(entries[0].0, entries[0].1, sourcePkg, relType, sourceFile).ToSeq();
      assert PoetryEntries(entries, sourcePkg, relType, sourceFile, true)
          == lhsHead + PoetryEntries(rest, sourcePkg, relType, sourceFile, false);
      if NotPython(entries[0]) {
        var filtered := [entries[0]] + rest;
        assert Filter(NotPython, entries) == filtered;
        assert filtered[0] == entries[0] && filtered[1..] == rest;
      } else {
        assert Filter(NotPython, entries) == rest;
        assert lhsHead == [];
      }
    }
  }


  /** Whether `d` carries the file of group `k` and that group's relation or an optional one. */
  predicate FromPoetryGroup(d: Dependency, sourcePkg: string, groups: seq<(string, Toml)>, k: int)
    requires 0 <= k < |groups|
  {
    FromPoetryTable(d, sourcePkg, PoetryGroupRelation(groups[k].0), GroupFile(groups[k].0))
  }

  /**
   * Every record of a Poetry group names the group in its file; it is a development
   * dependency only for a development group, and otherwise an optional one.
   */
  lemma {:induction false} PoetryGroupsRecord(groups: seq<(string, Toml)>, sourcePkg: string, d: Dependency)
    requires PoetryGroups(groups, sourcePkg).Returned? && d in PoetryGroups(groups, sourcePkg).value
    ensures exists k :: 0 <= k < |groups| && FromPoetryGroup(d, sourcePkg, groups, k)
  {
    var (group, groupData) := groups[0];
    var entries := Items(Get(groupData, "dependencies", TTable([])).value).value;
    var head := PoetryEntries(entries, sourcePkg, PoetryGroupRelation(group), GroupFile(group), false);
    var tail := PoetryGroups(groups[1..], sourcePkg);
    assert tail.Returned? && PoetryGroups(groups, sourcePkg).value == head + tail.value;
    if d in head {
      PoetryEntriesRecords(entries, sourcePkg, PoetryGroupRelation(group), GroupFile(group), false);
      assert FromPoetryGroup(d, sourcePkg, groups, 0);
    } else {
      PoetryGroupsRecord(groups[1..], sourcePkg, d);
      var k :| 0 <= k < |groups[1..]| && FromPoetryGroup(d, sourcePkg, groups[1..], k);
      assert groups[1..][k] == groups[k + 1];
      assert FromPoetryGroup(d, sourcePkg, groups, k + 1);
    }
  }

  /** Every record read from a `pyproject.toml` comes from the package, and never names the package itself. */
  lemma {:induction false} PyprojectRecords(content: string, decoded: Option<seq<(string, Toml)>>, sourcePkg: string)
    ensures var r := Pyproject(content, decoded, sourcePkg);
      r.Returned? ==> forall d :: d in r.value ==> d.source == sourcePkg && d.target != [] && d.target != sourcePkg
  {
    var r := Pyproject(content, decoded, sourcePkg);
    if r.Returned? && !(content == [] || decoded.None?) {
      var data := decoded.value;
      var project := Lookup(data, "project").GetOr(TTable([]));
      var coreItems := Elements(Get(project, "dependencies", TArray([])).value).value;
      DepStringsRecords(coreItems, sourcePkg, RequiresCore, "pyproject.toml");
      var groups := Items(Lookup(project.entries, "optional-dependencies").GetOr(TTable([]))).value;
      forall d | d in OptionalGroups(groups, sourcePkg).value
        ensures d.source == sourcePkg && d.target != [] && d.target != sourcePkg
      {
        OptionalGroupsRecord(groups, sourcePkg, d);
      }
      var poetry := Get(Lookup(data, "tool").GetOr(TTable([])), "poetry", TTable([])).value;
      var poetryEntries := Items(Get(poetry, "dependencies", TTable([])).value).value;
      PoetryEntriesRecords(poetryEntries, sourcePkg, RequiresCore, "pyproject.toml", true);
      var devEntries := Items(Lookup(poetry.entries, "dev-dependencies").GetOr(TTable([]))).value;
      PoetryEntriesRecords(devEntries, sourcePkg, RequiresDev, "pyproject.toml", false);
      var poetryGroups := Items(Lookup(poetry.entries, "group").GetOr(TTable([]))).value;
      forall d | d in PoetryGroups(poetryGroups, sourcePkg).value
        ensures d.source == sourcePkg && d.target != [] && d.target != sourcePkg
      {
        PoetryGroupsRecord(poetryGroups, sourcePkg, d);
      }
    }
  }

  /**
   * A document with only a `[project]` dependency array yields that array's records, as core
   * dependencies read from `pyproject.toml`.
   */
  lemma {:induction false} CoreOnly(content: string, items: seq<Toml>, sourcePkg: string)
    requires content != []
    ensures Pyproject(content, Some([("project", TTable([("dependencies", TArray(items))]))]), sourcePkg)
         == DepStrings(items, sourcePkg, RequiresCore, "pyproject.toml")
  {
    var r := DepStrings(items, sourcePkg, RequiresCore, "pyproject.toml");
    if r.Returned? {
      assert r.value + [] + [] + [] + [] == r.value;
    }
  }

  /** `optional = true` turns even a development entry into an optional one, keeping its version. */
  lemma {:induction false} OptionalOverridesDev(pkg: string, version: string, sourcePkg: string, sourceFile: string)
    requires NormalizeName(pkg) != [] && NormalizeName(pkg) != sourcePkg
    ensures var r := MakePoetryDep(pkg, TTable([("version", TStr(version)), ("optional", TBool(true))]), sourcePkg, RequiresDev, sourceFile);
      r.Some? && r.value.relationType == RequiresOptional && r.value.versionConstraint == Some(version)
  {
    var spec := TTable([("version", TStr(version)), ("optional", TBool(true))]);
    assert Lookup(spec.entries, "version") == Some(TStr(version));
    assert spec.entries[1..] == [("optional", TBool(true))];
    assert Lookup(spec.entries, "optional") == Some(TBool(true));
  }
}
