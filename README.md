# Dependency analysis pipeline of a Python-ecosystem analyzer, in Dafny

This project models the analysis core of `info-202-final-project`. That tool collects GitHub
repositories of Python ML/data-science packages and reads their dependency manifests. It
classifies the packages into facets (domain, role, health), builds a dependency multigraph and
answers queries over it. Everything below is modelled on values and proved with Dafny.

- **Records** (`models.dfy`, `datetimes.dfy`). The enumerations `RelationType`, `Domain`,
  `Role` and `HealthStatus` are datatypes with their string values. `Package`, `Dependency`
  and `Repository` are datatypes whose defaults are the dataclass defaults: a new package is
  a "utilities" "library" with "unknown" health, zero degrees and zero centrality. A new
  dependency has no version, file `""` and is not transitive. `to_dict`/`from_dict` are
  modelled, including the ISO text of a timestamp (`isoformat`/`fromisoformat`).
- **Manifest parsing**:
  - `requirements_parser.dfy`: PEP 503 name normalisation, the requirement-line regular
    expression (with the backtracking of Python's `re`) and the line loop.
  - `pyproject_parser.dfy`: the PEP 621 `[project]` table and the Poetry tables, over an
    already decoded TOML tree.
  - `setup_parser.dfy` and `setup_properties.dfy`: the `SetupVisitor` class and its
    never-executing evaluator over a syntax tree of `setup.py`.
  - `dependency_extractor.dfy`: the priority-ordered merge of the three formats with
    deduplication by (source, target, relation type), and `extract_all`.
- **Ontology**:
  - `relation_types.dfy`: relation-type refinement from the dev-package and extension tables.
  - `package_taxonomy.dfy`: name-based classification and age-bucketed health.
  - `inference.dfy`: the three in-place passes over the name-keyed package map.
- **Graph**: a graph is an insertion-ordered node dictionary plus a sequence of edges, so
  parallel edges are kept.
  - `graph_builder.dfy`: construction with placeholder nodes, facet/degree filtering and
    k-hop neighbourhoods.
  - `graph_metrics.dfy`: degrees, metric write-back, hidden-pillar ranking and graph
    statistics.
  - `graph_paths.dfy`: shortest path by breadth-first layers, all simple paths, per-step
    details, and common successors/predecessors.
- **Glue**:
  - `facet_filters.dfy`: the package-list filter of the UI.
  - `build_script.dfy`: the assembly loops and the analysis steps of the batch script.

Helper modules: `wrappers.dfy` (`Option`, `Outcome`: a returned value or a raised
exception), `seqs.dfy` (filter/map lemmas), `dicts.dfy` (insertion-ordered dictionaries) and
`pystrings.dfy` (`strip`, `lower`, `split` and string order as Python has them).

Each imperative source function is a `method` with its loops. The method's `ensures` ties its
result to a specification function, and the lemmas state the source's promises about that
function. `SetupVisitor` is a class whose fields `dependencies` and `variables` its methods
update. Each method ensures that the new state (or the raised exception) is what a
specification function computes from the old state.

Two behaviours of the code are worth stating plainly:
- `find_common_dependencies` (and `find_common_dependents`) with a single name present in the
  graph return that name's own successor (predecessor) set (`GraphPaths.CommonOfOne`).
- The `-r` include branch of `parse_requirements` (src/parsing/requirements_parser.py:21-22) is
  dead, because line 17 already skips every line starting with `-`
  (`RequirementsParser.IncludeBranchUnreachable`).

## Model

| member | source | states |
|---|---|---|
| Models.RelationTypeFromValue | src/storage/models.py:6-10 | `RelationType(s)` returns the member whose value is `s`, and a member is returned exactly when its value is `s` (so the four values are distinct and it inverts `.value`) |
| Models.PackageToDict | src/storage/models.py:55-59 | `to_dict` lists the field names in field order and stores each field's value under its name: optional strings and stars as their value or `None`, the last-commit date as its `isoformat()` text or `None`, degrees and centralities as numbers |
| Models.PackageRoundTrip | src/storage/models.py:55-65 | `Package.from_dict(p.to_dict())` gives back `p`, the last-commit date included through its ISO text |
| Models.FromDictConverts | src/storage/models.py:61-65 | `from_dict` converts the ISO text written by `to_dict` back into the timestamp before building the package |
| Models.PackageFromFields | src/storage/models.py:61-65 | `cls(**d)` raises `TypeError` on an unexpected key or a missing `name`; a package it builds holds the value stored under each field name, or the field's default when the key is absent |
| Models.BuildPackage | src/storage/models.py:65 | the constructor step: every field of a returned package is the value passed for it; the only exception is `TypeError` |
| Models.DependencyToDict | src/storage/models.py:77-80 | `to_dict` lists the field names in field order and stores each field's value under its name, the relation type as its string value |
| Models.DependencyFromDict | src/storage/models.py:82-85 | a missing `relation_type` raises `KeyError` and an unknown one `ValueError`; a dependency read back has the stored relation type, source and target, and the stored version, file and transitivity or their defaults |
| Models.DependencyRoundTrip | src/storage/models.py:77-85 | `Dependency.from_dict(d.to_dict())` gives back `d` |
| DateTimes.FromIsoFormat | src/storage/models.py:64 | `datetime.fromisoformat` only yields datetimes whose fields are in range, with the date read from the first ten characters |
| DateTimes.IsoFormatRoundTrip | src/storage/models.py:55-65 | `fromisoformat(d.isoformat())` gives back `d`, for naive and aware datetimes, with and without microseconds |
| DateTimes.IsoFormatSepRoundTrip | src/storage/models.py:64 | `fromisoformat` reads back `d.isoformat(sep)` for any one-character separator, a space included |
| DateTimes.DateOnly | src/storage/models.py:64 | a bare `YYYY-MM-DD` reads as naive midnight of that day |
| DateTimes.MinutePrecision | src/storage/models.py:64 | `YYYY-MM-DD HH:MM` (any separator) reads as a naive time with zero seconds |
| DateTimes.MillisecondFraction | src/storage/models.py:64 | a three-digit fraction `.fff` counts milliseconds |
| RequirementsParser.CollapseSeparators | src/parsing/requirements_parser.py:60 | `re.sub(r'[-_.]+', '-', s)` leaves no `_`, `.` or `--`; it is empty exactly when `s` is, and starts with `-` exactly when `s` starts with a separator |
| RequirementsParser.NormalizeNameIsNormalized | src/parsing/requirements_parser.py:58-60 | a normalised name is lower-case, has no `_`, `.` or `--`, is no longer than the input and is empty only for an empty input |
| RequirementsParser.CollapseIdentity | src/parsing/requirements_parser.py:60 | a string without `_`, `.` or `--` is left unchanged by the separator collapse |
| RequirementsParser.NormalizeNameIdempotent | src/parsing/requirements_parser.py:58-60 | normalising a normalised name changes nothing |
| RequirementsParser.NormalizeNameSameSpelling | src/parsing/requirements_parser.py:58-60 | names that differ only in letter case and in the choice of separator run normalise to the same name |
| RequirementsParser.NormalizeNameExample | src/parsing/requirements_parser.py:58-60 | example: `Foo_Bar.Baz` and `foo-bar-baz` both normalise to `foo-bar-baz` |
| RequirementsParser.NamePrefix | src/parsing/requirements_parser.py:37 | group 1's character class: the longest prefix made of `[a-zA-Z0-9_-]` |
| RequirementsParser.NameGroupIsMaximal | src/parsing/requirements_parser.py:37 | when the pattern matches, group 1 is the whole leading run of name characters (backtracking never settles on a shorter one) |
| RequirementsParser.ShorterNamesFail | src/parsing/requirements_parser.py:37 | if the rest of the pattern fails after the longest name, it fails after every shorter one too |
| RequirementsParser.LastClose | src/parsing/requirements_parser.py:37 | the greedy `\[.*\]` ends at the last `]` of the line |
| RequirementsParser.RequirementMatchOnLine | src/parsing/requirements_parser.py:37 | on one line the pattern matches exactly when the line starts with a name character; group 2 is the text after the name and any extras, without leading whitespace |
| RequirementsParser.SpaceRunStrips | src/parsing/requirements_parser.py:37 | the greedy `\s*` before group 2 removes exactly the leading whitespace |
| RequirementsParser.ParseSpecifier | src/parsing/requirements_parser.py:31-55 | a record comes from the source package and names the given file and relation; its target is a non-empty normalised name other than the package itself |
| RequirementsParser.ParseRequirementLine | src/parsing/requirements_parser.py:31-55 | the record of a line is a development dependency when `is_dev`, a core one otherwise, with the fields above |
| RequirementsParser.SpecifierOnLine | src/parsing/requirements_parser.py:34-45 | a record is read exactly when the marker-free stripped line starts with a name whose normalised form is not the package; the target is that normalised name, and the version is the stripped text after name and extras or `None` when blank |
| RequirementsParser.MarkerIgnored | src/parsing/requirements_parser.py:34 | everything from the first `;` on does not affect the record |
| RequirementsParser.NameVersionMarkerLine | src/parsing/requirements_parser.py:34-55 | `name version ;marker` reads as the normalised name with the version, whatever the marker |
| RequirementsParser.MarkerExample | src/parsing/requirements_parser.py:34-42 | example: `Flask==2.0 ; python_version<'3.8'` gives target `flask` and version `==2.0` |
| RequirementsParser.SkippedLines | src/parsing/requirements_parser.py:16-18 | blank lines and lines starting with `#` or `-` contribute nothing |
| RequirementsParser.IncludeBranchUnreachable | src/parsing/requirements_parser.py:17-22 | a line whose stripped text starts with `-r ` is already skipped by the `-` option test: it yields no record, so the include branch is dead |
| RequirementsParser.ParseRequirements | src/parsing/requirements_parser.py:5-28 | the line loop returns exactly the records the lines yield, in line order |
| RequirementsParser.RequirementsOfLinesAppend | src/parsing/requirements_parser.py:13-26 | the result for lines `a + b` is the result for `a` followed by that for `b` |
| RequirementsParser.RequirementsOfLinesMember | src/parsing/requirements_parser.py:13-26 | a record is in the result exactly when some line yields it |
| RequirementsParser.RequirementsRecords | src/parsing/requirements_parser.py:11-55 | every record comes from the source package and names the file; it is a development dependency exactly when the lower-cased file name contains `dev` or `test`; it never targets the package itself |
| PyprojectParser.Lookup | src/parsing/pyproject_parser.py:20 | a TOML table lookup finds the stored entry, or reports the key absent |
| PyprojectParser.Get | src/parsing/pyproject_parser.py:20 | `.get` raises `AttributeError` exactly when the value is not a table |
| PyprojectParser.Items | src/parsing/pyproject_parser.py:29 | `.items()` raises `AttributeError` exactly when the value is not a table |
| PyprojectParser.Elements | src/parsing/pyproject_parser.py:23 | iterating raises exactly for a number or boolean; an array gives its items, a string its one-character strings in order and a table its keys in order |
| PyprojectParser.ParseDepString | src/parsing/pyproject_parser.py:64-85 | a non-string element raises `TypeError`; a string is read as a requirement line with the given relation and file |
| PyprojectParser.MakePoetryDep | src/parsing/pyproject_parser.py:88-109 | a record exists exactly when the normalised name is non-empty and not the package; a string spec is the version, a table spec's `version` key is; a truthy `optional` makes the relation optional |
| PyprojectParser.OptionalOverridesDev | src/parsing/pyproject_parser.py:98-101 | `optional = true` turns even a dev-dependency into an optional one and keeps its version |
| PyprojectParser.CollectDepStrings | src/parsing/pyproject_parser.py:23-26 | the loop over a dependency array returns the records of its strings, in order, or the first exception |
| PyprojectParser.CollectOptionalGroups | src/parsing/pyproject_parser.py:29-35 | the loop over optional-dependency groups returns their records group by group |
| PyprojectParser.CollectPoetryEntries | src/parsing/pyproject_parser.py:40-50 | the loop over a Poetry table returns its records in key order, skipping `python` when asked |
| PyprojectParser.CollectPoetryGroups | src/parsing/pyproject_parser.py:53-59 | the loop over Poetry groups returns their records group by group |
| PyprojectParser.ParsePyproject | src/parsing/pyproject_parser.py:7-61 | returns the PEP 621 core records, then optional groups, then Poetry dependencies, dev-dependencies and groups, or the exception raised |
| PyprojectParser.EmptyOrUndecodable | src/parsing/pyproject_parser.py:9-15 | empty text or a TOML decode error gives `[]` |
| PyprojectParser.DepStringsRaises | src/parsing/pyproject_parser.py:23-26 | a dependency array raises exactly when one of its elements is not a string |
| PyprojectParser.DepStringsRecords | src/parsing/pyproject_parser.py:23-26 | every record of an array carries the array's relation and file and is no self-dependency |
| PyprojectParser.OptionalGroupsRecord | src/parsing/pyproject_parser.py:29-35 | every optional-group record names its group in `pyproject.toml[group]`; it is a dev dependency exactly for dev, test, testing, tests, develop and docs, optional otherwise |
| PyprojectParser.PoetryEntriesRecords | src/parsing/pyproject_parser.py:40-50 | every record of a Poetry table has the table's file, and the table's relation or the optional one |
| PyprojectParser.PythonSkipped | src/parsing/pyproject_parser.py:40-42 | skipping `python` (in any letter case) equals reading the table without that key |
| PyprojectParser.PoetryGroupsRecord | src/parsing/pyproject_parser.py:53-59 | a Poetry group record names its group; it is a dev dependency only for dev, test and docs, optional otherwise |
| PyprojectParser.PyprojectRecords | src/parsing/pyproject_parser.py:7-109 | every record read from `pyproject.toml` comes from the package and never targets it |
| PyprojectParser.CoreOnly | src/parsing/pyproject_parser.py:19-26 | a document with only a `[project]` dependency array yields that array's records as core dependencies of `pyproject.toml` |
| SetupParser.DictGet | src/parsing/setup_parser.py:150 | a dictionary lookup finds the stored value of the key, or reports it absent |
| SetupParser.DictPut | src/parsing/setup_parser.py:201 | `d[k] = v` stores `v` under `k` and leaves every other key alone |
| SetupParser.Zip | src/parsing/setup_parser.py:122 | `zip` pairs the elements up to the shorter length |
| SetupParser.BuildDict | src/parsing/setup_parser.py:122 | `dict(pairs)` raises exactly when some key is unhashable |
| SetupParser.Iterate | src/parsing/setup_parser.py:160 | `list(v)`/`tuple(v)` raise exactly for a number or `None` |
| SetupParser.SeqIndex | src/parsing/setup_parser.py:150 | indexing a list succeeds exactly for an integer within range, counting negative ones from the end |
| SetupParser.SpecNamePrefix | src/parsing/setup_parser.py:197 | `^([a-zA-Z0-9_.-]+)` takes the longest prefix of those characters |
| SetupParser.LookupKey | src/parsing/setup_parser.py:194-200 | a `_deps` entry is filed under a non-empty normalised name |
| SetupParser.ParseSpecifiers | src/parsing/setup_parser.py:81-86 | the `_add_deps` loop appends the record of each string item that parses, in order, and skips the rest |
| SetupParser.SetupVisitor.constructor | src/parsing/setup_parser.py:26-29 | a new visitor has no dependencies and no variables |
| SetupParser.SetupVisitor.BuildDepsLookup | src/parsing/setup_parser.py:187-202 | `_build_deps_lookup` returns the table the loop over `_deps` builds, or `None` when `_deps` is not a list |
| SetupParser.SetupVisitor.AddDepsOf | src/parsing/setup_parser.py:76-86 | `_add_deps` leaves the state `AddDeps` computes: only a list value contributes records |
| SetupParser.SetupVisitor.ProcessExtrasOf | src/parsing/setup_parser.py:67-74 | `_process_extras` reads only a dict display with constant keys |
| SetupParser.SetupVisitor.ProcessSetupCall | src/parsing/setup_parser.py:56-65 | `_process_setup_call` reads the keywords first to last |
| SetupParser.SetupVisitor.SetupCallOf | src/parsing/setup_parser.py:43-45 | only a call named `setup` or `setuptools.setup` is read |
| SetupParser.SetupVisitor.VisitCall | src/parsing/setup_parser.py:42-46 | `visit_Call` reads a setup call, then visits the callee, the arguments and the keyword values |
| SetupParser.SetupVisitor.Visit | src/parsing/setup_parser.py:42-46 | visiting an expression leaves the state `VisitNode` computes |
| SetupParser.SetupVisitor.VisitAll | src/parsing/setup_parser.py:46 | a list of expressions is visited first to last |
| SetupParser.SetupVisitor.VisitKeywordValues | src/parsing/setup_parser.py:46 | keyword values are visited first to last |
| SetupParser.SetupVisitor.VisitAssign | src/parsing/setup_parser.py:31-40 | `visit_Assign` records a single-name assignment whose value is known (or `deps` rebuilt from `_deps`), then visits the parts |
| SetupParser.SetupVisitor.VisitStatement | src/parsing/setup_parser.py:31-46 | visiting a statement leaves the state `VisitStmt` computes |
| SetupParser.SetupVisitor.VisitBody | src/parsing/setup_parser.py:19 | the statements of the module are visited first to last |
| SetupParser.ParseSetupPy | src/parsing/setup_parser.py:7-22 | `parse_setup_py` returns the visitor's dependencies, `[]` for empty text or a syntax error, or the exception the visit raised |
| SetupProperties.EvalOnlyAddsDeps | src/parsing/setup_parser.py:110-185 | `_extract_value` never removes or changes a variable; it can only add `deps`, never as `None` |
| SetupProperties.SubscriptOnlyAddsDeps | src/parsing/setup_parser.py:126-152 | the subscript case writes nothing but a resolved `deps` table |
| SetupProperties.BinOpOnlyAddsDeps | src/parsing/setup_parser.py:180-184 | the `+` case writes nothing but `deps` |
| SetupProperties.EvalAllOnlyAddsDeps | src/parsing/setup_parser.py:114-119 | evaluating a list of nodes only adds `deps` |
| SetupProperties.EvalDepsArgsOnlyAddsDeps | src/parsing/setup_parser.py:165-174 | evaluating `deps_list` arguments only adds `deps` |
| SetupProperties.SpecifierDepsMember | src/parsing/setup_parser.py:81-86 | a record of `_add_deps` is exactly the parse of one string item of the list |
| SetupProperties.AddDepsGrows | src/parsing/setup_parser.py:76-86 | `_add_deps` only appends records with the package as source and the given relation and file |
| SetupProperties.ExtrasPairsGrows | src/parsing/setup_parser.py:67-74 | `extras_require` appends only dev records (dev, test, testing, tests, develop) or optional ones, with file `setup.py[extra]` |
| SetupProperties.SetupKeywordsGrow | src/parsing/setup_parser.py:56-65 | a setup call only appends setup records: `install_requires` core, `setup_requires`/`tests_require` dev, both with file `setup.py` |
| SetupProperties.VisitCallGrows | src/parsing/setup_parser.py:42-46 | visiting a call appends setup records only, and none without a setup call inside |
| SetupProperties.VisitNodeGrows | src/parsing/setup_parser.py:42-46 | visiting any expression appends setup records only, and none without a setup call inside |
| SetupProperties.VisitNodesGrow | src/parsing/setup_parser.py:46 | the same for a list of expressions |
| SetupProperties.VisitKeywordsGrow | src/parsing/setup_parser.py:46 | the same for keyword values |
| SetupProperties.VisitStmtGrows | src/parsing/setup_parser.py:31-40 | visiting a statement appends setup records only and keeps the variables free of `None` |
| SetupProperties.VisitStmtsGrow | src/parsing/setup_parser.py:19 | the same for a block of statements |
| SetupProperties.SetupDepsRecords | src/parsing/setup_parser.py:7-22 | every record of `setup.py` has the package as source, a setup relation and file, and no self target; a script without a setup call yields nothing |
| SetupProperties.FileByHas | src/parsing/setup_parser.py:193-201 | the lookup table has a key exactly when some entry is filed under it |
| SetupProperties.FileByLast | src/parsing/setup_parser.py:193-201 | the value under a key is the last entry filed under it |
| SetupProperties.LookupEntriesGet | src/parsing/setup_parser.py:187-202 | the rebuilt `deps` table maps each normalised leading name of a `_deps` string to the last such string |
| SetupProperties.DepsLookupKeys | src/parsing/setup_parser.py:187-202 | every key of the rebuilt table is a non-empty normalised name |
| SetupProperties.DepsSubscriptNormalizesKey | src/parsing/setup_parser.py:130-150 | `deps["Some_Name"]` with an unknown `deps` looks up the normalised key in the rebuilt table and records that table |
| SetupProperties.DepsListReplacesName | src/parsing/setup_parser.py:162-175 | `deps_list("x")` yields the table entry of the normalised name when present, and `"x"` itself otherwise |
| SetupProperties.DepsItemOfString | src/parsing/setup_parser.py:169-174 | a string argument is replaced by its table entry when the normalised key is present |
| SetupProperties.DepsListCall | src/parsing/setup_parser.py:162-175 | a `deps_list(...)` call evaluates to the list its arguments collect |
| SetupProperties.EvalStrConstants | src/parsing/setup_parser.py:111-114 | a list display of string literals evaluates to those strings |
| SetupProperties.AddDepsStrConstants | src/parsing/setup_parser.py:76-86 | `_add_deps` on a list of string literals appends their parses |
| SetupProperties.SetupKeywordsInstallRequires | src/parsing/setup_parser.py:58-59 | `install_requires=[...]` appends core records with file `setup.py` |
| SetupProperties.SetupCallReadsKeywordsOnce | src/parsing/setup_parser.py:42-46 | a setup call whose parts hold no further setup call contributes exactly what its keywords do |
| SetupProperties.SingleExprScript | src/parsing/setup_parser.py:7-22 | a one-expression script yields what visiting that expression collects |
| SetupProperties.InstallRequiresLiterals | src/parsing/setup_parser.py:7-22 | `setup(install_requires=[literals])` yields the parses of the literals as core dependencies |
| DependencyExtractor.PackageName | src/parsing/dependency_extractor.py:9 | the source name is `package_name` when set, else the lower-cased last `/` segment of `full_name` |
| DependencyExtractor.Dedup | src/parsing/dependency_extractor.py:24-30 | the deduplicated list is no longer than the input |
| DependencyExtractor.Deduplicate | src/parsing/dependency_extractor.py:24-30 | the `seen`/`unique` loop returns exactly the first record of each triple, in order |
| DependencyExtractor.ExtractDependencies | src/parsing/dependency_extractor.py:7-32 | `extract_dependencies` concatenates pyproject, setup.py and requirements records (in that order) and deduplicates, or raises what a parser raised |
| DependencyExtractor.DedupTriples | src/parsing/dependency_extractor.py:24-30 | every triple of the input occurs in the output, and no other |
| DependencyExtractor.DedupDistinctTriples | src/parsing/dependency_extractor.py:24-30 | no two output records share a triple |
| DependencyExtractor.DedupIsSubsequence | src/parsing/dependency_extractor.py:24-30 | the output is the input with some records deleted, order kept |
| DependencyExtractor.DedupKeepsFirst | src/parsing/dependency_extractor.py:24-30 | a record is kept exactly when it is the first occurrence of its triple |
| DependencyExtractor.EarlierPartWins | src/parsing/dependency_extractor.py:24-30 | a kept record whose triple occurs in a prefix was taken from that prefix |
| DependencyExtractor.PriorityOrder | src/parsing/dependency_extractor.py:14-30 | pyproject records win over setup.py, which win over requirements.txt |
| DependencyExtractor.ExtractedIsDeduplicated | src/parsing/dependency_extractor.py:24-32 | the result is the deduplication of the concatenation: all triples, no repeats, in order |
| DependencyExtractor.SetupCfgIgnored | src/parsing/dependency_extractor.py:14-22 | the `setup_cfg` text never affects the result |
| DependencyExtractor.ExtractAll | src/parsing/dependency_extractor.py:35-41 | `extract_all` fills the dictionary repository by repository, or raises the first exception |
| DependencyExtractor.ExtractAllStopsAtRaise | src/parsing/dependency_extractor.py:38-40 | once a repository raises, the whole run raises the same exception |
| DependencyExtractor.ExtractAllRaises | src/parsing/dependency_extractor.py:38-40 | `extract_all` returns exactly when every extraction returns |
| DependencyExtractor.ExtractAllKeys | src/parsing/dependency_extractor.py:35-41 | the keys are exactly the package names of the repositories, each listed once |
| DependencyExtractor.ExtractAllLastWins | src/parsing/dependency_extractor.py:38-40 | under each name sits the extraction of the last repository with that name |
| RelationTypes.InferRelationType | src/ontology/relation_types.py:23-40 | dev stays dev; a lower-cased target in the dev table becomes dev; otherwise an extension-table hit or a `base-`/`base_` prefix gives `extends`; anything else keeps its type |
| RelationTypes.Refined | src/ontology/relation_types.py:43-58 | refinement keeps the length |
| RelationTypes.RefineDependencies | src/ontology/relation_types.py:43-58 | the loop returns each record with its relation refined, in order |
| RelationTypes.InferIdempotent | src/ontology/relation_types.py:23-40 | inferring on a refined record gives the same type |
| RelationTypes.RefinedKeepsOtherFields | src/ontology/relation_types.py:43-58 | refinement keeps length and order and changes no field but the relation type |
| RelationTypes.RefinedIdempotent | src/ontology/relation_types.py:43-58 | refining refined output changes nothing |
| RelationTypes.DevPackageIgnoresCase | src/ontology/relation_types.py:25-33 | example: `PyTest` is a dev package |
| RelationTypes.UnderscoreExtension | src/ontology/relation_types.py:36-38 | example: `torch_scatter` extends `torch` |
| PackageTaxonomy.Classified | src/ontology/package_taxonomy.py:91-115 | classification changes only domain and role; a known name gets exactly the table's domain and role |
| PackageTaxonomy.ClassifyPackage | src/ontology/package_taxonomy.py:91-115 | the nested loops of `classify_package` compute `Classified` |
| PackageTaxonomy.ScanWithoutMatch | src/ontology/package_taxonomy.py:103-107 | with no matching pattern the domain is unchanged |
| PackageTaxonomy.ScanLastMatchWins | src/ontology/package_taxonomy.py:103-107 | `break` leaves only the inner loop, so the last matching row in table order wins |
| PackageTaxonomy.LaterRowWins | src/ontology/package_taxonomy.py:82-107 | example: `text-plot` matches NLP and visualisation patterns and ends up in visualisation |
| PackageTaxonomy.ClassifiedRole | src/ontology/package_taxonomy.py:109-113 | an unknown name ending in `-cli`/`-tool` is a tool; else a `fw-`/`-fw` name for torch, tf, sklearn is an extension; else the role is kept |
| PackageTaxonomy.AssessHealth | src/ontology/package_taxonomy.py:118-134 | health is the only field changed; no commit date gives "unknown"; a naive commit date makes the subtraction raise `TypeError` |
| PackageTaxonomy.HealthBoundaries | src/ontology/package_taxonomy.py:127-132 | 89 days is active, 90 and 364 days stable, 365 days declining |
| PackageTaxonomy.HealthMonotone | src/ontology/package_taxonomy.py:127-132 | an older commit never gives a healthier status |
| PackageTaxonomy.ClassifyAndAssess | src/ontology/package_taxonomy.py:137-141 | classify, then assess; only domain, role and health change |
| Inference.Votes | src/ontology/inference.py:13-17 | no vote is "utilities" |
| Inference.MostCommon | src/ontology/inference.py:21 | `most_common(1)[0][0]` is one of the keys |
| Inference.InferDomain | src/ontology/inference.py:5-23 | only the domain can change, and only from "utilities" with at least one vote; a "utilities" package with votes takes one of them |
| Inference.TallyVotes | src/ontology/inference.py:12-17 | the `Counter` loop tallies the votes of the present, classified endpoints |
| Inference.InferDomainFrom | src/ontology/inference.py:5-41 | both domain inferences assign the most common vote of their endpoint |
| Inference.InferRole | src/ontology/inference.py:44-56 | only a library can change, into a framework exactly when in-degree > 10 and out-degree < 2·in-degree |
| Inference.BuildIndexes | src/ontology/inference.py:62-66 | the `setdefault(...).append` loop groups dependencies by source and by target |
| Inference.DomainPass | src/ontology/inference.py:69-76 | a domain pass keeps the key set |
| Inference.RolePass | src/ontology/inference.py:79-80 | the role pass keeps the key set |
| Inference.RunDomainPass | src/ontology/inference.py:69-76 | the pass loop updates the packages in key order, each seeing the domains earlier packages received |
| Inference.RunRolePass | src/ontology/inference.py:79-80 | the role loop updates every package |
| Inference.RunInference | src/ontology/inference.py:59-82 | `run_inference` builds both indexes, then runs the three passes |
| Inference.DomainPassSnoc | src/ontology/inference.py:69-76 | a later package of a pass sees the map as earlier packages left it |
| Inference.TallyKeys | src/ontology/inference.py:12-17 | the tally lists each vote value once, and no other value |
| Inference.TallyCounts | src/ontology/inference.py:12-17 | the tally counts every value exactly |
| Inference.TallyOrder | src/ontology/inference.py:12-17 | tally keys are in order of first occurrence |
| Inference.MostCommonIsFirstMaximum | src/ontology/inference.py:21 | `most_common` picks a largest count, and no earlier key has it |
| Inference.TallyMostCommon | src/ontology/inference.py:19-21 | the most common key is a vote; any other vote is less frequent, or as frequent and first seen later |
| Inference.MostFrequentVoteWins | src/ontology/inference.py:12-21 | a "utilities" package with at least one vote takes the most frequent vote, ties going to the first seen |
| Inference.VotesFromPresentEndpoints | src/ontology/inference.py:14-17 | a vote comes from a dependency whose endpoint is a known package of that domain |
| Inference.IndexGroups | src/ontology/inference.py:62-66 | each index group holds exactly the dependencies with that endpoint, in order |
| Inference.DomainPassFrame | src/ontology/inference.py:68-76 | a domain pass changes only domains, and only those that were "utilities" |
| Inference.InferredFrame | src/ontology/inference.py:59-82 | the map keeps its keys and order; only domains (from "utilities") and roles (library to framework, by the degree rule) change |
| GraphBuilder.EmptyGraph | src/graph/builder.py:66 | the empty graph has no nodes and no edges |
| GraphBuilder.EnsureNode | src/graph/builder.py:16-19 | a missing node is added, an existing one left alone, edges untouched |
| GraphBuilder.AddPackages | src/graph/builder.py:10-11 | the package loop adds no edge |
| GraphBuilder.BuildGraph | src/graph/builder.py:5-29 | `build_graph` runs the package loop, then the dependency loop |
| GraphBuilder.InsertPackages | src/graph/builder.py:9-11 | the package loop adds each package as a node with its `to_dict()` attributes, as `AddPackages` specifies |
| GraphBuilder.InsertDependencies | src/graph/builder.py:14-27 | the dependency loop adds each missing endpoint as a placeholder node and then the edge, as `AddDependencies` specifies |
| GraphBuilder.AddPackagesNodes | src/graph/builder.py:10-11 | the package loop lists each package name once, and no other node |
| GraphBuilder.AddDependenciesNodes | src/graph/builder.py:14-19 | the dependency loop keeps its nodes and adds exactly the missing endpoints |
| GraphBuilder.AddDependenciesEdges | src/graph/builder.py:21-27 | the dependency loop adds one edge per dependency, in order |
| GraphBuilder.BuiltNodes | src/graph/builder.py:5-29 | the nodes are exactly the package names and the dependency endpoints |
| GraphBuilder.BuiltEdges | src/graph/builder.py:14-27 | edge `i` carries dependency `i`'s endpoints, relation value, version and file, and parallel edges are kept |
| GraphBuilder.BuiltValid | src/graph/builder.py:5-29 | every edge joins two nodes |
| GraphBuilder.AddDependenciesKeepsAttrs | src/graph/builder.py:16-19 | an existing node keeps its attributes |
| GraphBuilder.BuiltAttrs | src/graph/builder.py:10-19 | a package node carries the dictionary of the last package of that name |
| GraphBuilder.PlaceholderAttrs | src/graph/builder.py:16-19 | a node added for an endpoint carries only its name |
| GraphBuilder.FilterGraph | src/graph/builder.py:32-60 | `filter_graph` keeps the passing nodes, takes the induced subgraph and removes edges of other relations |
| GraphBuilder.NodesToKeep | src/graph/builder.py:38-47 | the node loop collects the passing nodes |
| GraphBuilder.RemoveEdges | src/graph/builder.py:52-58 | the removal loops keep exactly the edges of a listed relation, in order |
| GraphBuilder.KeptNodesPass | src/graph/builder.py:40-47 | a node is kept exactly when it passes the domain and role tests and its original in-degree is large enough |
| GraphBuilder.FilteredNodes | src/graph/builder.py:40-49 | the result's nodes are exactly the passing nodes, with their attributes |
| GraphBuilder.NodeAttrsFacets | src/graph/builder.py:42-45 | on a package node, whose attributes are the package's `to_dict()` (line 10), `data.get('domain')` (`'role'`) is in a list exactly when the package's own domain (role) is |
| GraphBuilder.FilteredEdges | src/graph/builder.py:49-58 | the result's edges are exactly the original edges between passing nodes whose relation is allowed, in order |
| GraphBuilder.InducedValid | src/graph/builder.py:49 | an induced subgraph is a valid graph on the kept nodes |
| GraphBuilder.FilterWithoutConstraints | src/graph/builder.py:40-58 | with no facet, relation or positive degree constraint the graph is returned unchanged |
| GraphBuilder.SubgraphAround | src/graph/builder.py:63-80 | `get_subgraph_around` grows the node set hop by hop and takes the induced subgraph |
| GraphBuilder.Hop | src/graph/builder.py:72-76 | the inner loop collects the predecessors and successors of the frontier |
| GraphBuilder.NeighboursAdjacent | src/graph/builder.py:73-76 | a node is a neighbour of a set exactly when it is adjacent to a member |
| GraphBuilder.FrontierWalks | src/graph/builder.py:71-78 | the frontier after `k` hops holds exactly the ends of undirected `k`-step walks from the center |
| GraphBuilder.ReachedWithinHops | src/graph/builder.py:68-78 | the node set after `k` hops holds exactly the nodes within `k` undirected hops |
| GraphBuilder.ReachedMonotone | src/graph/builder.py:71-78 | a deeper neighbourhood contains a shallower one |
| GraphBuilder.AroundShape | src/graph/builder.py:63-80 | absent center: empty graph; otherwise the center's neighbourhood with attributes and every original edge among it |
| GraphMetrics.ComputeMetrics | src/graph/metrics.py:29-37 | one entry per node, in node order |
| GraphMetrics.MetricsForSnoc | src/graph/metrics.py:29-35 | recording a node extends the dictionary by its entry |
| GraphMetrics.UpdatePackageMetrics | src/graph/metrics.py:40-52 | every package gets its node's metrics written back, in order |
| GraphMetrics.MetricsWrittenBack | src/graph/metrics.py:44-50 | a package in the graph gets exactly its degrees and centrality; every other field and every absent package is untouched |
| GraphMetrics.Pillars | src/graph/metrics.py:65-74 | one entry per node |
| GraphMetrics.InsertPermutes | src/graph/metrics.py:76 | insertion adds exactly the new entry |
| GraphMetrics.InsertSorted | src/graph/metrics.py:76 | insertion keeps the order non-increasing by score |
| GraphMetrics.SortSortsAndPermutes | src/graph/metrics.py:76 | the sort is a permutation ordered by non-increasing score |
| GraphMetrics.SortIsStable | src/graph/metrics.py:76 | entries of equal score keep their order |
| GraphMetrics.Take | src/graph/metrics.py:77 | `s[:n]` has `min(n, len)` entries (a negative `n` drops from the end) and is a prefix |
| GraphMetrics.FindHiddenPillars | src/graph/metrics.py:55-77 | score every node, sort by score descending, keep the first `top_n` |
| GraphMetrics.PillarsOfNodes | src/graph/metrics.py:65-74 | entry `i` scores node `i` |
| GraphMetrics.HiddenPillarsRanked | src/graph/metrics.py:61-77 | the result is a prefix of a stable descending ranking of all node entries |
| GraphMetrics.ScoreBounds | src/graph/metrics.py:67-72 | for stars ≥ 0 the score lies between half the centrality score and all of it; no stars keeps it all, 10000 or more halves it |
| GraphMetrics.LargestSize | src/graph/metrics.py:96-101 | the largest component size bounds every component and is reached by one, or is 0 with no component |
| GraphMetrics.TotalInDegreeSnoc | src/graph/metrics.py:88 | one more edge adds one to the in-degree total for its target |
| GraphMetrics.TotalOutDegreeSnoc | src/graph/metrics.py:89 | one more edge adds one to the out-degree total for its source |
| GraphMetrics.DegreeTotals | src/graph/metrics.py:13-14 | parallel edges counted, the in-degrees and the out-degrees both sum to the edge count |
| GraphMetrics.GraphStatsFacts | src/graph/metrics.py:80-103 | `num_edges` counts parallel edges; the two average degrees are equal, the edge count over `max(n, 1)`; the largest component size is 0 exactly when there is no component |
| GraphPaths.FirstInto | src/graph/paths.py:10 | the chosen predecessor edge leads from the previous layer into the node |
| GraphPaths.PathTo | src/graph/paths.py:10 | the path rebuilt from the layers starts at the source, ends at the node, follows edges and has at most `k` edges |
| GraphPaths.WithinNodes | src/graph/paths.py:10 | every reachable node is a node |
| GraphPaths.WithinMonotone | src/graph/paths.py:10 | breadth-first layers only grow |
| GraphPaths.WithinStable | src/graph/paths.py:10 | once a layer adds nothing, no later layer does |
| GraphPaths.SearchFound | src/graph/paths.py:10 | a found hop count reaches the target, and no smaller layer does |
| GraphPaths.SearchGivesUp | src/graph/paths.py:10-11 | when the search gives up, the target is in no layer |
| GraphPaths.ShortestPathIsShortest | src/graph/paths.py:4-12 | a found path runs from source to target along edges, and no path between them is shorter |
| GraphPaths.ShortestPathNone | src/graph/paths.py:6-12 | `None` exactly when an endpoint is missing or no path joins them |
| GraphPaths.ShortestPathToSelf | src/graph/paths.py:10 | a present node reaches itself by the one-node path |
| GraphPaths.TargetsAreSuccessors | src/graph/paths.py:21 | the children the search tries are exactly the successors |
| GraphPaths.InsertByLengthPermutes | src/graph/paths.py:22 | insertion adds exactly the new path |
| GraphPaths.InsertByLengthSorted | src/graph/paths.py:22 | insertion keeps the list ordered by length |
| GraphPaths.SortByLengthSortsAndPermutes | src/graph/paths.py:22 | `sorted(paths, key=len)` is a permutation ordered by length |
| GraphPaths.SortByLengthIsStable | src/graph/paths.py:22 | paths of equal length keep the order the search found them in |
| GraphPaths.BranchesSound | src/graph/paths.py:21 | every path found below a prefix is a simple path that extends it and ends at the target |
| GraphPaths.BranchesComplete | src/graph/paths.py:21 | every simple extension of the prefix to the target within the cutoff is found |
| GraphPaths.AllSimplePathsSound | src/graph/paths.py:15-24 | every result is a simple path from source to target with at most `max_length` edges |
| GraphPaths.AllSimplePathsComplete | src/graph/paths.py:15-24 | every such path between distinct present endpoints is in the result |
| GraphPaths.AllSimplePathsOrdered | src/graph/paths.py:15-24 | the result is sorted by length, stably |
| GraphPaths.FirstEdge | src/graph/paths.py:42-45 | the first parallel edge from `a` to `b`, or none exactly when no edge joins them |
| GraphPaths.FirstEdgeIsEarliest | src/graph/paths.py:45 | the first parallel edge is the earliest one |
| GraphPaths.StepsUpTo | src/graph/paths.py:31-49 | one step per position, in order |
| GraphPaths.GetPathDetails | src/graph/paths.py:27-51 | the loop appends the step of each node, or raises `KeyError` at a missing node |
| GraphPaths.PathDetailsSteps | src/graph/paths.py:31-49 | one step per node with its domain and role ("unknown" when missing); a non-final step reports the first parallel edge's relation and version when an edge exists, and the final step none |
| GraphPaths.PathDetailsMissingNode | src/graph/paths.py:32 | a node missing from the graph makes the query raise `KeyError` |
| GraphPaths.InsertStrSorted | src/graph/paths.py:72 | insertion keeps a strictly sorted list and adds exactly the new string |
| GraphPaths.SortedSet | src/graph/paths.py:72 | `sorted(common)` is strictly sorted and lists exactly the set |
| GraphPaths.SortedListingUnique | src/graph/paths.py:72 | a strictly sorted listing of a set is unique |
| GraphPaths.NeighbourSets | src/graph/paths.py:59-63 | at most one set per given name |
| GraphPaths.FindCommon | src/graph/paths.py:54-93 | both queries return the sorted common set |
| GraphPaths.NeighbourSetsOfPresent | src/graph/paths.py:60-63 | the sets listed are exactly the successor (predecessor) sets of the names present |
| GraphPaths.IntersectionMember | src/graph/paths.py:68-70 | the `&=` loop keeps exactly what is in every set |
| GraphPaths.CommonMember | src/graph/paths.py:54-93 | a node is in the result exactly when some given name is present and it is a successor (predecessor) of every present name |
| GraphPaths.CommonOfOne | src/graph/paths.py:65-72 | with one present name the result is that name's own successor (predecessor) set |
| FacetFilters.ApplyFilters | src/ui/components/facet_filters.py:100-113 | the loop keeps exactly the passing packages, in order |
| FacetFilters.SelectedIsOrderedSelection | src/ui/components/facet_filters.py:100-113 | the result is an order-preserving subsequence; a package is in it exactly when it is in the input and passes |
| FacetFilters.EmptyFacetIgnored | src/ui/components/facet_filters.py:104-109 | an empty domain, role or health list imposes no constraint on that facet |
| FacetFilters.NoSelectionKeepsAll | src/ui/components/facet_filters.py:100-113 | with no facet selected and every in-degree at the minimum or above, every package stays |
| FacetFilters.SelectedIdempotent | src/ui/components/facet_filters.py:100-113 | filtering twice changes nothing the second time |
| BuildScript.NewPackage | scripts/build_graph.py:39-45 | a repository's package is named after it and carries its full name, description, stars and last-commit date; every other field keeps its dataclass default ("utilities", "library", "unknown", no latest version, zero degrees and centralities) |
| BuildScript.PlaceholderPackage | scripts/build_graph.py:52-53 | a target's package is a default package classified, with "unknown" health |
| BuildScript.Values | scripts/build_graph.py:60 | `list(packages.values())` lists the values in key order |
| BuildScript.ByName | scripts/build_graph.py:68 | `{p.name: p for p in pkg_list}` is a well-formed dictionary |
| BuildScript.MapWithMetrics | scripts/build_graph.py:64 | every package gets its metrics written back |
| BuildScript.BuildAll | scripts/build_graph.py:22-69 | the two assembly loops, then graph, metrics and inference; nothing without repositories |
| BuildScript.CollectRepos | scripts/build_graph.py:31-47 | the repository loop extracts, refines and collects, creating the package of a new name |
| BuildScript.CreatePackage | scripts/build_graph.py:39-46 | a new name's package is the repository's package, classified and then assessed at the given time, or the exception assessing raises |
| BuildScript.AddDependencyTargets | scripts/build_graph.py:50-54 | the target loop makes a package of each new target |
| BuildScript.Analyse | scripts/build_graph.py:60-69 | graph, metrics and inference as the script runs them |
| BuildScript.AddReposStopsAtRaise | scripts/build_graph.py:31-47 | once a repository raises, the loop raises the same exception |
| BuildScript.AddReposValid | scripts/build_graph.py:31-47 | the loop's dictionary is well formed with exactly the repositories' package names |
| BuildScript.FirstRepoWins | scripts/build_graph.py:36-47 | the first repository of a name creates its package; later ones change nothing |
| BuildScript.AllDepsConcatenated | scripts/build_graph.py:31-34 | `all_deps` is the concatenation, in repository order, of each extracted-then-refined list |
| BuildScript.TargetsArePackages | scripts/build_graph.py:49-54 | every dependency target becomes a package; existing packages are kept; a new one is a target's placeholder |
| BuildScript.AddTargetsValid | scripts/build_graph.py:49-54 | the target loop keeps the dictionary well formed |
| BuildScript.AssembledValid | scripts/build_graph.py:28-54 | both loops leave a well-formed dictionary |
| BuildScript.CreatedNames | scripts/build_graph.py:39-53 | created packages are named after their repository or target |
| BuildScript.StoredUnderOwnName | scripts/build_graph.py:38-47 | each stored package is stored under its own name |
| BuildScript.ByNameOfDistinct | scripts/build_graph.py:68 | rebuilding distinct names keeps one entry per package, in order |
| BuildScript.ByNameOfKeys | scripts/build_graph.py:60-68 | rebuilding by name a list that follows a dictionary's keys gives back those keys |
| BuildScript.MetricsDictionary | scripts/build_graph.py:60-68 | after metric write-back the rebuilt dictionary has the same keys, each package updated |

## Left out

- The foreign parsers `tomli.loads` and `ast.parse` are inputs: the decoded TOML tree or the syntax tree, with `None` for a decode or syntax error.
- Package updates in place (`classify_package`, `assess_health`, the inference passes, `update_package_metrics`) are modelled as returning the updated value, which every caller rebinds. `SetupVisitor` is the one class.
- `str.lower()` is ASCII-only; there is no Unicode case mapping. Whitespace (`str.isspace`, `\s`) is Python's full Unicode set.
- SetupParser.Eval: `_extract_value` returns Python `None` both for "unknown" and for a literal `None`; the model uses one `PNone` for both, as the source cannot tell them apart.
- Exceptions the source does not catch (`TypeError`/`AttributeError` on ill-typed TOML or `setup.py` values, `KeyError` in path details) escape as a `Raised` outcome.
- networkx numerics: PageRank (and its convergence failure), betweenness (with its sampling), density and connected components are inputs. The batch script takes centrality as a function of the graph.
- `datetime.now(timezone.utc)` is a parameter `now`; the age is computed from it.
- Database loading and saving, and all printing, in the batch script.
- `G.subgraph(...)` copies node sets whose iteration order networkx leaves to the set; the model keeps the original node order.
- Edge keys of the multigraph are edge positions; removal by `(u, v, key)` is removal of those positions.
- A `None` filter list is modelled as an empty list: both impose no constraint.
- GraphPaths.ShortestPath: networkx's bidirectional search may pick a different path of the same minimal length; the model fixes one and proves only that it joins the endpoints and is shortest.
- GraphPaths.AllSimplePaths: the model lists the paths in edge order of the children; with `source == target` it returns `[]`, as networkx up to 3.2 does (later releases changed this case, which the path explorer never asks for).
- GraphMetrics.StarsOf: a star count that is not an integer reads as 0.
- BuildScript.TargetsArePackages: that every dependency source is also a package is not proved; only targets are.
- GraphMetrics.Insert: its own contract states only the length; order and content are proved in InsertPermutes, InsertSorted and InsertWithScore.
- GraphMetrics.SortByScore: its own contract states only the length; SortSortsAndPermutes and SortIsStable prove the rest.
- GraphPaths.Search: its own contract states only that the count found is no smaller than the start; reachability and minimality are proved in SearchFound and SearchGivesUp.
- Models.BuildPackage: raises `TypeError` when a value has the wrong type for its field (a number as `name`, text as `in_degree`), where the dataclass constructor checks no types and stores the value; the model's `Package` holds only well-typed fields.
- PackageFromFields: inherits that restriction from Models.BuildPackage.
- Models.DependencyFromDict: the same restriction for `source`, `target`, `version_constraint`, `source_file` and `is_transitive`.
- FromIsoFormat: follows the documented `fromisoformat` grammar of Python 3.7 to 3.10, `YYYY-MM-DD[*HH[:MM[:SS[.fff[fff]]]][+HH:MM]]`. Offsets with seconds, and the forms Python 3.11 added (`Z`, the basic format, week dates, other fraction lengths), read as a `ValueError`. Two corners that no `isoformat()` output reaches also differ from CPython's C parser: a lone separator after the date (`2024-01-02T`) reads here as midnight where CPython raises `ValueError`, and an offset with minutes of 60 or more (`+00:60`) is rejected here where CPython accepts it.
- GraphMetrics.Score: Python floats are modelled as exact reals here, in the averages of `get_graph_stats` and in the stored centralities; rounding, which can reorder near-ties in `find_hidden_pillars`, is not modelled.
- SetupParser.Const: `bool`, `float` and `bytes` constants are not modelled and a script holding one is given with `OtherExpr` there, so `extras_require={True: [...]}` contributes nothing where Python files the extra under `setup.py[True]`.
- PyprojectParser.PoetryVersion: a non-string `version` in a Poetry table spec gives no version, where the source stores that value as the version constraint; the model's `Dependency` holds only string versions.
- GraphBuilder.Induced: the induced subgraph keeps the original edges in global insertion order; networkx lists a subgraph's edges by adjacency (node by node), so the order of edges, and of parallel-edge keys, can differ.
- `render_filters` and the rest of the Streamlit and PyVis presentation code are not part of this model.
