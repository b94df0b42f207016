/**
 * `requirements.txt` parsing: one dependency per requirement line, with the name normalised
 * as in the "Normalized Names" rule of PEP 503 and the rest of the line kept as the version
 * constraint.
 */
module RequirementsParser {
  import opened Wrappers
  import opened PyStrings
  import opened Seqs
  import opened Models

  // ---------------------------------------------------------------------------------------
  // Name normalisation
  // ---------------------------------------------------------------------------------------

  predicate IsSeparator(c: char) {
    c == '-' || c == '_' || c == '.'
  }

  /** `s` without its leading run of separator characters. */
  function DropSeparators(s: string): (r: string)
    ensures |r| <= |s| && (r == [] || !IsSeparator(r[0]))
    ensures s != [] && IsSeparator(s[0]) ==> |r| < |s|
  {
    if s != [] && IsSeparator(s[0]) then DropSeparators(s[1..]) else s
  }

  /** `re.sub(r'[-_.]+', '-', s)`: every maximal run of `-`, `_` and `.` becomes one `-`. */
  function CollapseSeparators(s: string): (r: string)
    ensures r == [] <==> s == []
    ensures r != [] ==> (r[0] == '-' <==> IsSeparator(s[0]))
    ensures forall i :: 0 <= i < |r| ==> r[i] != '_' && r[i] != '.'
    ensures forall i :: 0 <= i < |r| - 1 ==> !(r[i] == '-' && r[i + 1] == '-')
    decreases |s|
  {
    if s == [] then []
    else if IsSeparator(s[0]) then ['-'] + CollapseSeparators(DropSeparators(s))
    else [s[0]] + CollapseSeparators(s[1..])
  }

  /** `normalize_name`: collapse separator runs to `-`, then lower-case. */
  function NormalizeName(name: string): string {
    ToLower(CollapseSeparators(name))
  }

  /** The shape of a normalised name: lower-case, no `_` or `.`, no two `-` in a row. */
  predicate Normalized(s: string) {
    (forall i :: 0 <= i < |s| ==> s[i] != '_' && s[i] != '.' && !('A' <= s[i] <= 'Z'))
    && (forall i :: 0 <= i < |s| - 1 ==> !(s[i] == '-' && s[i + 1] == '-'))
  }

  lemma {:induction false} NormalizeNameIsNormalized(name: string)
    ensures Normalized(NormalizeName(name))
    ensures |NormalizeName(name)| <= |name| && (NormalizeName(name) == [] <==> name == [])
  {
    var c := CollapseSeparators(name);
    CollapseShrinks(name);
    forall i | 0 <= i < |c| - 1
      ensures !(LowerChar(c[i]) == '-' && LowerChar(c[i + 1]) == '-')
    {
    }
  }

  lemma {:induction false} CollapseShrinks(s: string)
    ensures |CollapseSeparators(s)| <= |s|
    decreases |s|
  {
    if s != [] {
      if IsSeparator(s[0]) {
        CollapseShrinks(DropSeparators(s));
      } else {
        CollapseShrinks(s[1..]);
      }
    }
  }

  /** A string with no `_`, `.` or `--` is left as it is by the separator collapse. */
  lemma {:induction false} CollapseIdentity(s: string)
    requires forall i :: 0 <= i < |s| ==> s[i] != '_' && s[i] != '.'
    requires forall i :: 0 <= i < |s| - 1 ==> !(s[i] == '-' && s[i + 1] == '-')
    ensures CollapseSeparators(s) == s
    decreases |s|
  {
    if s != [] {
      if IsSeparator(s[0]) {
        assert s[0] == '-';
        assert DropSeparators(s) == s[1..] by {
          assert s[1..] == [] || s[1] != '-';
        }
      }
      CollapseIdentity(s[1..]);
    }
  }

  /** Normalising a normalised name changes nothing. */
  lemma {:induction false} NormalizeNameIdempotent(name: string)
    ensures NormalizeName(NormalizeName(name)) == NormalizeName(name)
  {
    var n := NormalizeName(name);
    NormalizeNameIsNormalized(name);
    CollapseIdentity(n);
    assert ToLower(n) == n;
  }

  /**
   * Two spellings of a name: separators at the same places (any of `-`, `_`, `.`), and the
   * same letters elsewhere up to case.
   */
  predicate SameSpelling(s: string, t: string) {
    |s| == |t|
    && forall i :: 0 <= i < |s| ==>
      (IsSeparator(s[i]) <==> IsSeparator(t[i])) && (!IsSeparator(s[i]) ==> LowerChar(s[i]) == LowerChar(t[i]))
  }

  lemma {:induction false} DropSeparatorsSameSpelling(s: string, t: string)
    requires SameSpelling(s, t)
    ensures SameSpelling(DropSeparators(s), DropSeparators(t))
    decreases |s|
  {
    if s != [] && IsSeparator(s[0]) {
      DropSeparatorsSameSpelling(s[1..], t[1..]);
    }
  }

  lemma {:induction false} ToLowerCons(c: char, rest: string)
    ensures ToLower([c] + rest) == [LowerChar(c)] + ToLower(rest)
  {
  }

  /** Collapsing two spellings of a name gives strings equal up to case. */
  lemma {:induction false} CollapseSameSpelling(s: string, t: string)
    requires SameSpelling(s, t)
    ensures ToLower(CollapseSeparators(s)) == ToLower(CollapseSeparators(t))
    decreases |s|
  {
    if s != [] {
      if IsSeparator(s[0]) {
        DropSeparatorsSameSpelling(s, t);
        CollapseSameSpelling(DropSeparators(s), DropSeparators(t));
        ToLowerCons('-', CollapseSeparators(DropSeparators(s)));
        ToLowerCons('-', CollapseSeparators(DropSeparators(t)));
      } else {
        CollapseSameSpelling(s[1..], t[1..]);
        ToLowerCons(s[0], CollapseSeparators(s[1..]));
        ToLowerCons(t[0], CollapseSeparators(t[1..]));
      }
    }
  }

  /** Spellings that differ only in case and in which separator they use normalise alike. */
  lemma {:induction false} NormalizeNameSameSpelling(s: string, t: string)
    requires SameSpelling(s, t)
    ensures NormalizeName(s) == NormalizeName(t)
  {
    CollapseSameSpelling(s, t);
  }

  lemma {:induction false} ExampleSpellings()
    ensures SameSpelling("Foo_Bar.Baz", "foo-bar-baz")
  {
  }

  lemma {:induction false} ExampleCollapse()
    ensures CollapseSeparators("foo-bar-baz") == "foo-bar-baz"
  {
    CollapseIdentity("foo-bar-baz");
  }

  lemma {:induction false} ExampleLower()
    ensures ToLower("foo-bar-baz") == "foo-bar-baz"
  {
  }

  lemma {:induction false} ExampleIsNormalized()
    ensures NormalizeName("foo-bar-baz") == "foo-bar-baz"
  {
    ExampleCollapse();
    ExampleLower();
  }

  /** Different spellings of one project name normalise to the same name. */
  lemma {:induction false} NormalizeNameExample()
    ensures NormalizeName("Foo_Bar.Baz") == NormalizeName("foo-bar-baz") == "foo-bar-baz"
  {
    ExampleSpellings();
    NormalizeNameSameSpelling("Foo_Bar.Baz", "foo-bar-baz");
    ExampleIsNormalized();
  }

  // ---------------------------------------------------------------------------------------
  // The requirement pattern ^([a-zA-Z0-9_-]+)(?:\[.*\])?\s*(.*)?$ under re.match
  // ---------------------------------------------------------------------------------------

  predicate IsNameChar(c: char) {
    'a' <= c <= 'z' || 'A' <= c <= 'Z' || '0' <= c <= '9' || c == '_' || c == '-'
  }

  /** The longest prefix of `s` made of name characters. */
  function NamePrefix(s: string): (r: string)
    ensures StartsWith(s, r) && (forall i :: 0 <= i < |r| ==> IsNameChar(r[i]))
    ensures |r| < |s| ==> !IsNameChar(s[|r|])
  {
    if s != [] && IsNameChar(s[0]) then [s[0]] + NamePrefix(s[1..]) else []
  }

  /** The end of the run of whitespace in `s` that starts at `q`. */
  function SpaceRun(s: string, q: nat): (r: nat)
    requires q <= |s|
    ensures q <= r <= |s| && (forall i :: q <= i < r ==> IsSpace(s[i])) && (r < |s| ==> !IsSpace(s[r]))
    decreases |s| - q
  {
    if q < |s| && IsSpace(s[q]) then SpaceRun(s, q + 1) else q
  }

  /** The first position at or after `q` holding `\n`, or `|s|` when there is none. */
  function NextNewline(s: string, q: nat): (r: nat)
    requires q <= |s|
    ensures q <= r <= |s| && (forall i :: q <= i < r ==> s[i] != '\n') && (r < |s| ==> s[r] == '\n')
    decreases |s| - q
  {
    if q < |s| && s[q] != '\n' then NextNewline(s, q + 1) else q
  }

  /**
   * `(.*)?$` at position `q`: `.` does not match `\n`, and `$` matches at the end of the
   * string or just before a final `\n`. The group captures what `.*` took.
   */
  function TailAt(s: string, q: nat): Option<string>
    requires q <= |s|
  {
    var n := NextNewline(s, q);
    if n + 1 >= |s| then Some(s[q..n]) else None
  }

  /** No `\n` in `s[lo..hi]`. */
  predicate NoNewlineBetween(s: string, lo: nat, hi: nat)
    requires lo <= hi <= |s|
  {
    forall i :: lo <= i < hi ==> s[i] != '\n'
  }

  /** `\s*(.*)?$`, trying the whitespace run from its longest (`q`) down to `q0`. */
  function SpacesThenTail(s: string, q0: nat, q: nat): Option<string>
    requires q0 <= q <= |s|
    decreases q - q0
  {
    var attempt := TailAt(s, q);
    if attempt.Some? || q == q0 then attempt else SpacesThenTail(s, q0, q - 1)
  }

  /**
   * `\[.*\]\s*(.*)?$` where `s[j]` is `[`: `.*` cannot cross a `\n`, and the closing `]` is
   * tried at `e`, then `e - 1`, and so on down to `j + 1`.
   */
  function ExtrasThenTail(s: string, j: nat, e: int): Option<string>
    requires j < |s| && e < |s|
    decreases e
  {
    if e <= j then None
    else
      var attempt :=
        if s[e] == ']' && NoNewlineBetween(s, j + 1, e) then SpacesThenTail(s, e + 1, SpaceRun(s, e + 1)) else None;
      if attempt.Some? then attempt else ExtrasThenTail(s, j, e - 1)
  }

  /** The pattern after the name, from position `j`: optional extras, whitespace and group 2. */
  function AfterName(s: string, j: nat): Option<string>
    requires j <= |s|
  {
    var withExtras := if j < |s| && s[j] == '[' then ExtrasThenTail(s, j, |s| - 1) else None;
    if withExtras.Some? then withExtras else SpacesThenTail(s, j, SpaceRun(s, j))
  }

  /** Group 1 taken as `s[..j]`, backtracking to shorter names as the regex engine does. */
  function MatchWithName(s: string, j: nat): Option<(string, string)>
    requires j <= |s|
    decreases j
  {
    if j == 0 then None
    else
      match AfterName(s, j)
      case Some(v) => Some((s[..j], v))
      case None => MatchWithName(s, j - 1)
  }

  /** `re.match` of the requirement pattern: groups 1 and 2, or `None` when it does not match. */
  function RequirementMatch(s: string): Option<(string, string)> {
    MatchWithName(s, |NamePrefix(s)|)
  }

  lemma {:induction false} SpacesThenTailFails(s: string, q0: nat, q: nat)
    requires q0 <= q <= |s| && SpacesThenTail(s, q0, q).None?
    ensures TailAt(s, q0).None?
    decreases q - q0
  {
    if q > q0 {
      SpacesThenTailFails(s, q0, q - 1);
    }
  }

  lemma {:induction false} NextNewlineSkips(s: string, j: nat, k: nat)
    requires j <= k <= |s| && forall i :: j <= i < k ==> s[i] != '\n'
    ensures NextNewline(s, j) == NextNewline(s, k)
    decreases k - j
  {
    if j < k {
      NextNewlineSkips(s, j + 1, k);
    }
  }

  /** A shorter name leaves a name character next, so only `(.*)?$` right there can follow it. */
  lemma {:induction false} ShorterNameFails(s: string, j: nat)
    requires 0 < j < |NamePrefix(s)| && AfterName(s, |NamePrefix(s)|).None?
    ensures AfterName(s, j).None?
  {
    var k := |NamePrefix(s)|;
    assert s[j] == NamePrefix(s)[j];
    assert SpaceRun(s, j) == j;
    SpacesThenTailFails(s, k, SpaceRun(s, k));
    forall i | j <= i < k
      ensures s[i] != '\n'
    {
      assert s[i] == NamePrefix(s)[i];
    }
    NextNewlineSkips(s, j, k);
  }

  /** When the pattern fails after the longest name, it fails after every shorter one too. */
  lemma {:induction false} ShorterNamesFail(s: string, j: nat)
    requires j <= |NamePrefix(s)| && AfterName(s, |NamePrefix(s)|).None?
    ensures MatchWithName(s, j).None?
    decreases j
  {
    if j > 0 {
      if j < |NamePrefix(s)| {
        ShorterNameFails(s, j);
      }
      ShorterNamesFail(s, j - 1);
    }
  }

  /** Group 1 is always the longest run of name characters at the start of the line. */
  lemma {:induction false} NameGroupIsMaximal(s: string)
    ensures RequirementMatch(s).Some? ==> RequirementMatch(s).value.0 == NamePrefix(s)
  {
    var k := |NamePrefix(s)|;
    if AfterName(s, k).None? {
      ShorterNamesFail(s, k);
    }
  }

  /** The largest position in `j + 1 .. e` holding `]`, or `j` when there is none. */
  function LastClose(s: string, j: nat, e: int): (r: nat)
    requires j < |s| && e < |s|
    ensures j <= r && (r > j ==> r <= e && s[r] == ']')
    ensures forall i :: r < i <= e && i > j ==> s[i] != ']'
    decreases e
  {
    if e <= j then j else if s[e] == ']' then e else LastClose(s, j, e - 1)
  }

  /** Without `\n`, every attempt at `(.*)?$` succeeds and takes the rest of the line. */
  lemma {:induction false} TailAtNoNewline(s: string, q: nat)
    requires q <= |s| && '\n' !in s
    ensures TailAt(s, q) == Some(s[q..])
  {
    NoNewlineToEnd(s, q);
    assert s[q..|s|] == s[q..];
  }

  lemma {:induction false} NoNewlineToEnd(s: string, q: nat)
    requires q <= |s| && '\n' !in s
    ensures NextNewline(s, q) == |s|
    decreases |s| - q
  {
    if q < |s| {
      assert s[q] in s;
      NoNewlineToEnd(s, q + 1);
    }
  }

  lemma {:induction false} ExtrasNoNewline(s: string, j: nat, e: int)
    requires j < |s| && e < |s| && '\n' !in s
    ensures LastClose(s, j, e) > j ==> ExtrasThenTail(s, j, e) == Some(s[SpaceRun(s, LastClose(s, j, e) + 1)..])
    ensures LastClose(s, j, e) == j ==> ExtrasThenTail(s, j, e) == None
  {
    if LastClose(s, j, e) > j {
      ExtrasFound(s, j, e, LastClose(s, j, e));
    } else {
      ExtrasNone(s, j, e);
    }
  }

  lemma {:induction false} ExtrasFound(s: string, j: nat, e: int, c: nat)
    requires j < c <= e < |s| && '\n' !in s && s[c] == ']' && forall i :: c < i <= e ==> s[i] != ']'
    ensures ExtrasThenTail(s, j, e) == Some(s[SpaceRun(s, c + 1)..])
  {
    ExtrasSkipTo(s, j, e, c);
    ExtrasCloseAt(s, j, c);
  }

  lemma {:induction false} ExtrasNone(s: string, j: nat, e: int)
    requires j < |s| && e < |s| && LastClose(s, j, e) == j
    ensures ExtrasThenTail(s, j, e) == None
  {
    if e > j {
      ExtrasSkipTo(s, j, e, j);
    }
  }

  /** Positions without `]` are skipped until `c`. */
  lemma {:induction false} ExtrasSkipTo(s: string, j: nat, e: int, c: nat)
    requires j <= c <= e < |s| && forall i :: c < i <= e ==> s[i] != ']'
    ensures ExtrasThenTail(s, j, e) == ExtrasThenTail(s, j, c)
    decreases e
  {
    if e > c {
      ExtrasSkip(s, j, e);
      ExtrasSkipTo(s, j, e - 1, c);
    }
  }

  /** The last `]` closes the extras. */
  lemma {:induction false} ExtrasCloseAt(s: string, j: nat, e: int)
    requires j < e < |s| && '\n' !in s && s[e] == ']'
    ensures LastClose(s, j, e) == e
    ensures ExtrasThenTail(s, j, e) == Some(s[SpaceRun(s, e + 1)..])
  {
    assert NoNewlineBetween(s, j + 1, e) by {
      forall i | j + 1 <= i < e
        ensures s[i] != '\n'
      {
        assert s[i] in s;
      }
    }
    SpacesThenTailNoNewline(s, e + 1, SpaceRun(s, e + 1));
  }

  /** A character other than `]` is skipped. */
  lemma {:induction false} ExtrasSkip(s: string, j: nat, e: int)
    requires j < e < |s| && s[e] != ']'
    ensures ExtrasThenTail(s, j, e) == ExtrasThenTail(s, j, e - 1)
  {
  }

  /** `s[SpaceRun(s, p)..]` is `s[p..]` with its leading whitespace removed. */
  lemma {:induction false} SpaceRunStrips(s: string, p: nat)
    requires p <= |s|
    ensures s[SpaceRun(s, p)..] == LStrip(s[p..])
    decreases |s| - p
  {
    if p < |s| && IsSpace(s[p]) {
      assert s[p..][1..] == s[p + 1..];
      SpaceRunStrips(s, p + 1);
    }
  }

  /** Where the version text starts: after the last `]` when the rest opens with `[`, else right after the name. */
  function VersionStart(s: string, k: nat): (r: nat)
    requires k <= |s|
    ensures k <= r <= |s|
  {
    if k < |s| && s[k] == '[' && LastClose(s, k, |s| - 1) > k then LastClose(s, k, |s| - 1) + 1 else k
  }

  /**
   * On a line without `\n` the pattern matches exactly when the line starts with a name
   * character; group 2 is the text after the name and any `[...]` extras (up to the last `]`),
   * without its leading whitespace.
   */
  lemma {:induction false} RequirementMatchOnLine(s: string)
    requires '\n' !in s
    ensures var k := |NamePrefix(s)|;
      RequirementMatch(s) == if k == 0 then None else Some((NamePrefix(s), LStrip(s[VersionStart(s, k)..])))
  {
    var k := |NamePrefix(s)|;
    if k > 0 {
      AfterNameOnLine(s, k);
      assert s[..k] == NamePrefix(s);
    }
  }

  lemma {:induction false} SpacesThenTailNoNewline(s: string, q0: nat, q: nat)
    requires q0 <= q <= |s| && '\n' !in s
    ensures SpacesThenTail(s, q0, q) == Some(s[q..])
  {
    TailAtNoNewline(s, q);
  }

  lemma {:induction false} AfterNameOnLine(s: string, k: nat)
    requires '\n' !in s && k <= |s|
    ensures AfterName(s, k) == Some(LStrip(s[VersionStart(s, k)..]))
  {
    SpaceRunStrips(s, VersionStart(s, k));
    if VersionStart(s, k) == k {
      AfterNameNoExtras(s, k);
    } else {
      AfterNameWithExtras(s, k);
    }
  }

  lemma {:induction false} AfterNameWithExtras(s: string, k: nat)
    requires '\n' !in s && k <= |s| && VersionStart(s, k) != k
    ensures AfterName(s, k) == Some(s[SpaceRun(s, VersionStart(s, k))..])
  {
    ExtrasNoNewline(s, k, |s| - 1);
  }

  lemma {:induction false} AfterNameNoExtras(s: string, k: nat)
    requires '\n' !in s && k <= |s| && VersionStart(s, k) == k
    ensures AfterName(s, k) == Some(s[SpaceRun(s, k)..])
  {
    if k < |s| && s[k] == '[' {
      ExtrasNoNewline(s, k, |s| - 1);
    }
    SpacesThenTailNoNewline(s, k, SpaceRun(s, k));
  }

  // ---------------------------------------------------------------------------------------
  // Lines and files
  // ---------------------------------------------------------------------------------------

  /**
   * The shared reading of one PEP 508 style specifier, as `parse_requirement_line` and
   * `parse_dep_string` both do it: drop the environment marker, match the requirement pattern,
   * normalise the name, strip the version text; no record for an empty name or the package
   * itself.
   */
  function ParseSpecifier(line: string, sourcePkg: string, relType: RelationType, sourceFile: string): (r: Option<Dependency>)
    ensures r.Some? ==>
      && r.value.source == sourcePkg && r.value.sourceFile == sourceFile && !r.value.isTransitive
      && r.value.relationType == relType
      && r.value.target != [] && r.value.target != sourcePkg && Normalized(r.value.target)
  {
    var s := Strip(BeforeFirst(line, ';'));
    match RequirementMatch(s)
    case None => None
    case Some((name, group2)) =>
      var pkgName := NormalizeName(name);
      var versionSpec := if group2 != [] then Some(Strip(group2)) else None;
      NormalizeNameIsNormalized(name);
      if pkgName == [] || pkgName == sourcePkg then None
      else
        Some(Dependency(sourcePkg, pkgName, relType, versionSpec, sourceFile))
  }

  /** `parse_requirement_line`: a development dependency when `isDev`, a core one otherwise. */
  function ParseRequirementLine(line: string, sourcePkg: string, sourceFile: string, isDev: bool): (r: Option<Dependency>)
    ensures r.Some? ==>
      && r.value.source == sourcePkg && r.value.sourceFile == sourceFile && !r.value.isTransitive
      && r.value.relationType == (if isDev then RequiresDev else RequiresCore)
      && r.value.target != [] && r.value.target != sourcePkg && Normalized(r.value.target)
  {
    ParseSpecifier(line, sourcePkg, if isDev then RequiresDev else RequiresCore, sourceFile)
  }

  /** The file is a development requirements file: its lower-cased name contains `dev` or `test`. */
  predicate IsDevFile(sourceFile: string) {
    var lower := ToLower(sourceFile);
    Contains(lower, "dev") || Contains(lower, "test")
  }

  /** What one line of the file contributes: nothing for blank lines, comments and options. */
  function RequirementFromLine(line: string, sourcePkg: string, sourceFile: string, isDev: bool): Option<Dependency> {
    var stripped := Strip(line);
    if stripped == [] || StartsWith(stripped, "#") || StartsWith(stripped, "-") then None
    else ParseRequirementLine(stripped, sourcePkg, sourceFile, isDev)
  }

  /** The dependencies the lines of a file yield: one per productive line, in line order. */
  function RequirementsOfLines(lines: seq<string>, sourcePkg: string, sourceFile: string, isDev: bool): seq<Dependency> {
    if lines == [] then []
    else
      var rest := RequirementsOfLines(lines[..|lines| - 1], sourcePkg, sourceFile, isDev);
      match RequirementFromLine(lines[|lines| - 1], sourcePkg, sourceFile, isDev)
      case Some(dep) => rest + [dep]
      case None => rest
  }

  /** What `parse_requirements` returns for a file. */
  function Requirements(content: string, sourcePkg: string, sourceFile: string): seq<Dependency> {
    RequirementsOfLines(SplitLines(content), sourcePkg, sourceFile, IsDevFile(sourceFile))
  }

  /** `parse_requirements`. */
  method ParseRequirements(content: string, sourcePkg: string, sourceFile: string) returns (deps: seq<Dependency>)
    ensures deps == Requirements(content, sourcePkg, sourceFile)
  {
    deps := [];
    if content == [] {
      return;
    }
    var isDev := IsDevFile(sourceFile);
    var lines := SplitLines(content);
    var i := 0;
    while i < |lines|
      invariant 0 <= i <= |lines|
      invariant deps == RequirementsOfLines(lines[..i], sourcePkg, sourceFile, isDev)
    {
      var line := Strip(lines[i]);
      ghost var prefix := lines[..i + 1];
      assert prefix[..|prefix| - 1] == lines[..i] && prefix[|prefix| - 1] == lines[i];
      // blank lines, comments and options (`-r`, `-e`, ...) are skipped
      if !(line == [] || StartsWith(line, "#") || StartsWith(line, "-")) {
        var dep := ParseRequirementLine(line, sourcePkg, sourceFile, isDev);
        if dep.Some? {
          deps := deps + [dep.value];
        }
      }
      i := i + 1;
    }
    assert lines[..i] == lines;
  }

  // ---------------------------------------------------------------------------------------
  // Properties
  // ---------------------------------------------------------------------------------------

  lemma {:induction false} BeforeFirstAppend(a: string, b: string)
    requires ';' !in a
    ensures BeforeFirst(a + [';'] + b, ';') == a && BeforeFirst(a, ';') == a
  {
    if a != [] {
      assert (a + [';'] + b)[1..] == a[1..] + [';'] + b;
      BeforeFirstAppend(a[1..], b);
    }
  }

  /** An environment marker (from the first `;` on) does not affect the dependency read from a line. */
  lemma {:induction false} MarkerIgnored(a: string, marker: string, sourcePkg: string, relType: RelationType, sourceFile: string)
    requires ';' !in a
    ensures ParseSpecifier(a + [';'] + marker, sourcePkg, relType, sourceFile)
         == ParseSpecifier(a, sourcePkg, relType, sourceFile)
  {
    BeforeFirstAppend(a, marker);
  }

  lemma {:induction false} NoNewlineAfterMarkerRemoval(line: string)
    requires '\n' !in line
    ensures '\n' !in Strip(BeforeFirst(line, ';'))
  {
    var b := BeforeFirst(line, ';');
    assert b == line[..|b|];
    var l := LStrip(b);
    assert '\n' !in l;
    assert RStrip(l) == l[..|RStrip(l)|];
  }

  /**
   * On a line without `\n`: a dependency is read exactly when the marker-free, stripped line
   * starts with a name that does not normalise to the package itself; its target is that
   * normalised name, and its version constraint is the stripped text after the name and any
   * `[...]` extras, or `None` when that text is blank.
   */
  lemma {:induction false} SpecifierOnLine(line: string, sourcePkg: string, relType: RelationType, sourceFile: string)
    requires '\n' !in line
    ensures
      var s := Strip(BeforeFirst(line, ';'));
      var name := NamePrefix(s);
      var r := ParseSpecifier(line, sourcePkg, relType, sourceFile);
      && (r.Some? <==> name != [] && NormalizeName(name) != sourcePkg)
      && (r.Some? ==>
            && r.value.target == NormalizeName(name)
            && var rest := s[VersionStart(s, |name|)..];
               r.value.versionConstraint == if LStrip(rest) == [] then None else Some(Strip(rest)))
  {
    var s := Strip(BeforeFirst(line, ';'));
    NoNewlineAfterMarkerRemoval(line);
    RequirementMatchOnLine(s);
    var name := NamePrefix(s);
    if name != [] {
      var rest := s[VersionStart(s, |name|)..];
      SpecifierOfMatch(line, sourcePkg, relType, sourceFile, name, LStrip(rest));
      NormalizeNameIsNormalized(name);
      StripAfterLStrip(rest);
    }
  }

  /** What `parse_specifier` makes of a line whose pattern matched with groups `name` and `group2`. */
  lemma {:induction false} SpecifierOfMatch(line: string, sourcePkg: string, relType: RelationType, sourceFile: string, name: string, group2: string)
    requires RequirementMatch(Strip(BeforeFirst(line, ';'))) == Some((name, group2))
    ensures ParseSpecifier(line, sourcePkg, relType, sourceFile)
         == if NormalizeName(name) == [] || NormalizeName(name) == sourcePkg then None
            else Some(Dependency(sourcePkg, NormalizeName(name), relType, if group2 != [] then Some(Strip(group2)) else None, sourceFile))
  {
  }

  /** A run of name characters followed by a non-name character is the whole name prefix. */
  lemma {:induction false} NamePrefixOf(a: string, b: string)
    requires forall i :: 0 <= i < |a| ==> IsNameChar(a[i])
    requires b == [] || !IsNameChar(b[0])
    ensures NamePrefix(a + b) == a
  {
    if a != [] {
      assert (a + b)[1..] == a[1..] + b;
      NamePrefixOf(a[1..], b);
    } else {
      assert a + b == b;
    }
  }

  lemma {:induction false} StripNameLine(a: string)
    requires a != [] && !IsSpace(a[0]) && !IsSpace(a[|a| - 1]) && ';' !in a
    ensures Strip(BeforeFirst(a + [' '], ';')) == a
  {
    BeforeFirstAppend(a + [' '], []);
    LStripNoLeadingSpace(a + [' ']);
    RStripSpaceEnd(a, ' ');
    RStripNoTrailingSpace(a);
  }

  lemma {:induction false} VersionAfterName(name: string, version: string)
    requires name != [] && forall i :: 0 <= i < |name| ==> IsNameChar(name[i])
    requires version != [] && !IsNameChar(version[0]) && version[0] != '['
    requires !IsSpace(version[0]) && !IsSpace(version[|version| - 1])
    ensures var s := name + version;
      NamePrefix(s) == name && s[VersionStart(s, |name|)..] == version
      && LStrip(version) == version && Strip(version) == version
  {
    NamePrefixOf(name, version);
    assert (name + version)[|name|] == version[0];
    assert (name + version)[|name|..] == version;
    LStripNoLeadingSpace(version);
    RStripNoTrailingSpace(version);
  }

  lemma {:induction false} FlaskNormalized()
    ensures NormalizeName("Flask") == "flask"
  {
    assert SameSpelling("Flask", "flask");
    NormalizeNameSameSpelling("Flask", "flask");
    CollapseIdentity("flask");
    assert ToLower("flask") == "flask";
  }

  lemma {:induction false} NameVersionPlain(name: string, version: string)
    requires name != [] && forall i :: 0 <= i < |name| ==> IsNameChar(name[i])
    requires version != [] && ';' !in version && '\n' !in version && !IsSpace(version[|version| - 1])
    ensures var t := name + version;
      && ';' !in t && ';' !in t + [' '] && '\n' !in t + [' ']
      && !IsSpace(t[0]) && !IsSpace(t[|t| - 1])
  {
    var t := name + version;
    assert forall i :: 0 <= i < |name| ==> name[i] != ';' && name[i] != '\n';
    assert ';' !in t && '\n' !in t;
    assert t[0] == name[0] && t[|t| - 1] == version[|version| - 1];
  }

  /**
   * A line made of a name, a version constraint and an environment marker yields the
   * normalised name with exactly that constraint.
   */
  lemma {:induction false} NameVersionMarkerLine(name: string, version: string, marker: string, sourcePkg: string, relType: RelationType, sourceFile: string)
    requires name != [] && forall i :: 0 <= i < |name| ==> IsNameChar(name[i])
    requires version != [] && !IsNameChar(version[0]) && version[0] != '['
    requires !IsSpace(version[0]) && !IsSpace(version[|version| - 1]) && ';' !in version && '\n' !in version
    requires NormalizeName(name) != sourcePkg
    ensures ParseSpecifier(name + version + " ;" + marker, sourcePkg, relType, sourceFile)
         == Some(Dependency(sourcePkg, NormalizeName(name), relType, Some(version), sourceFile))
  {
    var text := name + version;
    assert text + " ;" + marker == text + [' '] + [';'] + marker;
    NameVersionPlain(name, version);
    MarkerIgnored(text + [' '], marker, sourcePkg, relType, sourceFile);
    StripNameLine(text);
    VersionAfterName(name, version);
    SpecifierOnLine(text + [' '], sourcePkg, relType, sourceFile);
  }

  lemma {:induction false} FlaskLineShape(line: string)
    requires line == "Flask==2.0 ; python_version<'3.8'"
    ensures line == "Flask" + "==2.0" + " ;" + " python_version<'3.8'"
  {
  }

  lemma {:induction false} FlaskParts()
    ensures forall i :: 0 <= i < |"Flask"| ==> IsNameChar("Flask"[i])
    ensures ';' !in "==2.0" && '\n' !in "==2.0"
  {
  }

  /** The environment marker is dropped before the name and version are read. */
  lemma {:induction false} MarkerExample(line: string)
    requires line == "Flask==2.0 ; python_version<'3.8'"
    ensures ParseRequirementLine(line, "myapp", "requirements.txt", false)
         == Some(Dependency("myapp", "flask", RequiresCore, Some("==2.0"), "requirements.txt"))
  {
    FlaskLineShape(line);
    FlaskNormalized();
    FlaskParts();
    NameVersionMarkerLine("Flask", "==2.0", " python_version<'3.8'", "myapp", RequiresCore, "requirements.txt");
  }

  /** Blank lines, comments and option lines contribute nothing. */
  lemma {:induction false} SkippedLines(line: string, sourcePkg: string, sourceFile: string, isDev: bool)
    requires var l := Strip(line); l == [] || StartsWith(l, "#") || StartsWith(l, "-")
    ensures RequirementFromLine(line, sourcePkg, sourceFile, isDev) == None
  {
  }

  /**
   * The `-r <file>` include test comes after the `-` option test, so it can never fire: an
   * include line is already skipped as an option and yields no record.
   */
  lemma {:induction false} IncludeBranchUnreachable(line: string, sourcePkg: string, sourceFile: string, isDev: bool)
    requires StartsWith(Strip(line), "-r ")
    ensures StartsWith(Strip(line), "-")
    ensures RequirementFromLine(line, sourcePkg, sourceFile, isDev) == None
    ensures RequirementsOfLines([line], sourcePkg, sourceFile, isDev) == []
  {
    assert StartsWith(Strip(line), "-");
    SkippedLines(line, sourcePkg, sourceFile, isDev);
    assert [line][..0] == [];
  }

  /** The lines are processed in order: the result for `a + b` is the result for `a`, then for `b`. */
  lemma {:induction false} RequirementsOfLinesAppend(a: seq<string>, b: seq<string>, sourcePkg: string, sourceFile: string, isDev: bool)
    ensures RequirementsOfLines(a + b, sourcePkg, sourceFile, isDev)
         == RequirementsOfLines(a, sourcePkg, sourceFile, isDev) + RequirementsOfLines(b, sourcePkg, sourceFile, isDev)
    decreases |b|
  {
    if b == [] {
      assert a + b == a;
    } else {
      assert (a + b)[..|a + b| - 1] == a + b[..|b| - 1];
      RequirementsOfLinesAppend(a, b[..|b| - 1], sourcePkg, sourceFile, isDev);
    }
  }

  lemma {:induction false} LineYieldsMember(lines: seq<string>, i: nat, sourcePkg: string, sourceFile: string, isDev: bool, dep: Dependency)
    requires i < |lines| && RequirementFromLine(lines[i], sourcePkg, sourceFile, isDev) == Some(dep)
    ensures dep in RequirementsOfLines(lines, sourcePkg, sourceFile, isDev)
  {
    if i < |lines| - 1 {
      LineYieldsMember(lines[..|lines| - 1], i, sourcePkg, sourceFile, isDev, dep);
    }
  }

  lemma {:induction false} MemberFromLine(lines: seq<string>, sourcePkg: string, sourceFile: string, isDev: bool, dep: Dependency)
    requires dep in RequirementsOfLines(lines, sourcePkg, sourceFile, isDev)
    ensures exists i :: 0 <= i < |lines| && RequirementFromLine(lines[i], sourcePkg, sourceFile, isDev) == Some(dep)
  {
    var init := lines[..|lines| - 1];
    if dep in RequirementsOfLines(init, sourcePkg, sourceFile, isDev) {
      MemberFromLine(init, sourcePkg, sourceFile, isDev, dep);
      var i :| 0 <= i < |init| && RequirementFromLine(init[i], sourcePkg, sourceFile, isDev) == Some(dep);
      assert lines[i] == init[i];
    } else {
      assert RequirementFromLine(lines[|lines| - 1], sourcePkg, sourceFile, isDev) == Some(dep);
    }
  }

  /** A record is in the result exactly when some line yields it. */
  lemma {:induction false} RequirementsOfLinesMember(lines: seq<string>, sourcePkg: string, sourceFile: string, isDev: bool, dep: Dependency)
    ensures dep in RequirementsOfLines(lines, sourcePkg, sourceFile, isDev)
        <==> exists i :: 0 <= i < |lines| && RequirementFromLine(lines[i], sourcePkg, sourceFile, isDev) == Some(dep)
  {
    if dep in RequirementsOfLines(lines, sourcePkg, sourceFile, isDev) {
      MemberFromLine(lines, sourcePkg, sourceFile, isDev, dep);
    }
    if exists i :: 0 <= i < |lines| && RequirementFromLine(lines[i], sourcePkg, sourceFile, isDev) == Some(dep) {
      var i :| 0 <= i < |lines| && RequirementFromLine(lines[i], sourcePkg, sourceFile, isDev) == Some(dep);
      LineYieldsMember(lines, i, sourcePkg, sourceFile, isDev, dep);
    }
  }

  /**
   * Every record of a file comes from `sourcePkg`, names `sourceFile`, is a development
   * dependency exactly when the file name says `dev` or `test`, and never targets the
   * package itself.
   */
  lemma {:induction false} RequirementsRecords(lines: seq<string>, sourcePkg: string, sourceFile: string)
    ensures forall dep :: dep in RequirementsOfLines(lines, sourcePkg, sourceFile, IsDevFile(sourceFile)) ==>
      && dep.source == sourcePkg && dep.sourceFile == sourceFile
      && dep.relationType == (if IsDevFile(sourceFile) then RequiresDev else RequiresCore)
      && dep.target != sourcePkg && dep.target != [] && Normalized(dep.target)
  {
    if lines != [] {
      RequirementsRecords(lines[..|lines| - 1], sourcePkg, sourceFile);
    }
  }
}
