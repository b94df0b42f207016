/**
 * Reading dependencies out of a `setup.py` without running it: a visitor walks the syntax
 * tree of the script, tracks simple variable assignments with a tiny evaluator, and reads the
 * dependency keywords of every `setup(...)` call. The syntax tree comes from a foreign parser;
 * it is given here as a value, or as `None` when the script does not parse.
 */
module SetupParser {
  import opened Wrappers
  import opened PyStrings
  import opened Models
  import opened Seqs
  import opened RequirementsParser

  // ---------------------------------------------------------------------------------------
  // Python values and syntax trees
  // ---------------------------------------------------------------------------------------

  /**
   * The Python values the evaluator produces. `PNone` is Python's `None`, which the evaluator
   * also returns for anything it cannot work out: the two cannot be told apart.
   */
  datatype PyVal =
    | PStr(s: string)
    | PInt(i: int)
    | PNone
    | PList(items: seq<PyVal>)
    | PTuple(items: seq<PyVal>)
    | PDict(entries: seq<(PyVal, PyVal)>)

  /** A literal constant of the script. */
  datatype Const = CStr(s: string) | CInt(i: int) | CNone {
    function Value(): PyVal {
      match this
      case CStr(s) => PStr(s)
      case CInt(i) => PInt(i)
      case CNone => PNone
    }

    /** `str(c)`, as an f-string prints it. */
    function Text(): string {
      match this
      case CStr(s) => s
      case CInt(i) => IntToStr(i)
      case CNone => "None"
    }
  }

  datatype BinaryOp = Add | OtherOp

  /** An expression node; `OtherExpr` stands for every kind the evaluator does not handle. */
  datatype Node =
    | Constant(value: Const)
    | ListExpr(elts: seq<Node>)
    | TupleExpr(elts: seq<Node>)
    | DictExpr(keys: seq<Node>, values: seq<Node>)
    | DictComp(parts: seq<Node>)
    | Subscript(container: Node, slice: Node)
    | Call(func: Node, args: seq<Node>, keywords: seq<Keyword>)
    | Name(id: string)
    | Attribute(base: Node, attr: string)
    | BinOp(left: Node, op: BinaryOp, right: Node)
    | OtherExpr(children: seq<Node>)

  /** A keyword argument `arg=value`; `arg` is `None` for `**kwargs`. */
  datatype Keyword = Keyword(arg: Option<string>, value: Node)

  /** A statement: an assignment, an expression statement, or any other statement with its parts. */
  datatype Stmt =
    | Assign(targets: seq<Node>, value: Node)
    | ExprStmt(expr: Node)
    | OtherStmt(exprs: seq<Node>, body: seq<Stmt>)

  /** The visitor's variable table. */
  type Env = map<string, PyVal>

  // ---------------------------------------------------------------------------------------
  // Python operations on values
  // ---------------------------------------------------------------------------------------

  predicate Truthy(v: PyVal) {
    match v
    case PStr(s) => s != []
    case PInt(i) => i != 0
    case PNone => false
    case PList(items) => items != []
    case PTuple(items) => items != []
    case PDict(entries) => entries != []
  }

  /** Only strings, integers, `None` and tuples of such values can be dictionary keys. */
  predicate Hashable(v: PyVal) {
    match v
    case PTuple(items) => forall i :: 0 <= i < |items| ==> Hashable(items[i])
    case PList(_) => false
    case PDict(_) => false
    case _ => true
  }

  /** `self.variables.get(name)`. */
  function GetVar(env: Env, name: string): PyVal {
    if name in env then env[name] else PNone
  }

  /** The value stored under `key` in a dictionary's entries. */
  function DictGet(entries: seq<(PyVal, PyVal)>, key: PyVal): (r: Option<PyVal>)
    ensures r.Some? <==> exists i :: 0 <= i < |entries| && entries[i].0 == key
    ensures r.Some? ==> exists i :: 0 <= i < |entries| && entries[i] == (key, r.value)
  {
    if entries == [] then None
    else if entries[0].0 == key then Some(entries[0].1)
    else DictGet(entries[1..], key)
  }

  /** `d[key] = value`: an existing key keeps its place, a new key goes to the end. */
  function DictPut(entries: seq<(PyVal, PyVal)>, key: PyVal, value: PyVal): (r: seq<(PyVal, PyVal)>)
    ensures DictGet(r, key) == Some(value)
    ensures forall k :: k != key ==> DictGet(r, k) == DictGet(entries, k)
  {
    if entries == [] then [(key, value)]
    else if entries[0].0 == key then [(key, value)] + entries[1..]
    else [entries[0]] + DictPut(entries[1..], key, value)
  }

  /** `zip(a, b)`: pairs up to the shorter length. */
  function Zip<A, B>(a: seq<A>, b: seq<B>): (r: seq<(A, B)>)
    ensures |r| == if |a| < |b| then |a| else |b|
    ensures forall i :: 0 <= i < |r| ==> r[i] == (a[i], b[i])
  {
    seq(if |a| < |b| then |a| else |b|, i requires 0 <= i < |a| && i < |b| => (a[i], b[i]))
  }

  /** `dict(pairs)`: a later duplicate key overwrites the value; an unhashable key raises `TypeError`. */
  function BuildDict(pairs: seq<(PyVal, PyVal)>): (r: Outcome<seq<(PyVal, PyVal)>>)
    ensures r.Raised? <==> exists i :: 0 <= i < |pairs| && !Hashable(pairs[i].0)
  {
    if pairs == [] then Returned([])
    else
      var d :- BuildDict(pairs[..|pairs| - 1]);
      var (k, v) := pairs[|pairs| - 1];
      if Hashable(k) then Returned(DictPut(d, k, v)) else Raised(TypeError)
  }

  /** What `list(v)` and `tuple(v)` iterate over; a number or `None` is not iterable. */
  function Iterate(v: PyVal): (r: Outcome<seq<PyVal>>)
    ensures r.Raised? <==> v.PInt? || v.PNone?
  {
    match v
    case PList(items) => Returned(items)
    case PTuple(items) => Returned(items)
    case PStr(s) => Returned(seq(|s|, i requires 0 <= i < |s| => PStr([s[i]])))
    case PDict(entries) => Returned(seq(|entries|, i requires 0 <= i < |entries| => entries[i].0))
    case _ => Raised(TypeError)
  }

  /**
   * `container[key]` inside the evaluator's `try`: `None` when Python would raise (a missing
   * or unhashable key, an index out of range or not an integer, a container that cannot be
   * indexed).
   */
  function Index(container: PyVal, key: PyVal): Option<PyVal> {
    match container
    case PDict(entries) => if Hashable(key) then DictGet(entries, key) else None
    case PList(items) => SeqIndex(items, key)
    case PTuple(items) => SeqIndex(items, key)
    case PStr(s) =>
      (match SeqIndex(seq(|s|, i requires 0 <= i < |s| => PStr([s[i]])), key)
       case Some(c) => Some(c)
       case None => None)
    case _ => None
  }

  /** Indexing a sequence by an integer, counting from the end for a negative one. */
  function SeqIndex(items: seq<PyVal>, key: PyVal): (r: Option<PyVal>)
    ensures r.Some? <==> key.PInt? && -|items| <= key.i < |items|
  {
    if key.PInt? && 0 <= key.i < |items| then Some(items[key.i])
    else if key.PInt? && -|items| <= key.i < 0 then Some(items[|items| + key.i])
    else None
  }

  /** `key in container` for a string key; a number cannot be searched. */
  function Contains(container: PyVal, key: string): Outcome<bool> {
    match container
    case PDict(entries) => Returned(DictGet(entries, PStr(key)).Some?)
    case PList(items) => Returned(PStr(key) in items)
    case PTuple(items) => Returned(PStr(key) in items)
    case PStr(s) => Returned(PyStrings.Contains(s, key))
    case _ => Raised(TypeError)
  }

  /** `container[key]` outside any `try`, for a string key `in` the container. */
  function StrictIndex(container: PyVal, key: string): Outcome<PyVal> {
    match container
    case PDict(entries) =>
      (match DictGet(entries, PStr(key))
       case Some(v) => Returned(v)
       case None => Raised(KeyError))
    case _ => Raised(TypeError)
  }

  /** `_get_func_name`: `f` for `f(...)`, `m.f` for `m.f(...)`, and `""` otherwise. */
  function FuncName(func: Node): string {
    match func
    case Name(id) => id
    case Attribute(Name(id), attr) => id + "." + attr
    case _ => ""
  }

  // ---------------------------------------------------------------------------------------
  // _build_deps_lookup
  // ---------------------------------------------------------------------------------------

  /** The characters of `^([a-zA-Z0-9_.-]+)`: the name class of the requirement pattern plus `.`. */
  predicate IsSpecNameChar(c: char) {
    IsNameChar(c) || c == '.'
  }

  /** The longest prefix of `s` made of such characters. */
  function SpecNamePrefix(s: string): (r: string)
    ensures |r| <= |s| && r == s[..|r|] && (forall i :: 0 <= i < |r| ==> IsSpecNameChar(r[i]))
    ensures |r| < |s| ==> !IsSpecNameChar(s[|r|])
  {
    if s != [] && IsSpecNameChar(s[0]) then [s[0]] + SpecNamePrefix(s[1..]) else []
  }

  /** The key under which a `_deps` entry is filed, if it has a leading name. */
  function LookupKey(spec: PyVal): (r: Option<string>)
    ensures r.Some? ==> r.value != [] && Normalized(r.value)
  {
    if spec.PStr? && SpecNamePrefix(Strip(spec.s)) != [] then
      NormalizeNameIsNormalized(SpecNamePrefix(Strip(spec.s)));
      Some(NormalizeName(SpecNamePrefix(Strip(spec.s))))
    else None
  }

  /** `lookup[keyOf(spec)] = spec` for each entry of `raw` that has a key, first to last. */
  function FileBy(keyOf: PyVal -> Option<string>, raw: seq<PyVal>): seq<(PyVal, PyVal)> {
    if raw == [] then []
    else
      var entries := FileBy(keyOf, raw[..|raw| - 1]);
      var spec := raw[|raw| - 1];
      match keyOf(spec)
      case Some(key) => DictPut(entries, PStr(key), spec)
      case None => entries
  }

  /** The lookup table built from the entries of `_deps`. */
  function LookupEntries(raw: seq<PyVal>): seq<(PyVal, PyVal)> {
    FileBy(LookupKey, raw)
  }

  /** `_build_deps_lookup`: `None` unless `_deps` holds a list. */
  function DepsLookup(env: Env): PyVal {
    match GetVar(env, "_deps")
    case PList(raw) => PDict(LookupEntries(raw))
    case _ => PNone
  }

  /** `self.variables.get("deps") or self._build_deps_lookup()`. */
  function DepsTable(env: Env): PyVal {
    var known := GetVar(env, "deps");
    if Truthy(known) then known else DepsLookup(env)
  }

  // ---------------------------------------------------------------------------------------
  // _extract_value
  // ---------------------------------------------------------------------------------------

  /**
   * `_extract_value(node)`: the value of `node` and the variable table afterwards (the
   * evaluator records a rebuilt `deps` table when a subscript of an unknown `deps` needs it),
   * or the exception it lets escape.
   */
  function Eval(node: Node, env: Env): Outcome<(PyVal, Env)>
    decreases node
  {
    match node
    case Constant(c) => Returned((c.Value(), env))
    case ListExpr(elts) =>
      var r :- EvalAll(elts, env);
      Returned((PList(r.0), r.1))
    case TupleExpr(elts) =>
      var r :- EvalAll(elts, env);
      Returned((PTuple(r.0), r.1))
    case DictExpr(keys, values) =>
      var rk :- EvalAll(keys, env);
      var rv :- EvalAll(values, rk.1);
      if PNone in rk.0 || PNone in rv.0 then Returned((PNone, rv.1))
      else
        var entries :- BuildDict(Zip(rk.0, rv.0));
        Returned((PDict(entries), rv.1))
    case DictComp(_) => Returned((DepsLookup(env), env))
    case Subscript(value, slice) =>
      var rc :- Eval(value, env);
      var resolve := rc.0 == PNone && value == Name("deps");
      var container := if resolve then DepsTable(rc.1) else rc.0;
      var env1 := if resolve && container != PNone then rc.1["deps" := container] else rc.1;
      if container == PNone then Returned((PNone, env1))
      else
        var ri :- (match slice
                   case Constant(c) => Returned((c.Value(), env1))
                   case Name(id) => Returned((GetVar(env1, id), env1))
                   case _ => Eval(slice, env1));
        var key := if resolve && ri.0.PStr? then PStr(NormalizeName(ri.0.s)) else ri.0;
        Returned((Index(container, key).GetOr(PNone), ri.1))
    case Call(func, args, _) =>
      var name := FuncName(func);
      if (name == "list" || name == "tuple") && args != [] then
        var ra :- Eval(args[0], env);
        if ra.0 == PNone then Returned((PNone, ra.1))
        else
          var items :- Iterate(ra.0);
          Returned((if name == "list" then PList(items) else PTuple(items), ra.1))
      else if name == "deps_list" then
        var r :- EvalDepsArgs(args, DepsTable(env), env);
        Returned((PList(r.0), r.1))
      else Returned((PNone, env))
    case Name(id) => Returned((GetVar(env, id), env))
    case BinOp(left, op, right) =>
      if op == Add then
        var rl :- Eval(left, env);
        var rr :- Eval(right, rl.1);
        Returned((if rl.0.PList? && rr.0.PList? then PList(rl.0.items + rr.0.items) else PNone, rr.1))
      else Returned((PNone, env))
    case Attribute(_, _) => Returned((PNone, env))
    case OtherExpr(_) => Returned((PNone, env))
  }

  /** The values of `nodes`, left to right. */
  function EvalAll(nodes: seq<Node>, env: Env): Outcome<(seq<PyVal>, Env)>
    decreases nodes
  {
    if nodes == [] then Returned(([], env))
    else
      var r :- Eval(nodes[0], env);
      var rest :- EvalAll(nodes[1..], r.1);
      Returned(([r.0] + rest.0, rest.1))
  }

  /**
   * The items `deps_list(*args)` collects: a list or tuple argument is spliced in, a string
   * argument is replaced by its `lookup` entry when its normalised name is in a non-empty
   * `lookup`, and anything else is dropped.
   */
  function EvalDepsArgs(args: seq<Node>, lookup: PyVal, env: Env): Outcome<(seq<PyVal>, Env)>
    decreases args
  {
    if args == [] then Returned(([], env))
    else
      var r :- Eval(args[0], env);
      var here :- DepsListItem(r.0, lookup);
      var rest :- EvalDepsArgs(args[1..], lookup, r.1);
      Returned((here + rest.0, rest.1))
  }

  /** What one evaluated argument of `deps_list` contributes. */
  function DepsListItem(val: PyVal, lookup: PyVal): Outcome<seq<PyVal>> {
    match val
    case PList(items) => Returned(items)
    case PTuple(items) => Returned(items)
    case PStr(s) =>
      var key := NormalizeName(s);
      var found :- if Truthy(lookup) then Contains(lookup, key) else Returned(false);
      if found then
        var entry :- StrictIndex(lookup, key);
        Returned([entry])
      else Returned([val])
    case _ => Returned([])
  }

  // ---------------------------------------------------------------------------------------
  // The visitor, as functions of its state
  // ---------------------------------------------------------------------------------------

  /** What the visitor has collected and the variables it tracks. */
  datatype VisitorState = VisitorState(deps: seq<Dependency>, vars: Env)

  /** `_parse_dep_string` applied to one item of the list; a non-string is skipped. */
  function SpecifierOf(sourcePkg: string, relType: RelationType, sourceFile: string): PyVal -> Option<Dependency> {
    (item: PyVal) => if item.PStr? then ParseSpecifier(item.s, sourcePkg, relType, sourceFile) else None
  }

  /** The records `_add_deps` appends for the items of a list, in order. */
  function SpecifierDeps(items: seq<PyVal>, sourcePkg: string, relType: RelationType, sourceFile: string): seq<Dependency> {
    FilterMap(SpecifierOf(sourcePkg, relType, sourceFile), items)
  }

  /** The loop of `_add_deps`: the record of each string that parses, in order. */
  method ParseSpecifiers(items: seq<PyVal>, sourcePkg: string, relType: RelationType, sourceFile: string) returns (added: seq<Dependency>)
    ensures added == SpecifierDeps(items, sourcePkg, relType, sourceFile)
  {
    added := [];
    var i := 0;
    while i < |items|
      invariant 0 <= i <= |items|
      invariant added == SpecifierDeps(items[..i], sourcePkg, relType, sourceFile)
    {
      var dep := SpecifierOf(sourcePkg, relType, sourceFile)(items[i]);
      FilterMapPrefix(SpecifierOf(sourcePkg, relType, sourceFile), items, i);
      if dep.Some? {
        added := added + [dep.value];
      }
      i := i + 1;
    }
    assert items[..i] == items;
  }

  /** `_add_deps`: evaluate the keyword's value; only a list contributes records. */
  function AddDeps(node: Node, relType: RelationType, sourceFile: string, sourcePkg: string, st: VisitorState): Outcome<VisitorState> {
    var e :- Eval(node, st.vars);
    if e.0.PList? then Returned(VisitorState(st.deps + SpecifierDeps(e.0.items, sourcePkg, relType, sourceFile), e.1))
    else Returned(VisitorState(st.deps, e.1))
  }

  /** The extras that count as development dependencies. */
  predicate IsDevExtra(name: Const) {
    name.CStr? && name.s in {"dev", "test", "testing", "tests", "develop"}
  }

  function ExtraRelation(name: Const): RelationType {
    if IsDevExtra(name) then RequiresDev else RequiresOptional
  }

  function ExtraFile(name: Const): string {
    "setup.py[" + name.Text() + "]"
  }

  /** The `(key, value)` pairs of an `extras_require` dict display, first to last; only constant keys count. */
  function ExtrasPairs(pairs: seq<(Node, Node)>, sourcePkg: string, st: VisitorState): Outcome<VisitorState>
    decreases |pairs|
  {
    if pairs == [] then Returned(st)
    else
      var (key, value) := pairs[0];
      var st1 :- if key.Constant? then AddDeps(value, ExtraRelation(key.value), ExtraFile(key.value), sourcePkg, st) else Returned(st);
      ExtrasPairs(pairs[1..], sourcePkg, st1)
  }

  /** `_process_extras`: only a dict display is read. */
  function ProcessExtras(node: Node, sourcePkg: string, st: VisitorState): Outcome<VisitorState> {
    if node.DictExpr? then ExtrasPairs(Zip(node.keys, node.values), sourcePkg, st) else Returned(st)
  }

  /** One keyword of a `setup(...)` call. */
  function SetupKeyword(kw: Keyword, sourcePkg: string, st: VisitorState): Outcome<VisitorState> {
    if kw.arg == Some("install_requires") then AddDeps(kw.value, RequiresCore, "setup.py", sourcePkg, st)
    else if kw.arg == Some("setup_requires") then AddDeps(kw.value, RequiresDev, "setup.py", sourcePkg, st)
    else if kw.arg == Some("tests_require") then AddDeps(kw.value, RequiresDev, "setup.py", sourcePkg, st)
    else if kw.arg == Some("extras_require") then ProcessExtras(kw.value, sourcePkg, st)
    else Returned(st)
  }

  /** `_process_setup_call`: the keywords, first to last. */
  function SetupKeywords(kws: seq<Keyword>, sourcePkg: string, st: VisitorState): Outcome<VisitorState>
    decreases |kws|
  {
    if kws == [] then Returned(st)
    else
      var st1 :- SetupKeyword(kws[0], sourcePkg, st);
      SetupKeywords(kws[1..], sourcePkg, st1)
  }

  predicate IsSetupName(name: string) {
    name == "setup" || name == "setuptools.setup"
  }

  /** Visiting an expression: a call to `setup` is read first, then the children in field order. */
  function VisitNode(node: Node, sourcePkg: string, st: VisitorState): Outcome<VisitorState>
    decreases node
  {
    match node
    case Constant(_) => Returned(st)
    case ListExpr(elts) => VisitNodes(elts, sourcePkg, st)
    case TupleExpr(elts) => VisitNodes(elts, sourcePkg, st)
    case DictExpr(keys, values) =>
      var st1 :- VisitNodes(keys, sourcePkg, st);
      VisitNodes(values, sourcePkg, st1)
    case DictComp(parts) => VisitNodes(parts, sourcePkg, st)
    case Subscript(value, slice) =>
      var st1 :- VisitNode(value, sourcePkg, st);
      VisitNode(slice, sourcePkg, st1)
    case Call(func, args, kws) =>
      var st0 :- if IsSetupName(FuncName(func)) then SetupKeywords(kws, sourcePkg, st) else Returned(st);
      var st1 :- VisitNode(func, sourcePkg, st0);
      var st2 :- VisitNodes(args, sourcePkg, st1);
      VisitKeywords(kws, sourcePkg, st2)
    case Name(_) => Returned(st)
    case Attribute(base, _) => VisitNode(base, sourcePkg, st)
    case BinOp(left, _, right) =>
      var st1 :- VisitNode(left, sourcePkg, st);
      VisitNode(right, sourcePkg, st1)
    case OtherExpr(children) => VisitNodes(children, sourcePkg, st)
  }

  function VisitNodes(nodes: seq<Node>, sourcePkg: string, st: VisitorState): Outcome<VisitorState>
    decreases nodes
  {
    if nodes == [] then Returned(st)
    else
      var st1 :- VisitNode(nodes[0], sourcePkg, st);
      VisitNodes(nodes[1..], sourcePkg, st1)
  }

  function VisitKeywords(kws: seq<Keyword>, sourcePkg: string, st: VisitorState): Outcome<VisitorState>
    decreases kws
  {
    if kws == [] then Returned(st)
    else
      var kw := kws[0];
      assert kw in kws && kw.value < kw;
      var st1 :- VisitNode(kw.value, sourcePkg, st);
      VisitKeywords(kws[1..], sourcePkg, st1)
  }

  /** `visit_Assign`'s tracking of `name = value`. */
  function AssignVar(name: string, value: Node, st: VisitorState): Outcome<VisitorState> {
    var e :- Eval(value, st.vars);
    var v := if e.0 == PNone && name == "deps" then DepsLookup(e.1) else e.0;
    Returned(VisitorState(st.deps, if v != PNone then e.1[name := v] else e.1))
  }

  /** Visiting a statement: a single-name assignment is tracked first, then the parts are visited. */
  function VisitStmt(s: Stmt, sourcePkg: string, st: VisitorState): Outcome<VisitorState>
    decreases s
  {
    match s
    case Assign(targets, value) =>
      var st0 :- if |targets| == 1 && targets[0].Name? then AssignVar(targets[0].id, value, st) else Returned(st);
      var st1 :- VisitNodes(targets, sourcePkg, st0);
      VisitNode(value, sourcePkg, st1)
    case ExprStmt(e) => VisitNode(e, sourcePkg, st)
    case OtherStmt(exprs, body) =>
      var st1 :- VisitNodes(exprs, sourcePkg, st);
      VisitStmts(body, sourcePkg, st1)
  }

  function VisitStmts(body: seq<Stmt>, sourcePkg: string, st: VisitorState): Outcome<VisitorState>
    decreases body
  {
    if body == [] then Returned(st)
    else
      var st1 :- VisitStmt(body[0], sourcePkg, st);
      VisitStmts(body[1..], sourcePkg, st1)
  }

  /**
   * `parse_setup_py`: nothing for an empty script or one that does not parse (`tree` is
   * `None`), otherwise what a fresh visitor collects over the module body.
   */
  function SetupDeps(content: string, tree: Option<seq<Stmt>>, sourcePkg: string): Outcome<seq<Dependency>> {
    if content == [] || tree.None? then Returned([])
    else
      var st :- VisitStmts(tree.value, sourcePkg, VisitorState([], map[]));
      Returned(st.deps)
  }

  // ---------------------------------------------------------------------------------------
  // The visitor object
  // ---------------------------------------------------------------------------------------

  /** `SetupVisitor`: walks a syntax tree, appending to `dependencies` and updating `variables`. */
  class SetupVisitor {
    const sourcePkg: string
    var dependencies: seq<Dependency>
    var variables: Env

    constructor (sourcePkg: string)
      ensures this.sourcePkg == sourcePkg && dependencies == [] && variables == map[]
    {
      this.sourcePkg := sourcePkg;
      dependencies := [];
      variables := map[];
    }

    function State(): VisitorState
      reads this
    {
      VisitorState(dependencies, variables)
    }

    /** The state a call leaves behind, or the exception it raised. */
    function After(r: Outcome<()>): Outcome<VisitorState>
      reads this
    {
      if r.Raised? then Raised(r.error) else Returned(State())
    }

    /** `_build_deps_lookup`. */
    method BuildDepsLookup() returns (lookup: PyVal)
      ensures lookup == DepsLookup(variables)
    {
      var raw := GetVar(variables, "_deps");
      if !raw.PList? {
        return PNone;
      }
      var entries: seq<(PyVal, PyVal)> := [];
      var i := 0;
      while i < |raw.items|
        invariant 0 <= i <= |raw.items|
        invariant entries == LookupEntries(raw.items[..i])
      {
        assert raw.items[..i + 1][..i] == raw.items[..i];
        var key := LookupKey(raw.items[i]);
        if key.Some? {
          entries := DictPut(entries, PStr(key.value), raw.items[i]);
        }
        i := i + 1;
      }
      assert raw.items[..i] == raw.items;
      lookup := PDict(entries);
    }

    /** `_add_deps`: evaluate the value; the records of a list's strings are appended in order. */
    method AddDepsOf(node: Node, relType: RelationType, sourceFile: string) returns (r: Outcome<()>)
      modifies this
      ensures After(r) == AddDeps(node, relType, sourceFile, sourcePkg, old(State()))
    {
      var e :- Eval(node, variables);
      variables := e.1;
      if e.0.PList? {
        var added := ParseSpecifiers(e.0.items, sourcePkg, relType, sourceFile);
        dependencies := dependencies + added;
      }
      r := Returned(());
    }

    /** `_process_extras`. */
    method ProcessExtrasOf(node: Node) returns (r: Outcome<()>)
      modifies this
      ensures After(r) == ProcessExtras(node, sourcePkg, old(State()))
    {
      if !node.DictExpr? {
        return Returned(());
      }
      var pairs := Zip(node.keys, node.values);
      var i := 0;
      while i < |pairs|
        invariant 0 <= i <= |pairs|
        invariant ProcessExtras(node, sourcePkg, old(State())) == ExtrasPairs(pairs[i..], sourcePkg, State())
      {
        var (key, value) := pairs[i];
        assert pairs[i..][1..] == pairs[i + 1..];
        if key.Constant? {
          var u :- AddDepsOf(value, ExtraRelation(key.value), ExtraFile(key.value));
        }
        i := i + 1;
      }
      r := Returned(());
    }

    /** `_process_setup_call`. */
    method ProcessSetupCall(kws: seq<Keyword>) returns (r: Outcome<()>)
      modifies this
      ensures After(r) == SetupKeywords(kws, sourcePkg, old(State()))
    {
      var i := 0;
      assert kws[0..] == kws;
      while i < |kws|
        invariant 0 <= i <= |kws|
        invariant SetupKeywords(kws, sourcePkg, old(State())) == SetupKeywords(kws[i..], sourcePkg, State())
      {
        var kw := kws[i];
        assert kws[i..][1..] == kws[i + 1..];
        if kw.arg == Some("install_requires") {
          var u :- AddDepsOf(kw.value, RequiresCore, "setup.py");
        } else if kw.arg == Some("setup_requires") {
          var u :- AddDepsOf(kw.value, RequiresDev, "setup.py");
        } else if kw.arg == Some("tests_require") {
          var u :- AddDepsOf(kw.value, RequiresDev, "setup.py");
        } else if kw.arg == Some("extras_require") {
          var u :- ProcessExtrasOf(kw.value);
        }
        i := i + 1;
      }
      r := Returned(());
    }

    /** The first step of `visit_Call`: only a call to `setup` is read. */
    method SetupCallOf(func: Node, kws: seq<Keyword>) returns (r: Outcome<()>)
      modifies this
      ensures After(r) == if IsSetupName(FuncName(func)) then SetupKeywords(kws, sourcePkg, old(State())) else Returned(old(State()))
    {
      if IsSetupName(FuncName(func)) {
        r := ProcessSetupCall(kws);
      } else {
        r := Returned(());
      }
    }

    /** `visit_Call`: a call to `setup` is read, then the call's parts are visited. */
    method VisitCall(func: Node, args: seq<Node>, kws: seq<Keyword>) returns (r: Outcome<()>)
      modifies this
      decreases Call(func, args, kws), 0
      ensures After(r) == VisitNode(Call(func, args, kws), sourcePkg, old(State()))
    {
      var u :- SetupCallOf(func, kws);
      var u1 :- Visit(func);
      var u2 :- VisitAll(args);
      r := VisitKeywordValues(kws);
    }

    /** `visit(node)` for an expression: the generic walk over its children in field order. */
    method Visit(node: Node) returns (r: Outcome<()>)
      modifies this
      decreases node, 1
      ensures After(r) == VisitNode(node, sourcePkg, old(State()))
    {
      match node
      case Constant(_) =>
        r := Returned(());
      case ListExpr(elts) =>
        r := VisitAll(elts);
      case TupleExpr(elts) =>
        r := VisitAll(elts);
      case DictExpr(keys, values) =>
        var u :- VisitAll(keys);
        r := VisitAll(values);
      case DictComp(parts) =>
        r := VisitAll(parts);
      case Subscript(value, slice) =>
        var u :- Visit(value);
        r := Visit(slice);
      case Call(func, args, kws) =>
        r := VisitCall(func, args, kws);
      case Name(_) =>
        r := Returned(());
      case Attribute(base, _) =>
        r := Visit(base);
      case BinOp(left, _, right) =>
        var u :- Visit(left);
        r := Visit(right);
      case OtherExpr(children) =>
        r := VisitAll(children);
    }

    /** Visiting a list of expressions, first to last. */
    method VisitAll(nodes: seq<Node>) returns (r: Outcome<()>)
      modifies this
      decreases nodes
      ensures After(r) == VisitNodes(nodes, sourcePkg, old(State()))
    {
      var i := 0;
      assert nodes[0..] == nodes;
      while i < |nodes|
        invariant 0 <= i <= |nodes|
        invariant VisitNodes(nodes, sourcePkg, old(State())) == VisitNodes(nodes[i..], sourcePkg, State())
      {
        assert nodes[i..][1..] == nodes[i + 1..];
        var u :- Visit(nodes[i]);
        i := i + 1;
      }
      r := Returned(());
    }

    /** Visiting the values of a call's keywords, first to last. */
    method VisitKeywordValues(kws: seq<Keyword>) returns (r: Outcome<()>)
      modifies this
      decreases kws
      ensures After(r) == VisitKeywords(kws, sourcePkg, old(State()))
    {
      var i := 0;
      assert kws[0..] == kws;
      while i < |kws|
        invariant 0 <= i <= |kws|
        invariant VisitKeywords(kws, sourcePkg, old(State())) == VisitKeywords(kws[i..], sourcePkg, State())
      {
        assert kws[i..][1..] == kws[i + 1..];
        var kw := kws[i];
        assert kw in kws && kw.value < kw;
        var u :- Visit(kw.value);
        i := i + 1;
      }
      r := Returned(());
    }

    /** `visit_Assign`: a single-name assignment is tracked, then the parts are visited. */
    method VisitAssign(targets: seq<Node>, value: Node) returns (r: Outcome<()>)
      modifies this
      ensures After(r) == VisitStmt(Assign(targets, value), sourcePkg, old(State()))
    {
      if |targets| == 1 && targets[0].Name? {
        var name := targets[0].id;
        var e :- Eval(value, variables);
        variables := e.1;
        var v := e.0;
        if v == PNone && name == "deps" {
          v := BuildDepsLookup();
        }
        if v != PNone {
          variables := variables[name := v];
        }
      }
      var u :- VisitAll(targets);
      r := Visit(value);
    }

    /** `visit(stmt)`. */
    method VisitStatement(s: Stmt) returns (r: Outcome<()>)
      modifies this
      decreases s
      ensures After(r) == VisitStmt(s, sourcePkg, old(State()))
    {
      match s
      case Assign(targets, value) =>
        r := VisitAssign(targets, value);
      case ExprStmt(e) =>
        r := Visit(e);
      case OtherStmt(exprs, body) =>
        var u :- VisitAll(exprs);
        r := VisitBody(body);
    }

    /** Visiting a block of statements, first to last. */
    method VisitBody(body: seq<Stmt>) returns (r: Outcome<()>)
      modifies this
      decreases body
      ensures After(r) == VisitStmts(body, sourcePkg, old(State()))
    {
      var i := 0;
      assert body[0..] == body;
      while i < |body|
        invariant 0 <= i <= |body|
        invariant VisitStmts(body, sourcePkg, old(State())) == VisitStmts(body[i..], sourcePkg, State())
      {
        assert body[i..][1..] == body[i + 1..];
        var u :- VisitStatement(body[i]);
        i := i + 1;
      }
      r := Returned(());
    }
  }

  /** `parse_setup_py`. */
  method ParseSetupPy(content: string, tree: Option<seq<Stmt>>, sourcePkg: string) returns (r: Outcome<seq<Dependency>>)
    ensures r == SetupDeps(content, tree, sourcePkg)
  {
    if content == [] || tree.None? {
      return Returned([]);
    }
    var visitor := new SetupVisitor(sourcePkg);
    var u :- visitor.VisitBody(tree.value);
    r := Returned(visitor.dependencies);
  }
}
