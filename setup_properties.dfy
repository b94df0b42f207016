/** What the `setup.py` reader guarantees: its evaluator's only side effect, where records come from, and the `deps` helpers. */
module SetupProperties {
  import opened Wrappers
  import opened PyStrings
  import opened Models
  import opened Seqs
  import opened RequirementsParser
  import opened SetupParser

  // ---------------------------------------------------------------------------------------
  // The evaluator's only side effect: recording a rebuilt `deps` table
  // ---------------------------------------------------------------------------------------

  /** The visitor never stores `None` (it stores a value only when it is not `None`). */
  predicate NoneFree(env: Env) {
    forall k :: k in env ==> env[k] != PNone
  }

  /** `after` keeps every variable of `before` and can only add `deps`, never a `None`. */
  predicate OnlyDepsAdded(before: Env, after: Env) {
    && (forall k :: k in before ==> k in after && after[k] == before[k])
    && (forall k :: k in after && k !in before ==> k == "deps")
    && NoneFree(after)
  }

  lemma {:induction false} OnlyDepsAddedTransitive(a: Env, b: Env, c: Env)
    requires OnlyDepsAdded(a, b) && OnlyDepsAdded(b, c)
    ensures OnlyDepsAdded(a, c)
  {
  }

  /**
   * Evaluating an expression changes no variable the visitor tracks: at most it records the
   * `deps` table rebuilt from `_deps`, and only when `deps` was unknown.
   */
  lemma {:induction false} EvalOnlyAddsDeps(node: Node, env: Env)
    requires NoneFree(env)
    ensures Eval(node, env).Returned? ==> OnlyDepsAdded(env, Eval(node, env).value.1)
    decreases node, 1
  {
    match node
    case Constant(_) =>
    case ListExpr(elts) =>
      EvalAllOnlyAddsDeps(elts, env);
    case TupleExpr(elts) =>
      EvalAllOnlyAddsDeps(elts, env);
    case DictExpr(keys, values) =>
      EvalAllOnlyAddsDeps(keys, env);
      var rk := EvalAll(keys, env);
      if rk.Returned? {
        EvalAllOnlyAddsDeps(values, rk.value.1);
        var rv := EvalAll(values, rk.value.1);
        if rv.Returned? {
          OnlyDepsAddedTransitive(env, rk.value.1, rv.value.1);
        }
      }
    case DictComp(_) =>
    case Subscript(value, slice) =>
      SubscriptOnlyAddsDeps(value, slice, env);
    case Call(func, args, _) =>
      var name := FuncName(func);
      if (name == "list" || name == "tuple") && args != [] {
        EvalOnlyAddsDeps(args[0], env);
      } else if name == "deps_list" {
        EvalDepsArgsOnlyAddsDeps(args, DepsTable(env), env);
      }
    case Name(_) =>
    case BinOp(left, op, right) =>
      BinOpOnlyAddsDeps(left, op, right, env);
    case Attribute(_, _) =>
    case OtherExpr(_) =>
  }

  lemma {:induction false} SubscriptOnlyAddsDeps(value: Node, slice: Node, env: Env)
    requires NoneFree(env)
    ensures Eval(Subscript(value, slice), env).Returned? ==> OnlyDepsAdded(env, Eval(Subscript(value, slice), env).value.1)
    decreases Subscript(value, slice), 0
  {
    EvalOnlyAddsDeps(value, env);
    var rc := Eval(value, env);
    if rc.Returned? {
      var resolve := rc.value.0 == PNone && value == Name("deps");
      var container := if resolve then DepsTable(rc.value.1) else rc.value.0;
      var env1 := if resolve && container != PNone then rc.value.1["deps" := container] else rc.value.1;
      assert OnlyDepsAdded(env, env1) by {
        if resolve && container != PNone {
          assert rc.value.1 == env && "deps" !in env;
        }
      }
      if container != PNone && !slice.Constant? && !slice.Name? {
        EvalOnlyAddsDeps(slice, env1);
        if Eval(slice, env1).Returned? {
          OnlyDepsAddedTransitive(env, env1, Eval(slice, env1).value.1);
        }
      }
    }
  }

  lemma {:induction false} BinOpOnlyAddsDeps(left: Node, op: BinaryOp, right: Node, env: Env)
    requires NoneFree(env)
    ensures Eval(BinOp(left, op, right), env).Returned? ==> OnlyDepsAdded(env, Eval(BinOp(left, op, right), env).value.1)
    decreases BinOp(left, op, right), 0
  {
    if op == Add {
      EvalOnlyAddsDeps(left, env);
      var rl := Eval(left, env);
      if rl.Returned? {
        EvalOnlyAddsDeps(right, rl.value.1);
        if Eval(right, rl.value.1).Returned? {
          OnlyDepsAddedTransitive(env, rl.value.1, Eval(right, rl.value.1).value.1);
        }
      }
    }
  }

  lemma {:induction false} EvalAllOnlyAddsDeps(nodes: seq<Node>, env: Env)
    requires NoneFree(env)
    ensures EvalAll(nodes, env).Returned? ==> OnlyDepsAdded(env, EvalAll(nodes, env).value.1)
    decreases nodes
  {
    if nodes != [] {
      EvalOnlyAddsDeps(nodes[0], env);
      var r := Eval(nodes[0], env);
      if r.Returned? {
        EvalAllOnlyAddsDeps(nodes[1..], r.value.1);
        var rest := EvalAll(nodes[1..], r.value.1);
        if rest.Returned? {
          OnlyDepsAddedTransitive(env, r.value.1, rest.value.1);
        }
      }
    }
  }

  lemma {:induction false} EvalDepsArgsOnlyAddsDeps(args: seq<Node>, lookup: PyVal, env: Env)
    requires NoneFree(env)
    ensures EvalDepsArgs(args, lookup, env).Returned? ==> OnlyDepsAdded(env, EvalDepsArgs(args, lookup, env).value.1)
    decreases args
  {
    if args != [] {
      EvalOnlyAddsDeps(args[0], env);
      var r := Eval(args[0], env);
      if r.Returned? && DepsListItem(r.value.0, lookup).Returned? {
        EvalDepsArgsOnlyAddsDeps(args[1..], lookup, r.value.1);
        var rest := EvalDepsArgs(args[1..], lookup, r.value.1);
        if rest.Returned? {
          OnlyDepsAddedTransitive(env, r.value.1, rest.value.1);
        }
      }
    }
  }

  // ---------------------------------------------------------------------------------------
  // Where records come from
  // ---------------------------------------------------------------------------------------

  /** A record of `_add_deps` is exactly the parse of one string item of the list. */
  lemma {:induction false} SpecifierDepsMember(items: seq<PyVal>, sourcePkg: string, relType: RelationType, sourceFile: string, d: Dependency)
    ensures d in SpecifierDeps(items, sourcePkg, relType, sourceFile)
        <==> exists i :: 0 <= i < |items| && items[i].PStr? && ParseSpecifier(items[i].s, sourcePkg, relType, sourceFile) == Some(d)
  {
    FilterMapMember(SpecifierOf(sourcePkg, relType, sourceFile), items, d);
  }

  /** The relation and file a record of `setup.py` can carry. */
  ghost predicate SetupSource(relType: RelationType, sourceFile: string) {
    || (sourceFile == "setup.py" && (relType == RequiresCore || relType == RequiresDev))
    || (exists c :: sourceFile == ExtraFile(c) && relType == ExtraRelation(c))
  }

  /** What every record read from `setup.py` satisfies. */
  ghost predicate SetupRecord(d: Dependency, sourcePkg: string) {
    && d.source == sourcePkg && !d.isTransitive
    && d.target != [] && d.target != sourcePkg && Normalized(d.target)
    && SetupSource(d.relationType, d.sourceFile)
  }

  /** `after` extends `before` by setup records only. */
  ghost predicate GrowsBySetupRecords(before: seq<Dependency>, after: seq<Dependency>, sourcePkg: string) {
    before <= after && forall i :: |before| <= i < |after| ==> SetupRecord(after[i], sourcePkg)
  }

  lemma {:induction false} GrowsTransitive(a: seq<Dependency>, b: seq<Dependency>, c: seq<Dependency>, sourcePkg: string)
    requires GrowsBySetupRecords(a, b, sourcePkg) && GrowsBySetupRecords(b, c, sourcePkg)
    ensures GrowsBySetupRecords(a, c, sourcePkg)
  {
    assert forall i :: |a| <= i < |b| ==> c[i] == b[i];
  }

  lemma {:induction false} AddDepsGrows(node: Node, relType: RelationType, sourceFile: string, sourcePkg: string, st: VisitorState)
    requires SetupSource(relType, sourceFile)
    ensures AddDeps(node, relType, sourceFile, sourcePkg, st).Returned? ==>
      GrowsBySetupRecords(st.deps, AddDeps(node, relType, sourceFile, sourcePkg, st).value.deps, sourcePkg)
  {
    var e := Eval(node, st.vars);
    if e.Returned? && e.value.0.PList? {
      var added := SpecifierDeps(e.value.0.items, sourcePkg, relType, sourceFile);
      forall i | 0 <= i < |added|
        ensures SetupRecord(added[i], sourcePkg)
      {
        SpecifierDepsMember(e.value.0.items, sourcePkg, relType, sourceFile, added[i]);
      }
      var after := st.deps + added;
      assert forall i :: |st.deps| <= i < |after| ==> after[i] == added[i - |st.deps|];
    }
  }

  lemma {:induction false} ExtrasPairsGrows(pairs: seq<(Node, Node)>, sourcePkg: string, st: VisitorState)
    ensures ExtrasPairs(pairs, sourcePkg, st).Returned? ==>
      GrowsBySetupRecords(st.deps, ExtrasPairs(pairs, sourcePkg, st).value.deps, sourcePkg)
    decreases |pairs|
  {
    if pairs != [] {
      var (key, value) := pairs[0];
      var st1 := if key.Constant? then AddDeps(value, ExtraRelation(key.value), ExtraFile(key.value), sourcePkg, st) else Returned(st);
      if key.Constant? {
        AddDepsGrows(value, ExtraRelation(key.value), ExtraFile(key.value), sourcePkg, st);
      }
      if st1.Returned? {
        ExtrasPairsGrows(pairs[1..], sourcePkg, st1.value);
        if ExtrasPairs(pairs[1..], sourcePkg, st1.value).Returned? {
          GrowsTransitive(st.deps, st1.value.deps, ExtrasPairs(pairs[1..], sourcePkg, st1.value).value.deps, sourcePkg);
        }
      }
    }
  }

  /** Reading the keywords of a `setup(...)` call only appends setup records. */
  lemma {:induction false} SetupKeywordsGrow(kws: seq<Keyword>, sourcePkg: string, st: VisitorState)
    ensures SetupKeywords(kws, sourcePkg, st).Returned? ==>
      GrowsBySetupRecords(st.deps, SetupKeywords(kws, sourcePkg, st).value.deps, sourcePkg)
    decreases |kws|
  {
    if kws != [] {
      var kw := kws[0];
      if kw.arg == Some("install_requires") || kw.arg == Some("setup_requires") || kw.arg == Some("tests_require") {
        var rel := if kw.arg == Some("install_requires") then RequiresCore else RequiresDev;
        AddDepsGrows(kw.value, rel, "setup.py", sourcePkg, st);
      } else if kw.arg == Some("extras_require") && kw.value.DictExpr? {
        ExtrasPairsGrows(Zip(kw.value.keys, kw.value.values), sourcePkg, st);
      }
      var st1 := SetupKeyword(kw, sourcePkg, st);
      if st1.Returned? {
        SetupKeywordsGrow(kws[1..], sourcePkg, st1.value);
        if SetupKeywords(kws[1..], sourcePkg, st1.value).Returned? {
          GrowsTransitive(st.deps, st1.value.deps, SetupKeywords(kws[1..], sourcePkg, st1.value).value.deps, sourcePkg);
        }
      }
    }
  }

  // ---------------------------------------------------------------------------------------
  // Only `setup(...)` calls are read
  // ---------------------------------------------------------------------------------------

  /** No call to `setup` or `setuptools.setup` occurs in the expression. */
  predicate NoSetupNode(node: Node)
    decreases node
  {
    match node
    case Constant(_) => true
    case ListExpr(elts) => NoSetupNodes(elts)
    case TupleExpr(elts) => NoSetupNodes(elts)
    case DictExpr(keys, values) => NoSetupNodes(keys) && NoSetupNodes(values)
    case DictComp(parts) => NoSetupNodes(parts)
    case Subscript(value, slice) => NoSetupNode(value) && NoSetupNode(slice)
    case Call(func, args, kws) =>
      !IsSetupName(FuncName(func)) && NoSetupNode(func) && NoSetupNodes(args) && NoSetupKeywords(kws)
    case Name(_) => true
    case Attribute(base, _) => NoSetupNode(base)
    case BinOp(left, _, right) => NoSetupNode(left) && NoSetupNode(right)
    case OtherExpr(children) => NoSetupNodes(children)
  }

  predicate NoSetupNodes(nodes: seq<Node>)
    decreases nodes
  {
    nodes != [] ==> NoSetupNode(nodes[0]) && NoSetupNodes(nodes[1..])
  }

  predicate NoSetupKeywords(kws: seq<Keyword>)
    decreases kws
  {
    kws != [] ==> (var kw := kws[0]; assert kw in kws && kw.value < kw; NoSetupNode(kw.value) && NoSetupKeywords(kws[1..]))
  }

  predicate NoSetupStmt(s: Stmt)
    decreases s
  {
    match s
    case Assign(targets, value) => NoSetupNodes(targets) && NoSetupNode(value)
    case ExprStmt(e) => NoSetupNode(e)
    case OtherStmt(exprs, body) => NoSetupNodes(exprs) && NoSetupStmts(body)
  }

  predicate NoSetupStmts(body: seq<Stmt>)
    decreases body
  {
    body != [] ==> NoSetupStmt(body[0]) && NoSetupStmts(body[1..])
  }

  /**
   * What visiting an expression does: it appends setup records only, and without a setup call
   * inside it it changes nothing at all.
   */
  ghost predicate VisitGrows(before: VisitorState, r: Outcome<VisitorState>, noSetup: bool, sourcePkg: string) {
    && (noSetup ==> r == Returned(before))
    && (r.Returned? ==> GrowsBySetupRecords(before.deps, r.value.deps, sourcePkg))
  }

  lemma {:induction false} VisitGrowsTransitive(a: VisitorState, b: VisitorState, r: Outcome<VisitorState>, noSetup1: bool, noSetup2: bool, sourcePkg: string)
    requires VisitGrows(a, Returned(b), noSetup1, sourcePkg) && VisitGrows(b, r, noSetup2, sourcePkg)
    ensures VisitGrows(a, r, noSetup1 && noSetup2, sourcePkg)
  {
    if r.Returned? {
      GrowsTransitive(a.deps, b.deps, r.value.deps, sourcePkg);
    }
  }

  /** What visiting a statement does: it appends setup records only, none without a setup call. */
  ghost predicate StmtGrows(before: VisitorState, r: Outcome<VisitorState>, noSetup: bool, sourcePkg: string) {
    r.Returned? ==> GrowsBySetupRecords(before.deps, r.value.deps, sourcePkg) && (noSetup ==> r.value.deps == before.deps)
  }

  lemma {:induction false} StmtGrowsTransitive(a: VisitorState, b: VisitorState, r: Outcome<VisitorState>, noSetup1: bool, noSetup2: bool, sourcePkg: string)
    requires StmtGrows(a, Returned(b), noSetup1, sourcePkg) && StmtGrows(b, r, noSetup2, sourcePkg)
    ensures StmtGrows(a, r, noSetup1 && noSetup2, sourcePkg)
  {
    if r.Returned? {
      GrowsTransitive(a.deps, b.deps, r.value.deps, sourcePkg);
    }
  }

  lemma {:induction false} VisitCallGrows(func: Node, args: seq<Node>, kws: seq<Keyword>, sourcePkg: string, st: VisitorState)
    ensures VisitGrows(st, VisitNode(Call(func, args, kws), sourcePkg, st), NoSetupNode(Call(func, args, kws)), sourcePkg)
    decreases Call(func, args, kws), 0
  {
    var isSetup := IsSetupName(FuncName(func));
    var st0 := if isSetup then SetupKeywords(kws, sourcePkg, st) else Returned(st);
    if isSetup {
      SetupKeywordsGrow(kws, sourcePkg, st);
    }
    if st0.Returned? {
      VisitNodeGrows(func, sourcePkg, st0.value);
      var st1 := VisitNode(func, sourcePkg, st0.value);
      VisitGrowsTransitive(st, st0.value, st1, !isSetup, NoSetupNode(func), sourcePkg);
      if st1.Returned? {
        VisitNodesGrow(args, sourcePkg, st1.value);
        var st2 := VisitNodes(args, sourcePkg, st1.value);
        VisitGrowsTransitive(st, st1.value, st2, !isSetup && NoSetupNode(func), NoSetupNodes(args), sourcePkg);
        if st2.Returned? {
          VisitKeywordsGrow(kws, sourcePkg, st2.value);
          VisitGrowsTransitive(st, st2.value, VisitKeywords(kws, sourcePkg, st2.value),
            !isSetup && NoSetupNode(func) && NoSetupNodes(args), NoSetupKeywords(kws), sourcePkg);
        }
      }
    }
  }

  lemma {:induction false} VisitNodeGrows(node: Node, sourcePkg: string, st: VisitorState)
    ensures VisitGrows(st, VisitNode(node, sourcePkg, st), NoSetupNode(node), sourcePkg)
    decreases node, 1
  {
    match node
    case Constant(_) =>
    case ListExpr(elts) =>
      VisitNodesGrow(elts, sourcePkg, st);
    case TupleExpr(elts) =>
      VisitNodesGrow(elts, sourcePkg, st);
    case DictExpr(keys, values) =>
      VisitNodesGrow(keys, sourcePkg, st);
      var st1 := VisitNodes(keys, sourcePkg, st);
      if st1.Returned? {
        VisitNodesGrow(values, sourcePkg, st1.value);
        VisitGrowsTransitive(st, st1.value, VisitNodes(values, sourcePkg, st1.value), NoSetupNodes(keys), NoSetupNodes(values), sourcePkg);
      }
    case DictComp(parts) =>
      VisitNodesGrow(parts, sourcePkg, st);
    case Subscript(value, slice) =>
      VisitNodeGrows(value, sourcePkg, st);
      var st1 := VisitNode(value, sourcePkg, st);
      if st1.Returned? {
        VisitNodeGrows(slice, sourcePkg, st1.value);
        VisitGrowsTransitive(st, st1.value, VisitNode(slice, sourcePkg, st1.value), NoSetupNode(value), NoSetupNode(slice), sourcePkg);
      }
    case Call(func, args, kws) =>
      VisitCallGrows(func, args, kws, sourcePkg, st);
    case Name(_) =>
    case Attribute(base, _) =>
      VisitNodeGrows(base, sourcePkg, st);
    case BinOp(left, _, right) =>
      VisitNodeGrows(left, sourcePkg, st);
      var st1 := VisitNode(left, sourcePkg, st);
      if st1.Returned? {
        VisitNodeGrows(right, sourcePkg, st1.value);
        VisitGrowsTransitive(st, st1.value, VisitNode(right, sourcePkg, st1.value), NoSetupNode(left), NoSetupNode(right), sourcePkg);
      }
    case OtherExpr(children) =>
      VisitNodesGrow(children, sourcePkg, st);
  }

  lemma {:induction false} VisitNodesGrow(nodes: seq<Node>, sourcePkg: string, st: VisitorState)
    ensures VisitGrows(st, VisitNodes(nodes, sourcePkg, st), NoSetupNodes(nodes), sourcePkg)
    decreases nodes
  {
    if nodes != [] {
      VisitNodeGrows(nodes[0], sourcePkg, st);
      var st1 := VisitNode(nodes[0], sourcePkg, st);
      if st1.Returned? {
        VisitNodesGrow(nodes[1..], sourcePkg, st1.value);
        VisitGrowsTransitive(st, st1.value, VisitNodes(nodes[1..], sourcePkg, st1.value), NoSetupNode(nodes[0]), NoSetupNodes(nodes[1..]), sourcePkg);
      }
    }
  }

  lemma {:induction false} VisitKeywordsGrow(kws: seq<Keyword>, sourcePkg: string, st: VisitorState)
    ensures VisitGrows(st, VisitKeywords(kws, sourcePkg, st), NoSetupKeywords(kws), sourcePkg)
    decreases kws
  {
    if kws != [] {
      var kw := kws[0];
      assert kw in kws && kw.value < kw;
      VisitNodeGrows(kw.value, sourcePkg, st);
      var st1 := VisitNode(kw.value, sourcePkg, st);
      if st1.Returned? {
        VisitKeywordsGrow(kws[1..], sourcePkg, st1.value);
        VisitGrowsTransitive(st, st1.value, VisitKeywords(kws[1..], sourcePkg, st1.value), NoSetupNode(kw.value), NoSetupKeywords(kws[1..]), sourcePkg);
      }
    }
  }

  lemma {:induction false} VisitStmtGrows(s: Stmt, sourcePkg: string, st: VisitorState)
    ensures StmtGrows(st, VisitStmt(s, sourcePkg, st), NoSetupStmt(s), sourcePkg)
    decreases s
  {
    match s
    case Assign(targets, value) =>
      var st0 := if |targets| == 1 && targets[0].Name? then AssignVar(targets[0].id, value, st) else Returned(st);
      if st0.Returned? {
        assert st0.value.deps == st.deps;
        VisitNodesGrow(targets, sourcePkg, st0.value);
        var st1 := VisitNodes(targets, sourcePkg, st0.value);
        StmtGrowsTransitive(st, st0.value, st1, true, NoSetupNodes(targets), sourcePkg);
        if st1.Returned? {
          VisitNodeGrows(value, sourcePkg, st1.value);
          StmtGrowsTransitive(st, st1.value, VisitNode(value, sourcePkg, st1.value), NoSetupNodes(targets), NoSetupNode(value), sourcePkg);
        }
      }
    case ExprStmt(e) =>
      VisitNodeGrows(e, sourcePkg, st);
    case OtherStmt(exprs, body) =>
      VisitNodesGrow(exprs, sourcePkg, st);
      var st1 := VisitNodes(exprs, sourcePkg, st);
      if st1.Returned? {
        VisitStmtsGrow(body, sourcePkg, st1.value);
        StmtGrowsTransitive(st, st1.value, VisitStmts(body, sourcePkg, st1.value), NoSetupNodes(exprs), NoSetupStmts(body), sourcePkg);
      }
  }

  lemma {:induction false} VisitStmtsGrow(body: seq<Stmt>, sourcePkg: string, st: VisitorState)
    ensures StmtGrows(st, VisitStmts(body, sourcePkg, st), NoSetupStmts(body), sourcePkg)
    decreases body
  {
    if body != [] {
      VisitStmtGrows(body[0], sourcePkg, st);
      var st1 := VisitStmt(body[0], sourcePkg, st);
      if st1.Returned? {
        VisitStmtsGrow(body[1..], sourcePkg, st1.value);
        StmtGrowsTransitive(st, st1.value, VisitStmts(body[1..], sourcePkg, st1.value), NoSetupStmt(body[0]), NoSetupStmts(body[1..]), sourcePkg);
      }
    }
  }

  /**
   * Every record `parse_setup_py` returns comes from a keyword of a `setup(...)` call: it has
   * the package as its source, a normalised target other than the package, and the file and
   * relation of an `install_requires`/`setup_requires`/`tests_require` list or of an extra;
   * a script without a `setup(...)` call yields nothing.
   */
  lemma {:induction false} SetupDepsRecords(content: string, tree: Option<seq<Stmt>>, sourcePkg: string)
    ensures SetupDeps(content, tree, sourcePkg).Returned? ==>
      forall d :: d in SetupDeps(content, tree, sourcePkg).value ==> SetupRecord(d, sourcePkg)
    ensures tree.Some? && NoSetupStmts(tree.value) && SetupDeps(content, tree, sourcePkg).Returned? ==>
      SetupDeps(content, tree, sourcePkg).value == []
  {
    if content != [] && tree.Some? {
      VisitStmtsGrow(tree.value, sourcePkg, VisitorState([], map[]));
    }
  }

  // ---------------------------------------------------------------------------------------
  // The `deps` helpers
  // ---------------------------------------------------------------------------------------

  /** `spec` is filed under `key`. */
  predicate FiledBy(keyOf: PyVal -> Option<string>, spec: PyVal, key: PyVal) {
    keyOf(spec).Some? && key == PStr(keyOf(spec).value)
  }

  /** `v` is the last entry of `raw` filed under `key`. */
  ghost predicate LastFiledBy(keyOf: PyVal -> Option<string>, raw: seq<PyVal>, key: PyVal, v: PyVal) {
    exists i :: 0 <= i < |raw| && FiledBy(keyOf, raw[i], key) && v == raw[i]
      && forall j :: i < j < |raw| ==> !FiledBy(keyOf, raw[j], key)
  }

  lemma {:induction false} FileByHas(keyOf: PyVal -> Option<string>, raw: seq<PyVal>, key: PyVal)
    ensures DictGet(FileBy(keyOf, raw), key).Some? <==> exists i :: 0 <= i < |raw| && FiledBy(keyOf, raw[i], key)
  {
    if raw != [] {
      var init := raw[..|raw| - 1];
      FileByHas(keyOf, init, key);
      if !FiledBy(keyOf, raw[|raw| - 1], key) {
        assert DictGet(FileBy(keyOf, raw), key) == DictGet(FileBy(keyOf, init), key);
        if exists i :: 0 <= i < |raw| && FiledBy(keyOf, raw[i], key) {
          var i :| 0 <= i < |raw| && FiledBy(keyOf, raw[i], key);
          assert i < |init| && init[i] == raw[i];
        }
        if exists i :: 0 <= i < |init| && FiledBy(keyOf, init[i], key) {
          var i :| 0 <= i < |init| && FiledBy(keyOf, init[i], key);
          assert raw[i] == init[i];
        }
      }
    }
  }

  lemma {:induction false} FileByLast(keyOf: PyVal -> Option<string>, raw: seq<PyVal>, key: PyVal)
    ensures DictGet(FileBy(keyOf, raw), key).Some? ==> LastFiledBy(keyOf, raw, key, DictGet(FileBy(keyOf, raw), key).value)
  {
    if raw != [] {
      var init := raw[..|raw| - 1];
      var last := raw[|raw| - 1];
      FileByLast(keyOf, init, key);
      if FiledBy(keyOf, last, key) {
        assert DictGet(FileBy(keyOf, raw), key) == Some(last);
        assert LastFiledBy(keyOf, raw, key, last) by {
          var i := |raw| - 1;
          assert 0 <= i < |raw| && FiledBy(keyOf, raw[i], key) && raw[i] == last;
        }
      } else {
        var r := DictGet(FileBy(keyOf, init), key);
        assert DictGet(FileBy(keyOf, raw), key) == r;
        if r.Some? {
          var i :| 0 <= i < |init| && FiledBy(keyOf, init[i], key) && r.value == init[i]
            && forall j :: i < j < |init| ==> !FiledBy(keyOf, init[j], key);
          assert raw[i] == init[i];
          forall j | i < j < |raw|
            ensures !FiledBy(keyOf, raw[j], key)
          {
            if j < |init| {
              assert raw[j] == init[j];
            }
          }
        }
      }
    }
  }

  /**
   * The lookup built from `_deps` holds a key exactly when some entry is filed under it (its
   * leading name, normalised), and then holds the last such entry.
   */
  lemma {:induction false} LookupEntriesGet(raw: seq<PyVal>, key: PyVal)
    ensures DictGet(LookupEntries(raw), key).Some? <==> exists i :: 0 <= i < |raw| && FiledBy(LookupKey, raw[i], key)
    ensures DictGet(LookupEntries(raw), key).Some? ==> LastFiledBy(LookupKey, raw, key, DictGet(LookupEntries(raw), key).value)
  {
    FileByHas(LookupKey, raw, key);
    FileByLast(LookupKey, raw, key);
  }

  /** Every key of the rebuilt `deps` table is a normalised, non-empty package name. */
  lemma {:induction false} DepsLookupKeys(env: Env, key: PyVal)
    requires DepsLookup(env).PDict?
    requires DictGet(DepsLookup(env).entries, key).Some?
    ensures key.PStr? && key.s != [] && Normalized(key.s)
  {
    LookupEntriesGet(GetVar(env, "_deps").items, key);
  }

  /**
   * `deps["Name"]` with `deps` unknown: the table is rebuilt from `_deps` and recorded as
   * `deps`, and the key is normalised before the lookup (a missing key gives `None`).
   */
  lemma {:induction false} DepsSubscriptNormalizesKey(s: string, env: Env)
    requires "deps" !in env && DepsLookup(env).PDict?
    ensures Eval(Subscript(Name("deps"), Constant(CStr(s))), env)
      == Returned((DictGet(DepsLookup(env).entries, PStr(NormalizeName(s))).GetOr(PNone), env["deps" := DepsLookup(env)]))
  {
  }

  /**
   * `deps_list("name")`: the name is replaced by its entry in the `deps` table when its
   * normalised form is a key of it, and kept as it is otherwise.
   */
  lemma {:induction false} DepsListReplacesName(s: string, env: Env)
    requires DepsTable(env).PDict?
    ensures Eval(Call(Name("deps_list"), [Constant(CStr(s))], []), env)
      == Returned((PList([DictGet(DepsTable(env).entries, PStr(NormalizeName(s))).GetOr(PStr(s))]), env))
  {
    var lookup := DepsTable(env);
    var item := DictGet(lookup.entries, PStr(NormalizeName(s))).GetOr(PStr(s));
    DepsItemOfString(s, lookup);
    DepsArgsOfConstant(s, lookup, env, [item]);
    DepsListCall([Constant(CStr(s))], env, [item]);
  }

  /** A string argument against a dict table: its entry when the normalised name is a key. */
  lemma {:induction false} DepsItemOfString(s: string, lookup: PyVal)
    requires lookup.PDict?
    ensures DepsListItem(PStr(s), lookup) == Returned([DictGet(lookup.entries, PStr(NormalizeName(s))).GetOr(PStr(s))])
  {
    var found := DictGet(lookup.entries, PStr(NormalizeName(s)));
    assert SetupParser.Truthy(lookup) ==> SetupParser.Contains(lookup, NormalizeName(s)) == Returned(found.Some?);
  }

  /** The single argument of `deps_list` is a string literal. */
  lemma {:induction false} DepsArgsOfConstant(s: string, lookup: PyVal, env: Env, items: seq<PyVal>)
    requires DepsListItem(PStr(s), lookup) == Returned(items)
    ensures EvalDepsArgs([Constant(CStr(s))], lookup, env) == Returned((items, env))
  {
    var args := [Constant(CStr(s))];
    assert args[1..] == [];
    assert Eval(args[0], env) == Returned((PStr(s), env));
    assert items + [] == items;
  }

  /** `deps_list(*args)` evaluates to the list its arguments collect. */
  lemma {:induction false} DepsListCall(args: seq<Node>, env: Env, items: seq<PyVal>)
    requires EvalDepsArgs(args, DepsTable(env), env) == Returned((items, env))
    ensures Eval(Call(Name("deps_list"), args, []), env) == Returned((PList(items), env))
  {
    assert FuncName(Name("deps_list")) == "deps_list";
  }

  /** A list display of string literals. */
  function StrConstants(lines: seq<string>): (r: seq<Node>)
    ensures |r| == |lines| && forall i :: 0 <= i < |lines| ==> r[i] == Constant(CStr(lines[i]))
  {
    seq(|lines|, i requires 0 <= i < |lines| => Constant(CStr(lines[i])))
  }

  function PStrs(lines: seq<string>): (r: seq<PyVal>)
    ensures |r| == |lines| && forall i :: 0 <= i < |lines| ==> r[i] == PStr(lines[i])
  {
    seq(|lines|, i requires 0 <= i < |lines| => PStr(lines[i]))
  }

  lemma {:induction false} EvalStrConstants(lines: seq<string>, env: Env)
    ensures EvalAll(StrConstants(lines), env) == Returned((PStrs(lines), env))
  {
    if lines != [] {
      EvalStrConstants(lines[1..], env);
      assert StrConstants(lines)[1..] == StrConstants(lines[1..]);
      assert PStrs(lines) == [PStr(lines[0])] + PStrs(lines[1..]);
    }
  }

  lemma {:induction false} NoSetupStrConstants(lines: seq<string>)
    ensures NoSetupNodes(StrConstants(lines))
  {
    if lines != [] {
      NoSetupStrConstants(lines[1..]);
      assert StrConstants(lines)[1..] == StrConstants(lines[1..]);
    }
  }

  lemma {:induction false} AddDepsStrConstants(lines: seq<string>, relType: RelationType, sourceFile: string, sourcePkg: string, st: VisitorState)
    ensures AddDeps(ListExpr(StrConstants(lines)), relType, sourceFile, sourcePkg, st)
      == Returned(VisitorState(st.deps + SpecifierDeps(PStrs(lines), sourcePkg, relType, sourceFile), st.vars))
  {
    EvalStrConstants(lines, st.vars);
  }

  lemma {:induction false} SetupKeywordsInstallRequires(lines: seq<string>, sourcePkg: string, st: VisitorState)
    ensures SetupKeywords([Keyword(Some("install_requires"), ListExpr(StrConstants(lines)))], sourcePkg, st)
      == Returned(VisitorState(st.deps + SpecifierDeps(PStrs(lines), sourcePkg, RequiresCore, "setup.py"), st.vars))
  {
    var kw := Keyword(Some("install_requires"), ListExpr(StrConstants(lines)));
    AddDepsStrConstants(lines, RequiresCore, "setup.py", sourcePkg, st);
    assert [kw][1..] == [];
  }

  /**
   * Visiting a `setup(...)` call with no nested setup call reads its keywords exactly once:
   * the generic walk over its parts changes nothing.
   */
  lemma {:induction false} SetupCallReadsKeywordsOnce(func: Node, args: seq<Node>, kws: seq<Keyword>, sourcePkg: string, st: VisitorState)
    requires IsSetupName(FuncName(func)) && NoSetupNode(func) && NoSetupNodes(args) && NoSetupKeywords(kws)
    ensures VisitNode(Call(func, args, kws), sourcePkg, st) == SetupKeywords(kws, sourcePkg, st)
  {
    var st0 := SetupKeywords(kws, sourcePkg, st);
    if st0.Returned? {
      VisitNodeGrows(func, sourcePkg, st0.value);
      VisitNodesGrow(args, sourcePkg, st0.value);
      VisitKeywordsGrow(kws, sourcePkg, st0.value);
    }
  }

  /** A script that is a single expression statement yields what visiting that expression collects. */
  lemma {:induction false} SingleExprScript(content: string, e: Node, sourcePkg: string)
    requires content != []
    ensures SetupDeps(content, Some([ExprStmt(e)]), sourcePkg)
      == (match VisitNode(e, sourcePkg, VisitorState([], map[]))
          case Returned(st) => Returned(st.deps)
          case Raised(err) => Raised(err))
  {
    var body := [ExprStmt(e)];
    var st0 := VisitorState([], map[]);
    assert body[0] == ExprStmt(e) && body[1..] == [];
    var r := VisitNode(e, sourcePkg, st0);
    assert VisitStmt(body[0], sourcePkg, st0) == r;
    if r.Returned? {
      assert VisitStmts(body[1..], sourcePkg, r.value) == Returned(r.value);
    }
  }

  /**
   * A script that is a single `setup(install_requires=[...])` call with string literals yields
   * the core dependencies those strings parse to, in order, read from `setup.py`.
   */
  lemma {:induction false} InstallRequiresLiterals(content: string, lines: seq<string>, sourcePkg: string)
    requires content != []
    ensures SetupDeps(content, Some([ExprStmt(Call(Name("setup"), [], [Keyword(Some("install_requires"), ListExpr(StrConstants(lines)))]))]), sourcePkg)
      == Returned(SpecifierDeps(PStrs(lines), sourcePkg, RequiresCore, "setup.py"))
  {
    var kws := [Keyword(Some("install_requires"), ListExpr(StrConstants(lines)))];
    var st0 := VisitorState([], map[]);
    NoSetupStrConstants(lines);
    assert NoSetupKeywords(kws) by {
      assert NoSetupNode(ListExpr(StrConstants(lines)));
      assert kws[1..] == [] && NoSetupKeywords(kws[1..]);
    }
    SetupCallReadsKeywordsOnce(Name("setup"), [], kws, sourcePkg, st0);
    SetupKeywordsInstallRequires(lines, sourcePkg, st0);
    SingleExprScript(content, Call(Name("setup"), [], kws), sourcePkg);
    var added := SpecifierDeps(PStrs(lines), sourcePkg, RequiresCore, "setup.py");
    assert st0.deps + added == added;
  }
}
