/**
 * Call-site extraction (FunctionCallVisitor in src/code_analyzer.py): every
 * call expression of a file whose callee resolves, through the file's symbol
 * tables, to a non-empty function name and a non-empty module becomes one
 * call site carrying the names of its keyword arguments.
 */
module Calls {
  import opened Wrappers
  import opened Syntax
  import opened Symbols

  /** One resolved call: `FunctionCall` of the source. */
  datatype CallSite = CallSite(functionName: string, moduleName: string, arguments: set<string>, line: nat)

  /** The (function, module) pair `resolve_function_call` returns; None stands for Python's None. */
  datatype Target = Target(functionName: Option<string>, moduleName: Option<string>)

  /** Python truthiness of an optional string: present and non-empty. */
  predicate Truthy(s: Option<string>) {
    s.Some? && s.value != ""
  }

  /**
   * Resolves a callee. A bare name bound by a plain import resolves to itself
   * and that module; otherwise a name bound by a member import resolves to
   * the member and its module; any other bare name to itself and no module.
   * `base.attr` with a bare `base` resolves to `attr` and the module `base`
   * is bound to (plain imports first), or to `base` itself. Any other shape
   * resolves to nothing.
   */
  function ResolveCallee(callee: Expr, t: Tables): (r: Target)
    ensures callee.Name? && callee.id in t.imports ==>
      r == Target(Some(callee.id), Some(t.imports[callee.id]))
    ensures callee.Name? && callee.id !in t.imports && callee.id in t.fromImports ==>
      r == Target(Some(t.fromImports[callee.id].name), Some(t.fromImports[callee.id].moduleName))
    ensures callee.Name? ==> (r.moduleName.None? <==> callee.id !in t.imports && callee.id !in t.fromImports)
    ensures callee.Name? && r.moduleName.None? ==> r.functionName == Some(callee.id)
    ensures callee.Attribute? && callee.value.Name? ==> r.functionName == Some(callee.attr)
    ensures callee.Attribute? && callee.value.Name? && callee.value.id in t.imports ==>
      r.moduleName == Some(t.imports[callee.value.id])
    ensures callee.Attribute? && callee.value.Name? && callee.value.id !in t.imports && callee.value.id in t.fromImports ==>
      r.moduleName == Some(t.fromImports[callee.value.id].moduleName)
    ensures callee.Attribute? && callee.value.Name? && callee.value.id !in t.imports && callee.value.id !in t.fromImports ==>
      r.moduleName == Some(callee.value.id)
    ensures !callee.Name? && !(callee.Attribute? && callee.value.Name?) ==> r == Target(None, None)
  {
    match callee
    case Name(id) =>
      if id in t.imports then Target(Some(id), Some(t.imports[id]))
      else if id in t.fromImports then
        var m := t.fromImports[id];
        Target(Some(m.name), Some(m.moduleName))
      else Target(Some(id), None)
    case Attribute(Name(base), attr) =>
      if base in t.imports then Target(Some(attr), Some(t.imports[base]))
      else if base in t.fromImports then Target(Some(attr), Some(t.fromImports[base].moduleName))
      else Target(Some(attr), Some(base))
    case _ => Target(None, None)
  }

  /** The names of the keyword arguments of a call; positional arguments and `**` splats give none. */
  function KeywordNames(keywords: seq<Keyword>): (r: set<string>)
    ensures forall x :: x in r <==> exists i :: 0 <= i < |keywords| && keywords[i].arg == Some(x) && x != ""
  {
    if keywords == [] then {}
    else
      var k := keywords[|keywords| - 1];
      var init := keywords[..|keywords| - 1];
      assert forall i :: 0 <= i < |init| ==> init[i] == keywords[i];
      KeywordNames(init) + (if Truthy(k.arg) then {k.arg.value} else {})
  }

  /** What `visit_Call` records for the call node itself, before visiting its children. */
  function SiteOf(func: Expr, keywords: seq<Keyword>, line: nat, t: Tables): (r: seq<CallSite>)
    ensures |r| <= 1
    ensures r != [] <==> Truthy(ResolveCallee(func, t).functionName) && Truthy(ResolveCallee(func, t).moduleName)
    ensures r != [] ==>
      && r[0].functionName == ResolveCallee(func, t).functionName.value
      && r[0].moduleName == ResolveCallee(func, t).moduleName.value
      && (forall x :: x in r[0].arguments <==> exists i :: 0 <= i < |keywords| && keywords[i].arg == Some(x) && x != "")
  {
    var target := ResolveCallee(func, t);
    if Truthy(target.functionName) && Truthy(target.moduleName) then
      [CallSite(target.functionName.value, target.moduleName.value, KeywordNames(keywords), line)]
    else []
  }

  /** A call site that names a function and a module; `visit_Call` records no other kind. */
  predicate Resolved(s: CallSite) {
    s.functionName != "" && s.moduleName != ""
  }

  /**
   * The call nodes of an expression in the order `generic_visit` reaches
   * them: a call itself, then the calls inside its callee, its arguments and
   * its keyword values. This walk does not look at the symbol tables.
   */
  function CallNodes(e: Expr): (r: seq<Expr>)
    ensures forall i :: 0 <= i < |r| ==> r[i].Call?
  {
    match e
    case Name(_) => []
    case Attribute(value, _) => CallNodes(value)
    case Call(func, args, keywords, _) => [e] + CallNodes(func) + ExprsCallNodes(args) + KeywordsCallNodes(keywords)
    case Other(children) => ExprsCallNodes(children)
  }

  function ExprsCallNodes(es: seq<Expr>): (r: seq<Expr>)
    ensures forall i :: 0 <= i < |r| ==> r[i].Call?
  {
    if es == [] then [] else CallNodes(es[0]) + ExprsCallNodes(es[1..])
  }

  function KeywordsCallNodes(keywords: seq<Keyword>): (r: seq<Expr>)
    ensures forall i :: 0 <= i < |r| ==> r[i].Call?
  {
    if keywords == [] then [] else KeywordCallNodes(keywords[0]) + KeywordsCallNodes(keywords[1..])
  }

  function KeywordCallNodes(k: Keyword): (r: seq<Expr>)
    ensures forall i :: 0 <= i < |r| ==> r[i].Call?
  {
    CallNodes(k.value)
  }

  /** The call nodes of a sequence of statements, statement by statement, nested bodies included. */
  function StmtsCallNodes(tree: seq<Stmt>): (r: seq<Expr>)
    ensures forall i :: 0 <= i < |r| ==> r[i].Call?
  {
    if tree == [] then []
    else
      (match tree[0]
       case ExprStmt(e) => CallNodes(e)
       case Compound(exprs, body) => ExprsCallNodes(exprs) + StmtsCallNodes(body)
       case _ => []) + StmtsCallNodes(tree[1..])
  }

  /** Call node n is recorded under tables t: its callee resolves to a truthy function and a truthy module. */
  predicate Recorded(n: Expr, t: Tables) {
    n.Call? && Truthy(ResolveCallee(n.func, t).functionName) && Truthy(ResolveCallee(n.func, t).moduleName)
  }

  /** The site a recorded call node yields. */
  function Site(n: Expr, t: Tables): CallSite
    requires Recorded(n, t)
  {
    CallSite(ResolveCallee(n.func, t).functionName.value, ResolveCallee(n.func, t).moduleName.value, KeywordNames(n.keywords), n.line)
  }

  /** How many of the nodes are recorded. */
  function CountRecorded(nodes: seq<Expr>, t: Tables): nat {
    if nodes == [] then 0 else (if Recorded(nodes[0], t) then 1 else 0) + CountRecorded(nodes[1..], t)
  }

  /**
   * The sites of a list of call nodes, in order: one for every recorded node
   * and none for any other.
   */
  function NodeSites(nodes: seq<Expr>, t: Tables): (r: seq<CallSite>)
    ensures |r| == CountRecorded(nodes, t)
    ensures forall i :: 0 <= i < |nodes| && Recorded(nodes[i], t) ==> Site(nodes[i], t) in r
  {
    if nodes == [] then []
    else
      var n := nodes[0];
      var head := if n.Call? then SiteOf(n.func, n.keywords, n.line, t) else [];
      var rest := NodeSites(nodes[1..], t);
      assert head != [] <==> Recorded(n, t);
      assert head != [] ==> head == [Site(n, t)];
      assert forall i :: 1 <= i < |nodes| ==> nodes[i] == nodes[1..][i - 1];
      head + rest
  }

  /** Every site of a list of call nodes is the site of one of its recorded nodes. */
  lemma {:induction false} NodeSitesOnlyRecorded(nodes: seq<Expr>, t: Tables, j: nat)
    requires j < |NodeSites(nodes, t)|
    ensures exists i :: 0 <= i < |nodes| && Recorded(nodes[i], t) && NodeSites(nodes, t)[j] == Site(nodes[i], t)
  {
    var n := nodes[0];
    var head := if n.Call? then SiteOf(n.func, n.keywords, n.line, t) else [];
    assert NodeSites(nodes, t) == head + NodeSites(nodes[1..], t);
    if j < |head| {
      assert Recorded(n, t) && NodeSites(nodes, t)[j] == Site(n, t);
    } else {
      NodeSitesOnlyRecorded(nodes[1..], t, j - |head|);
      var i :| 0 <= i < |nodes[1..]| && Recorded(nodes[1..][i], t) && NodeSites(nodes[1..], t)[j - |head|] == Site(nodes[1..][i], t);
      assert nodes[i + 1] == nodes[1..][i];
    }
  }

  lemma {:induction false} NodeSitesAppend(a: seq<Expr>, b: seq<Expr>, t: Tables)
    ensures NodeSites(a + b, t) == NodeSites(a, t) + NodeSites(b, t)
  {
    if a == [] {
      assert a + b == b;
    } else {
      assert (a + b)[0] == a[0];
      assert (a + b)[1..] == a[1..] + b;
      NodeSitesAppend(a[1..], b, t);
    }
  }

  /** The sites a call node contributes by itself, before its children. */
  lemma NodeSitesOfCall(e: Expr, t: Tables)
    requires e.Call?
    ensures NodeSites([e], t) == SiteOf(e.func, e.keywords, e.line, t)
  {
    assert [e][1..] == [];
  }

  /** The call sites of an expression in visiting order: the call itself, then its callee, arguments and keyword values. */
  function ExprCalls(e: Expr, t: Tables): (r: seq<CallSite>)
    ensures forall i :: 0 <= i < |r| ==> Resolved(r[i])
  {
    match e
    case Name(_) => []
    case Attribute(value, _) => ExprCalls(value, t)
    case Call(func, args, keywords, line) =>
      SiteOf(func, keywords, line, t) + ExprCalls(func, t) + ExprsCalls(args, t) + KeywordsCalls(keywords, t)
    case Other(children) => ExprsCalls(children, t)
  }

  function ExprsCalls(es: seq<Expr>, t: Tables): (r: seq<CallSite>)
    ensures forall i :: 0 <= i < |r| ==> Resolved(r[i])
  {
    if es == [] then [] else ExprCalls(es[0], t) + ExprsCalls(es[1..], t)
  }

  function KeywordsCalls(keywords: seq<Keyword>, t: Tables): (r: seq<CallSite>)
    ensures forall i :: 0 <= i < |r| ==> Resolved(r[i])
  {
    if keywords == [] then [] else KeywordCalls(keywords[0], t) + KeywordsCalls(keywords[1..], t)
  }

  function KeywordCalls(k: Keyword, t: Tables): (r: seq<CallSite>)
    ensures forall i :: 0 <= i < |r| ==> Resolved(r[i])
  {
    ExprCalls(k.value, t)
  }

  /** The call sites of a sequence of statements, in visiting order. */
  function StmtsCalls(tree: seq<Stmt>, t: Tables): (r: seq<CallSite>)
    ensures forall i :: 0 <= i < |r| ==> Resolved(r[i])
  {
    if tree == [] then []
    else
      (match tree[0]
       case ExprStmt(e) => ExprCalls(e, t)
       case Compound(exprs, body) => ExprsCalls(exprs, t) + StmtsCalls(body, t)
       case _ => []) + StmtsCalls(tree[1..], t)
  }

  /**
   * Completeness of the walk: the call sites of an expression are exactly the
   * sites of its call nodes, so every call whose callee resolves is recorded
   * once, in visiting order, nested calls included.
   */
  lemma {:induction false} ExprCallsAreNodeSites(e: Expr, t: Tables)
    ensures ExprCalls(e, t) == NodeSites(CallNodes(e), t)
  {
    match e
    case Name(_) =>
    case Attribute(value, _) =>
      ExprCallsAreNodeSites(value, t);
    case Call(func, args, keywords, line) =>
      var a, b, c := CallNodes(func), ExprsCallNodes(args), KeywordsCallNodes(keywords);
      ExprCallsAreNodeSites(func, t);
      ExprsCallsAreNodeSites(args, t);
      KeywordsCallsAreNodeSites(keywords, t);
      NodeSitesOfCall(e, t);
      NodeSitesAppend([e] + a + b, c, t);
      NodeSitesAppend([e] + a, b, t);
      NodeSitesAppend([e], a, t);
    case Other(children) =>
      ExprsCallsAreNodeSites(children, t);
  }

  lemma {:induction false} ExprsCallsAreNodeSites(es: seq<Expr>, t: Tables)
    ensures ExprsCalls(es, t) == NodeSites(ExprsCallNodes(es), t)
  {
    if es != [] {
      ExprCallsAreNodeSites(es[0], t);
      ExprsCallsAreNodeSites(es[1..], t);
      NodeSitesAppend(CallNodes(es[0]), ExprsCallNodes(es[1..]), t);
    }
  }

  lemma {:induction false} KeywordsCallsAreNodeSites(keywords: seq<Keyword>, t: Tables)
    ensures KeywordsCalls(keywords, t) == NodeSites(KeywordsCallNodes(keywords), t)
  {
    if keywords != [] {
      KeywordCallsAreNodeSites(keywords[0], t);
      KeywordsCallsAreNodeSites(keywords[1..], t);
      NodeSitesAppend(KeywordCallNodes(keywords[0]), KeywordsCallNodes(keywords[1..]), t);
    }
  }

  lemma {:induction false} KeywordCallsAreNodeSites(k: Keyword, t: Tables)
    ensures KeywordCalls(k, t) == NodeSites(KeywordCallNodes(k), t)
  {
    ExprCallsAreNodeSites(k.value, t);
  }

  /** The call sites of a sequence of statements are exactly the sites of its call nodes, nested bodies included. */
  lemma {:induction false} StmtsCallsAreNodeSites(tree: seq<Stmt>, t: Tables)
    ensures StmtsCalls(tree, t) == NodeSites(StmtsCallNodes(tree), t)
  {
    if tree != [] {
      StmtsCallsAreNodeSites(tree[1..], t);
      match tree[0]
      case ExprStmt(e) =>
        ExprCallsAreNodeSites(e, t);
        NodeSitesAppend(CallNodes(e), StmtsCallNodes(tree[1..]), t);
      case Compound(exprs, body) =>
        ExprsCallsAreNodeSites(exprs, t);
        StmtsCallsAreNodeSites(body, t);
        NodeSitesAppend(ExprsCallNodes(exprs), StmtsCallNodes(body), t);
        NodeSitesAppend(ExprsCallNodes(exprs) + StmtsCallNodes(body), StmtsCallNodes(tree[1..]), t);
      case _ =>
        NodeSitesAppend([], StmtsCallNodes(tree[1..]), t);
    }
  }

  /**
   * `analyze_file` after parsing: the call sites of a file, resolved against
   * the symbol tables of that same file. A file that failed to parse (None)
   * contributes nothing.
   */
  function FileCalls(parsed: Option<Tree>): (r: seq<CallSite>)
    ensures parsed.None? ==> r == []
    ensures forall i :: 0 <= i < |r| ==> Resolved(r[i])
  {
    match parsed
    case None => []
    case Some(tree) => StmtsCalls(tree, ImportTables(tree))
  }

  /**
   * Every call node of a parsed file whose callee resolves through the
   * file's own tables yields exactly one site, in visiting order, and no
   * other site is recorded.
   */
  lemma FileCallsComplete(tree: Tree)
    ensures FileCalls(Some(tree)) == NodeSites(StmtsCallNodes(tree), ImportTables(tree))
    ensures |FileCalls(Some(tree))| == CountRecorded(StmtsCallNodes(tree), ImportTables(tree))
    ensures forall n :: n in StmtsCallNodes(tree) && Recorded(n, ImportTables(tree)) ==>
      Site(n, ImportTables(tree)) in FileCalls(Some(tree))
  {
    StmtsCallsAreNodeSites(tree, ImportTables(tree));
    var nodes := StmtsCallNodes(tree);
    assert forall n :: n in nodes ==> exists i :: 0 <= i < |nodes| && nodes[i] == n;
  }

  /** A name bound by both kinds of import resolves through the plain import. */
  lemma PlainImportWins(id: string, t: Tables)
    requires id in t.imports && id in t.fromImports
    ensures ResolveCallee(Name(id), t) == Target(Some(id), Some(t.imports[id]))
    ensures forall attr :: ResolveCallee(Attribute(Name(id), attr), t) == Target(Some(attr), Some(t.imports[id]))
  {
  }

  /** Two tables that bind `a` and `b` to the same module resolve `a.f` and `b.f` alike. */
  lemma AttributeAliasTransparent(a: string, b: string, f: string, t1: Tables, t2: Tables)
    requires a in t1.imports && b in t2.imports && t1.imports[a] == t2.imports[b]
    ensures ResolveCallee(Attribute(Name(a), f), t1) == ResolveCallee(Attribute(Name(b), f), t2)
  {
  }

  /** The file `import m as a` followed by the statement `a.f(args, keywords)`. */
  function AliasedProgram(m: string, a: string, f: string, args: seq<Expr>, keywords: seq<Keyword>, line: nat): Tree {
    [Import([Alias(m, Some(a))]), ExprStmt(Call(Attribute(Name(a), f), args, keywords, line))]
  }

  /** The file `import m` followed by the statement `m.f(args, keywords)`. */
  function DirectProgram(m: string, f: string, args: seq<Expr>, keywords: seq<Keyword>, line: nat): Tree {
    [Import([Alias(m, None)]), ExprStmt(Call(Attribute(Name(m), f), args, keywords, line))]
  }

  lemma {:induction false} AtomicExprsHaveNoCalls(es: seq<Expr>, t: Tables)
    requires forall i :: 0 <= i < |es| ==> Atomic(es[i])
    ensures ExprsCalls(es, t) == []
  {
    if es != [] {
      assert Atomic(es[0]);
      assert ExprCalls(es[0], t) == [];
      AtomicExprsHaveNoCalls(es[1..], t);
    }
  }

  lemma {:induction false} AtomicKeywordsHaveNoCalls(keywords: seq<Keyword>, t: Tables)
    requires forall i :: 0 <= i < |keywords| ==> Atomic(keywords[i].value)
    ensures KeywordsCalls(keywords, t) == []
  {
    if keywords != [] {
      assert Atomic(keywords[0].value);
      assert ExprCalls(keywords[0].value, t) == [];
      assert KeywordCalls(keywords[0], t) == [];
      AtomicKeywordsHaveNoCalls(keywords[1..], t);
    }
  }

  /** `import X [as Y]` followed by `Y.f(...)` (or `X.f(...)`) yields the single call site (f, X, keyword names). */
  lemma {:induction false} ImportThenAttributeCall(al: Alias, f: string, args: seq<Expr>, keywords: seq<Keyword>, line: nat)
    requires al.name != "" && f != ""
    requires forall i :: 0 <= i < |args| ==> Atomic(args[i])
    requires forall i :: 0 <= i < |keywords| ==> Atomic(keywords[i].value)
    ensures FileCalls(Some([Import([al]), ExprStmt(Call(Attribute(Name(LocalName(al)), f), args, keywords, line))]))
         == [CallSite(f, al.name, KeywordNames(keywords), line)]
  {
    var k := LocalName(al);
    var call := Call(Attribute(Name(k), f), args, keywords, line);
    var p := [Import([al]), ExprStmt(call)];
    assert p[1..][1..] == [];
    assert PlainBindings(p[1..]) == [];
    assert PlainBindings(p) == [(k, al.name)];
    assert MemberBindings(p[1..]) == [];
    assert MemberBindings(p) == [];
    var t := ImportTables(p);
    assert Bindings([(k, al.name)]) == map[k := al.name] by {
      assert [(k, al.name)][..0] == [];
    }
    assert t.imports == map[k := al.name];
    assert ResolveCallee(Attribute(Name(k), f), t) == Target(Some(f), Some(al.name));
    AtomicExprsHaveNoCalls(args, t);
    AtomicKeywordsHaveNoCalls(keywords, t);
    assert ExprCalls(Attribute(Name(k), f), t) == [];
    assert ExprCalls(call, t) == [CallSite(f, al.name, KeywordNames(keywords), line)];
    assert StmtsCalls(p[1..][1..], t) == [];
    assert StmtsCalls(p[1..], t) == ExprCalls(call, t);
    assert StmtsCalls(p, t) == StmtsCalls(p[1..], t);
  }

  /**
   * Alias transparency: `import m as a; a.f(...)` and `import m; m.f(...)`
   * give the same single call site (f, m, keyword names), whenever the
   * arguments hold no further call.
   */
  lemma {:induction false} AliasTransparency(m: string, a: string, f: string, args: seq<Expr>, keywords: seq<Keyword>, line: nat)
    requires m != "" && a != "" && f != ""
    requires forall i :: 0 <= i < |args| ==> Atomic(args[i])
    requires forall i :: 0 <= i < |keywords| ==> Atomic(keywords[i].value)
    ensures FileCalls(Some(AliasedProgram(m, a, f, args, keywords, line)))
         == FileCalls(Some(DirectProgram(m, f, args, keywords, line)))
         == [CallSite(f, m, KeywordNames(keywords), line)]
  {
    ImportThenAttributeCall(Alias(m, Some(a)), f, args, keywords, line);
    ImportThenAttributeCall(Alias(m, None), f, args, keywords, line);
  }

  /** `from M import N [as A]` followed by the statement `A(args, keywords)` yields the single call site (N, M, keyword names). */
  lemma {:induction false} ImportFromThenCall(m: string, al: Alias, args: seq<Expr>, keywords: seq<Keyword>, line: nat)
    requires m != "" && al.name != ""
    requires forall i :: 0 <= i < |args| ==> Atomic(args[i])
    requires forall i :: 0 <= i < |keywords| ==> Atomic(keywords[i].value)
    ensures FileCalls(Some([ImportFrom(Some(m), [al]), ExprStmt(Call(Name(LocalName(al)), args, keywords, line))]))
         == [CallSite(al.name, m, KeywordNames(keywords), line)]
  {
    var k := LocalName(al);
    var call := Call(Name(k), args, keywords, line);
    var p := [ImportFrom(Some(m), [al]), ExprStmt(call)];
    assert p[1..][1..] == [];
    assert MemberBindings(p[1..]) == [];
    assert MemberBindings(p) == [(k, Member(m, al.name))];
    assert PlainBindings(p[1..]) == [];
    assert PlainBindings(p) == [];
    var t := ImportTables(p);
    assert Bindings([(k, Member(m, al.name))]) == map[k := Member(m, al.name)] by {
      assert [(k, Member(m, al.name))][..0] == [];
    }
    assert t.fromImports == map[k := Member(m, al.name)];
    assert t.imports == map[];
    assert ResolveCallee(Name(k), t) == Target(Some(al.name), Some(m));
    AtomicExprsHaveNoCalls(args, t);
    AtomicKeywordsHaveNoCalls(keywords, t);
    assert ExprCalls(Name(k), t) == [];
    assert ExprCalls(call, t) == [CallSite(al.name, m, KeywordNames(keywords), line)];
    assert StmtsCalls(p[1..][1..], t) == [];
    assert StmtsCalls(p[1..], t) == ExprCalls(call, t);
    assert StmtsCalls(p, t) == StmtsCalls(p[1..], t);
  }

  /** The file `import m` followed by the statement `m.f(m.g(k=v))`. */
  function NestedProgram(m: string, f: string, g: string, k: string, v: Expr, line: nat): Tree {
    [Import([Alias(m, None)]),
     ExprStmt(Call(Attribute(Name(m), f), [Call(Attribute(Name(m), g), [], [Keyword(Some(k), v)], line)], [], line))]
  }

  /** A call nested in an argument is recorded too, after the call around it: `m.f(m.g(k=v))` yields (f, m, {}) then (g, m, {k}). */
  lemma {:induction false} NestedCallRecorded(m: string, f: string, g: string, k: string, v: Expr, line: nat)
    requires m != "" && f != "" && g != "" && k != "" && Atomic(v)
    ensures FileCalls(Some(NestedProgram(m, f, g, k, v, line))) == [CallSite(f, m, {}, line), CallSite(g, m, {k}, line)]
  {
    var p := NestedProgram(m, f, g, k, v, line);
    var kws := [Keyword(Some(k), v)];
    var inner := Call(Attribute(Name(m), g), [], kws, line);
    var outer := Call(Attribute(Name(m), f), [inner], [], line);
    assert p[1..][1..] == [];
    assert PlainBindings(p[1..]) == [];
    assert PlainBindings(p) == [(m, m)];
    assert MemberBindings(p[1..]) == [];
    assert MemberBindings(p) == [];
    var t := ImportTables(p);
    assert Bindings([(m, m)]) == map[m := m] by {
      assert [(m, m)][..0] == [];
    }
    assert t.imports == map[m := m];
    assert KeywordNames(kws) == {k} by {
      assert kws[..0] == [];
    }
    AtomicKeywordsHaveNoCalls(kws, t);
    assert ResolveCallee(Attribute(Name(m), g), t) == Target(Some(g), Some(m));
    assert SiteOf(Attribute(Name(m), g), kws, line, t) == [CallSite(g, m, {k}, line)];
    assert ExprCalls(Attribute(Name(m), g), t) == [];
    assert ExprsCalls([], t) == [];
    assert ExprCalls(inner, t) == [CallSite(g, m, {k}, line)];
    assert ResolveCallee(Attribute(Name(m), f), t) == Target(Some(f), Some(m));
    assert KeywordNames([]) == {};
    assert ExprCalls(Attribute(Name(m), f), t) == [];
    assert KeywordsCalls([], t) == [];
    assert ExprsCalls([inner][1..], t) == [];
    assert ExprsCalls([inner], t) == ExprCalls(inner, t);
    assert ExprCalls(outer, t) == [CallSite(f, m, {}, line)] + ExprCalls(inner, t);
    assert StmtsCalls(p[1..], t) == ExprCalls(outer, t);
    assert StmtsCalls(p, t) == StmtsCalls(p[1..], t);
  }
}
