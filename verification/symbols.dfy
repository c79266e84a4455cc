/**
 * The symbol tables of one file (ImportVisitor in src/code_analyzer.py):
 * `imports` maps a local alias to the module a plain `import` bound it to,
 * `fromImports` maps a local alias to the (module, member) pair a
 * `from ... import ...` bound it to. Both are built by visiting every import
 * statement of the tree in order, a later binding of an alias replacing an
 * earlier one.
 */
module Symbols {
  import opened Wrappers
  import opened Syntax

  /** The value `from_imports` stores for `from module import name`. */
  datatype Member = Member(moduleName: string, name: string)

  datatype Tables = Tables(imports: map<string, string>, fromImports: map<string, Member>)

  /** Binding `i` is the last one in `bs` for its key. */
  predicate LastBinding<V>(bs: seq<(string, V)>, i: int)
    requires 0 <= i < |bs|
  {
    forall j :: i < j < |bs| ==> bs[j].0 != bs[i].0
  }

  /** Some pair of `bs` assigns key k. */
  predicate Assigned<V>(bs: seq<(string, V)>, k: string) {
    exists i :: 0 <= i < |bs| && bs[i].0 == k
  }

  /** The dictionary left by assigning `d[k] = v` for every pair of `bs`, in order. */
  function Bindings<V>(bs: seq<(string, V)>): (m: map<string, V>)
    ensures forall k :: k in m <==> Assigned(bs, k)
    ensures forall i :: 0 <= i < |bs| ==> bs[i].0 in m
    ensures forall i :: 0 <= i < |bs| && LastBinding(bs, i) ==> m[bs[i].0] == bs[i].1
  {
    if bs == [] then map[]
    else
      var init, last := bs[..|bs| - 1], bs[|bs| - 1];
      var m0 := Bindings(init);
      assert forall i :: 0 <= i < |init| ==> init[i] == bs[i];
      assert forall i :: 0 <= i < |init| && LastBinding(bs, i) ==> LastBinding(init, i);
      m0[last.0 := last.1]
  }

  /** The pairs `visit_Import` assigns for one statement: `import X` binds X, `import X as Y` binds Y. */
  function ImportPairs(names: seq<Alias>): seq<(string, string)> {
    seq(|names|, i requires 0 <= i < |names| => (LocalName(names[i]), names[i].name))
  }

  /** The pairs `visit_ImportFrom` assigns for one statement; a missing module becomes "". */
  function ImportFromPairs(moduleName: Option<string>, names: seq<Alias>): seq<(string, Member)> {
    seq(|names|, i requires 0 <= i < |names| => (LocalName(names[i]), Member(moduleName.GetOr(""), names[i].name)))
  }

  /** Every plain-import assignment of the tree, in visiting order. */
  function PlainBindings(tree: seq<Stmt>): seq<(string, string)> {
    if tree == [] then []
    else
      (match tree[0]
       case Import(names) => ImportPairs(names)
       case Compound(_, body) => PlainBindings(body)
       case _ => []) + PlainBindings(tree[1..])
  }

  /** Every member-import assignment of the tree, in visiting order. */
  function MemberBindings(tree: seq<Stmt>): seq<(string, Member)> {
    if tree == [] then []
    else
      (match tree[0]
       case ImportFrom(moduleName, names) => ImportFromPairs(moduleName, names)
       case Compound(_, body) => MemberBindings(body)
       case _ => []) + MemberBindings(tree[1..])
  }

  /**
   * The two tables ImportVisitor holds after visiting the whole tree: an
   * alias is bound exactly when some import of the tree, at any depth,
   * assigns it, and it holds the value of the last such assignment.
   */
  function ImportTables(tree: Tree): (r: Tables)
    ensures forall k :: k in r.imports <==> Assigned(PlainBindings(tree), k)
    ensures forall i :: 0 <= i < |PlainBindings(tree)| && LastBinding(PlainBindings(tree), i) ==>
      PlainBindings(tree)[i].0 in r.imports && r.imports[PlainBindings(tree)[i].0] == PlainBindings(tree)[i].1
    ensures forall k :: k in r.fromImports <==> Assigned(MemberBindings(tree), k)
    ensures forall i :: 0 <= i < |MemberBindings(tree)| && LastBinding(MemberBindings(tree), i) ==>
      MemberBindings(tree)[i].0 in r.fromImports && r.fromImports[MemberBindings(tree)[i].0] == MemberBindings(tree)[i].1
  {
    Tables(Bindings(PlainBindings(tree)), Bindings(MemberBindings(tree)))
  }

  lemma {:induction false} PlainBindingsAppend(t1: seq<Stmt>, t2: seq<Stmt>)
    ensures PlainBindings(t1 + t2) == PlainBindings(t1) + PlainBindings(t2)
  {
    if t1 != [] {
      assert (t1 + t2)[0] == t1[0];
      assert (t1 + t2)[1..] == t1[1..] + t2;
      PlainBindingsAppend(t1[1..], t2);
    } else {
      assert t1 + t2 == t2;
    }
  }

  lemma {:induction false} MemberBindingsAppend(t1: seq<Stmt>, t2: seq<Stmt>)
    ensures MemberBindings(t1 + t2) == MemberBindings(t1) + MemberBindings(t2)
  {
    if t1 != [] {
      assert (t1 + t2)[0] == t1[0];
      assert (t1 + t2)[1..] == t1[1..] + t2;
      MemberBindingsAppend(t1[1..], t2);
    } else {
      assert t1 + t2 == t2;
    }
  }

  /** Assigning one more pair updates exactly that key. */
  lemma BindingsSnoc<V>(bs: seq<(string, V)>, b: (string, V))
    ensures Bindings(bs + [b]) == Bindings(bs)[b.0 := b.1]
  {
    assert (bs + [b])[..|bs|] == bs;
  }

  /**
   * Visiting one more `import X [as Y]` statement binds the alias to the
   * module (Y to X, or X to X without `as`), overwriting an earlier binding of
   * the same alias, and leaves the member-import table alone.
   */
  lemma ImportBinds(tree: Tree, a: Alias)
    ensures a.asname.Some? && a.asname.value != "" ==>
      ImportTables(tree + [Import([a])]).imports == ImportTables(tree).imports[a.asname.value := a.name]
    ensures a.asname.None? ==>
      ImportTables(tree + [Import([a])]).imports == ImportTables(tree).imports[a.name := a.name]
    ensures ImportTables(tree + [Import([a])]).fromImports == ImportTables(tree).fromImports
  {
    var s := [Import([a])];
    PlainBindingsAppend(tree, s);
    MemberBindingsAppend(tree, s);
    assert PlainBindings(s) == [(LocalName(a), a.name)];
    assert MemberBindings(s) == [];
    assert MemberBindings(tree) + [] == MemberBindings(tree);
    BindingsSnoc(PlainBindings(tree), (LocalName(a), a.name));
  }

  /**
   * Visiting one more `from M import N [as A]` statement binds A (or N) to
   * the pair (M, N), with a missing M read as "", overwriting an earlier
   * binding of the same alias, and leaves the plain-import table alone.
   */
  lemma ImportFromBinds(tree: Tree, moduleName: Option<string>, a: Alias)
    ensures a.asname.Some? && a.asname.value != "" ==>
      ImportTables(tree + [ImportFrom(moduleName, [a])]).fromImports
        == ImportTables(tree).fromImports[a.asname.value := Member(moduleName.GetOr(""), a.name)]
    ensures a.asname.None? ==>
      ImportTables(tree + [ImportFrom(moduleName, [a])]).fromImports
        == ImportTables(tree).fromImports[a.name := Member(moduleName.GetOr(""), a.name)]
    ensures ImportTables(tree + [ImportFrom(moduleName, [a])]).imports == ImportTables(tree).imports
  {
    var s := [ImportFrom(moduleName, [a])];
    PlainBindingsAppend(tree, s);
    MemberBindingsAppend(tree, s);
    assert MemberBindings(s) == [(LocalName(a), Member(moduleName.GetOr(""), a.name))];
    assert PlainBindings(s) == [];
    assert PlainBindings(tree) + [] == PlainBindings(tree);
    BindingsSnoc(MemberBindings(tree), (LocalName(a), Member(moduleName.GetOr(""), a.name)));
  }

  /**
   * `generic_visit` reaches imports nested in other statements: an import
   * inside a function or block body binds exactly as if it stood at the
   * place of that statement.
   */
  lemma {:induction false} NestedImportsBind(tree: Tree, exprs: seq<Expr>, body: seq<Stmt>)
    ensures ImportTables(tree + [Compound(exprs, body)]) == ImportTables(tree + body)
  {
    var s := [Compound(exprs, body)];
    PlainBindingsAppend(tree, s);
    MemberBindingsAppend(tree, s);
    PlainBindingsAppend(tree, body);
    MemberBindingsAppend(tree, body);
    assert s[1..] == [];
    assert PlainBindings(s) == PlainBindings(body) + [];
    assert MemberBindings(s) == MemberBindings(body) + [];
    assert PlainBindings(tree + s) == PlainBindings(tree + body);
    assert MemberBindings(tree + s) == MemberBindings(tree + body);
  }
}
