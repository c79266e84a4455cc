/**
 * The usage aggregate (the folds of CodeAnalyzer.analyze_codebase and
 * CodeAnalyzer.analyze_code_string in src/code_analyzer.py): call sites are
 * attributed to the library owning their module and merged per library and
 * function into the union of their keyword names and a call count.
 */
module Usage {
  import opened Wrappers
  import opened Syntax
  import opened Symbols
  import opened Calls
  import opened Libraries

  /** What is known about one function of one library: the keyword names ever used, and how often it was called. */
  datatype FunctionUsage = FunctionUsage(arguments: set<string>, calls: nat)

  type LibraryUsage = map<string, FunctionUsage>

  /** Library name -> function name -> usage. */
  type UsageMap = map<string, LibraryUsage>

  /** Call site s counts towards function fn of library lib. */
  predicate Attributed(table: PatternTable, s: CallSite, lib: string, fn: string) {
    ResolveLibraryName(table, s.moduleName) == Some(lib) && s.functionName == fn
  }

  /** The number of sites that count towards (lib, fn). */
  function Occurrences(table: PatternTable, sites: seq<CallSite>, lib: string, fn: string): nat {
    if sites == [] then 0
    else
      Occurrences(table, sites[..|sites| - 1], lib, fn)
        + (if Attributed(table, sites[|sites| - 1], lib, fn) then 1 else 0)
  }

  /** The entry for (lib, fn) in u, or the empty entry Python's defaultdict would create. */
  function Entry(u: UsageMap, lib: string, fn: string): FunctionUsage {
    if lib in u && fn in u[lib] then u[lib][fn] else FunctionUsage({}, 0)
  }

  /**
   * Merges one call site into the entry (lib, s.functionName), creating it
   * if needed: the keyword names are added to its arguments and its count
   * goes up by one; every other entry is left as it was.
   */
  function Record(u: UsageMap, lib: string, s: CallSite): (r: UsageMap)
    ensures r.Keys == u.Keys + {lib}
    ensures forall l :: l in u && l != lib ==> r[l] == u[l]
    ensures r[lib].Keys == (if lib in u then u[lib].Keys else {}) + {s.functionName}
    ensures forall f :: f in r[lib] && f != s.functionName ==> r[lib][f] == u[lib][f]
    ensures r[lib][s.functionName].arguments == Entry(u, lib, s.functionName).arguments + s.arguments
    ensures r[lib][s.functionName].calls == Entry(u, lib, s.functionName).calls + 1
  {
    var fns := if lib in u then u[lib] else map[];
    var prev := if s.functionName in fns then fns[s.functionName] else FunctionUsage({}, 0);
    u[lib := fns[s.functionName := FunctionUsage(prev.arguments + s.arguments, prev.calls + 1)]]
  }

  /** The aggregate of a sequence of call sites, folded in order; sites whose module resolves to no library are dropped. */
  function Aggregate(table: PatternTable, sites: seq<CallSite>): (r: UsageMap)
    ensures forall lib :: lib in r ==> r[lib] != map[]
    ensures forall lib, fn :: lib in r && fn in r[lib] ==> r[lib][fn].calls >= 1
  {
    if sites == [] then map[]
    else
      var s := sites[|sites| - 1];
      var u0 := Aggregate(table, sites[..|sites| - 1]);
      match ResolveLibraryName(table, s.moduleName)
      case None => u0
      case Some(lib) => Record(u0, lib, s)
  }

  /** Some call site resolves to library lib. */
  predicate Claimed(table: PatternTable, sites: seq<CallSite>, lib: string) {
    exists s :: s in sites && ResolveLibraryName(table, s.moduleName) == Some(lib)
  }

  /** Some call site counts towards (lib, fn). */
  predicate Called(table: PatternTable, sites: seq<CallSite>, lib: string, fn: string) {
    exists s :: s in sites && Attributed(table, s, lib, fn)
  }

  /** Some call site counting towards (lib, fn) passes keyword x. */
  predicate Passed(table: PatternTable, sites: seq<CallSite>, lib: string, fn: string, x: string) {
    exists s :: s in sites && Attributed(table, s, lib, fn) && x in s.arguments
  }

  /** Where a site sits in the sequence does not matter to the three predicates above. */
  lemma WitnessesAppend(table: PatternTable, a: seq<CallSite>, b: seq<CallSite>, lib: string, fn: string, x: string)
    ensures Claimed(table, a + b, lib) <==> Claimed(table, a, lib) || Claimed(table, b, lib)
    ensures Called(table, a + b, lib, fn) <==> Called(table, a, lib, fn) || Called(table, b, lib, fn)
    ensures Passed(table, a + b, lib, fn, x) <==> Passed(table, a, lib, fn, x) || Passed(table, b, lib, fn, x)
  {
  }

  lemma WitnessesSingleton(table: PatternTable, s: CallSite, lib: string, fn: string, x: string)
    ensures Claimed(table, [s], lib) <==> ResolveLibraryName(table, s.moduleName) == Some(lib)
    ensures Called(table, [s], lib, fn) <==> Attributed(table, s, lib, fn)
    ensures Passed(table, [s], lib, fn, x) <==> Attributed(table, s, lib, fn) && x in s.arguments
  {
    assert s in [s];
  }

  lemma SnocSplit(sites: seq<CallSite>)
    requires sites != []
    ensures sites == sites[..|sites| - 1] + [sites[|sites| - 1]]
  {
  }

  /** A library is a key of the aggregate exactly when some call site resolves to it. */
  lemma {:induction false} AggregateLibraries(table: PatternTable, sites: seq<CallSite>, lib: string)
    ensures lib in Aggregate(table, sites) <==> Claimed(table, sites, lib)
  {
    if sites != [] {
      AggregateLibraries(table, sites[..|sites| - 1], lib);
      SnocSplit(sites);
      WitnessesAppend(table, sites[..|sites| - 1], [sites[|sites| - 1]], lib, "", "");
      WitnessesSingleton(table, sites[|sites| - 1], lib, "", "");
    }
  }

  /** A function is a key of a library's map exactly when some call site counts towards the pair. */
  lemma {:induction false} AggregateFunctions(table: PatternTable, sites: seq<CallSite>, lib: string, fn: string)
    ensures lib in Aggregate(table, sites) && fn in Aggregate(table, sites)[lib] <==> Called(table, sites, lib, fn)
  {
    if sites != [] {
      AggregateFunctions(table, sites[..|sites| - 1], lib, fn);
      SnocSplit(sites);
      WitnessesAppend(table, sites[..|sites| - 1], [sites[|sites| - 1]], lib, fn, "");
      WitnessesSingleton(table, sites[|sites| - 1], lib, fn, "");
    }
  }

  /** The arguments of an entry are the union of the keyword names of the call sites counting towards it. */
  lemma {:induction false} AggregateArguments(table: PatternTable, sites: seq<CallSite>, lib: string, fn: string, x: string)
    requires lib in Aggregate(table, sites) && fn in Aggregate(table, sites)[lib]
    ensures x in Aggregate(table, sites)[lib][fn].arguments <==> Passed(table, sites, lib, fn, x)
  {
    if sites != [] {
      var init := sites[..|sites| - 1];
      var u0 := Aggregate(table, init);
      SnocSplit(sites);
      WitnessesAppend(table, init, [sites[|sites| - 1]], lib, fn, x);
      WitnessesSingleton(table, sites[|sites| - 1], lib, fn, x);
      if lib in u0 && fn in u0[lib] {
        AggregateArguments(table, init, lib, fn, x);
      } else {
        AggregateFunctions(table, init, lib, fn);
        assert !Passed(table, init, lib, fn, x);
      }
    }
  }

  /** The count of an entry is the number of call sites counting towards it; a missing entry has none. */
  lemma {:induction false} AggregateCalls(table: PatternTable, sites: seq<CallSite>, lib: string, fn: string)
    ensures Entry(Aggregate(table, sites), lib, fn).calls == Occurrences(table, sites, lib, fn)
  {
    if sites != [] {
      AggregateCalls(table, sites[..|sites| - 1], lib, fn);
    }
  }

  /** Occurrences add up over a concatenation. */
  lemma {:induction false} OccurrencesAppend(table: PatternTable, a: seq<CallSite>, b: seq<CallSite>, lib: string, fn: string)
    ensures Occurrences(table, a + b, lib, fn) == Occurrences(table, a, lib, fn) + Occurrences(table, b, lib, fn)
  {
    if b == [] {
      assert a + b == a;
    } else {
      var b' := b[..|b| - 1];
      assert (a + b)[..|a + b| - 1] == a + b';
      OccurrencesAppend(table, a, b', lib, fn);
    }
  }

  /**
   * The aggregate does not depend on the order in which call sites (or whole
   * files) are folded in: swapping two batches gives the same aggregate.
   */
  lemma {:induction false} AggregateOrderIndependent(table: PatternTable, a: seq<CallSite>, b: seq<CallSite>)
    ensures Aggregate(table, a + b) == Aggregate(table, b + a)
  {
    var u1: UsageMap, u2: UsageMap := Aggregate(table, a + b), Aggregate(table, b + a);
    forall lib: string
      ensures lib in u1 <==> lib in u2
    {
      AggregateLibraries(table, a + b, lib);
      AggregateLibraries(table, b + a, lib);
      WitnessesAppend(table, a, b, lib, "", "");
      WitnessesAppend(table, b, a, lib, "", "");
    }
    forall lib | lib in u1
      ensures u1[lib] == u2[lib]
    {
      forall fn: string
        ensures fn in u1[lib] <==> fn in u2[lib]
      {
        AggregateFunctions(table, a + b, lib, fn);
        AggregateFunctions(table, b + a, lib, fn);
        WitnessesAppend(table, a, b, lib, fn, "");
        WitnessesAppend(table, b, a, lib, fn, "");
      }
      forall fn | fn in u1[lib]
        ensures u1[lib][fn] == u2[lib][fn]
      {
        forall x: string
          ensures x in u1[lib][fn].arguments <==> x in u2[lib][fn].arguments
        {
          AggregateArguments(table, a + b, lib, fn, x);
          AggregateArguments(table, b + a, lib, fn, x);
          WitnessesAppend(table, a, b, lib, fn, x);
          WitnessesAppend(table, b, a, lib, fn, x);
        }
        AggregateCalls(table, a + b, lib, fn);
        AggregateCalls(table, b + a, lib, fn);
        OccurrencesAppend(table, a, b, lib, fn);
        OccurrencesAppend(table, b, a, lib, fn);
      }
    }
  }

  /**
   * Processing more call sites only grows the aggregate: every library and
   * function stays, argument sets only gain names, counts only increase.
   * A partial aggregate is the aggregate of the sites seen so far.
   */
  lemma {:induction false} AggregateGrows(table: PatternTable, sites: seq<CallSite>, more: seq<CallSite>, lib: string, fn: string)
    requires lib in Aggregate(table, sites) && fn in Aggregate(table, sites)[lib]
    ensures lib in Aggregate(table, sites + more) && fn in Aggregate(table, sites + more)[lib]
    ensures Aggregate(table, sites)[lib][fn].arguments <= Aggregate(table, sites + more)[lib][fn].arguments
    ensures Aggregate(table, sites)[lib][fn].calls <= Aggregate(table, sites + more)[lib][fn].calls
  {
    var u1: UsageMap, u2: UsageMap := Aggregate(table, sites), Aggregate(table, sites + more);
    AggregateFunctions(table, sites, lib, fn);
    AggregateFunctions(table, sites + more, lib, fn);
    WitnessesAppend(table, sites, more, lib, fn, "");
    forall x: string | x in u1[lib][fn].arguments
      ensures x in u2[lib][fn].arguments
    {
      AggregateArguments(table, sites, lib, fn, x);
      AggregateArguments(table, sites + more, lib, fn, x);
      WitnessesAppend(table, sites, more, lib, fn, x);
    }
    AggregateCalls(table, sites, lib, fn);
    AggregateCalls(table, sites + more, lib, fn);
    OccurrencesAppend(table, sites, more, lib, fn);
  }

  /** The call sites of all files, file after file; a file that failed to parse contributes none. */
  function CodebaseCalls(files: seq<Option<Tree>>): seq<CallSite> {
    if files == [] then [] else FileCalls(files[0]) + CodebaseCalls(files[1..])
  }

  /** `analyze_codebase` with the directory walk abstracted to the sequence of parsed files. */
  function AnalyzeCodebase(table: PatternTable, files: seq<Option<Tree>>): (r: UsageMap)
    ensures forall lib :: lib in r ==> r[lib] != map[]
    ensures forall lib, fn :: lib in r && fn in r[lib] ==> r[lib][fn].calls >= 1
  {
    Aggregate(table, CodebaseCalls(files))
  }

  lemma {:induction false} CodebaseCallsAppend(f1: seq<Option<Tree>>, f2: seq<Option<Tree>>)
    ensures CodebaseCalls(f1 + f2) == CodebaseCalls(f1) + CodebaseCalls(f2)
  {
    if f1 == [] {
      assert f1 + f2 == f2;
    } else {
      assert (f1 + f2)[0] == f1[0];
      assert (f1 + f2)[1..] == f1[1..] + f2;
      CodebaseCallsAppend(f1[1..], f2);
    }
  }

  /** A file that failed to parse contributes nothing: removing it leaves the aggregate unchanged. */
  lemma {:induction false} UnparsableFileIgnored(table: PatternTable, files: seq<Option<Tree>>, k: nat)
    requires k < |files| && files[k].None?
    ensures AnalyzeCodebase(table, files) == AnalyzeCodebase(table, files[..k] + files[k + 1..])
  {
    var pre, post := files[..k], files[k + 1..];
    assert files == pre + ([files[k]] + post);
    assert CodebaseCalls([files[k]]) == [] by {
      assert [files[k]][1..] == [];
    }
    calc {
      CodebaseCalls(files);
      { CodebaseCallsAppend(pre, [files[k]] + post); }
      CodebaseCalls(pre) + CodebaseCalls([files[k]] + post);
      { CodebaseCallsAppend([files[k]], post); }
      CodebaseCalls(pre) + ([] + CodebaseCalls(post));
      { assert [] + CodebaseCalls(post) == CodebaseCalls(post); }
      CodebaseCalls(pre) + CodebaseCalls(post);
      { CodebaseCallsAppend(pre, post); }
      CodebaseCalls(pre + post);
    }
  }

  /**
   * `analyze_codebase` adds no import-only libraries: every library in its
   * result has at least one called function.
   */
  lemma {:induction false} CodebaseLibrariesAreCalled(table: PatternTable, files: seq<Option<Tree>>, lib: string)
    requires lib in AnalyzeCodebase(table, files)
    ensures AnalyzeCodebase(table, files)[lib] != map[]
  {
    var sites := CodebaseCalls(files);
    AggregateLibraries(table, sites, lib);
    var s :| s in sites && ResolveLibraryName(table, s.moduleName) == Some(lib);
    AggregateFunctions(table, sites, lib, s.functionName);
    assert s.functionName in AnalyzeCodebase(table, files)[lib];
  }

  /** Some import of the file (plain or member) names a module that resolves to lib. */
  predicate ImportsLibrary(table: PatternTable, t: Tables, lib: string) {
    || (exists alias :: alias in t.imports && ResolveLibraryName(table, t.imports[alias]) == Some(lib))
    || (exists alias :: alias in t.fromImports && ResolveLibraryName(table, t.fromImports[alias].moduleName) == Some(lib))
  }

  /** The libraries owning a module some import of the file binds. */
  function ImportedLibraries(table: PatternTable, t: Tables): (r: set<string>)
    ensures forall lib :: lib in r <==> ImportsLibrary(table, t, lib)
  {
    (set m | m in t.imports.Values && ResolveLibraryName(table, m).Some? :: ResolveLibraryName(table, m).value)
      + (set mem | mem in t.fromImports.Values && ResolveLibraryName(table, mem.moduleName).Some?
                 :: ResolveLibraryName(table, mem.moduleName).value)
  }

  /**
   * `analyze_code_string`: the aggregate of the file's call sites, plus an
   * empty function map for every library the file imports without calling
   * it. A file that failed to parse gives the empty result.
   */
  function AnalyzeCodeString(table: PatternTable, parsed: Option<Tree>): (r: UsageMap)
    ensures parsed.None? ==> r == map[]
    ensures forall lib :: lib in r <==>
      || Claimed(table, FileCalls(parsed), lib)
      || (parsed.Some? && ImportsLibrary(table, ImportTables(parsed.value), lib))
    ensures forall lib :: lib in Aggregate(table, FileCalls(parsed)) ==>
      lib in r && r[lib] == Aggregate(table, FileCalls(parsed))[lib]
    ensures forall lib :: lib in r && lib !in Aggregate(table, FileCalls(parsed)) ==> r[lib] == map[]
  {
    match parsed
    case None => map[]
    case Some(tree) =>
      var sites := FileCalls(parsed);
      var u := Aggregate(table, sites);
      var imported := ImportedLibraries(table, ImportTables(tree));
      AggregateKeys(table, sites);
      WithImportOnly(u, imported)
  }

  /** Adds an empty function map for every imported library that is not yet a key. */
  function WithImportOnly(u: UsageMap, imported: set<string>): (r: UsageMap)
    ensures r.Keys == u.Keys + imported
    ensures forall lib :: lib in u ==> r[lib] == u[lib]
    ensures forall lib :: lib in r && lib !in u ==> r[lib] == map[]
  {
    u + map lib | lib in imported && lib !in u :: map[]
  }

  /** The keys of the aggregate, all at once. */
  lemma AggregateKeys(table: PatternTable, sites: seq<CallSite>)
    ensures forall lib :: lib in Aggregate(table, sites) <==> Claimed(table, sites, lib)
  {
    forall lib {
      AggregateLibraries(table, sites, lib);
    }
  }

  /** A file that calls every library it imports is summarised by its call sites alone. */
  lemma AnalyzeIsAggregateWhenAllCalled(table: PatternTable, tree: Tree)
    requires forall lib :: ImportsLibrary(table, ImportTables(tree), lib) ==> lib in Aggregate(table, FileCalls(Some(tree)))
    ensures AnalyzeCodeString(table, Some(tree)) == Aggregate(table, FileCalls(Some(tree)))
  {
    var u: UsageMap := Aggregate(table, FileCalls(Some(tree)));
    var r: UsageMap := AnalyzeCodeString(table, Some(tree));
    AggregateKeys(table, FileCalls(Some(tree)));
    assert r.Keys == u.Keys;
  }

  /** A file without calls reports exactly the libraries it imports, each with no functions. */
  lemma ImportOnlyFile(table: PatternTable, tree: Tree)
    requires FileCalls(Some(tree)) == []
    ensures AnalyzeCodeString(table, Some(tree)).Keys == ImportedLibraries(table, ImportTables(tree))
    ensures forall lib :: lib in AnalyzeCodeString(table, Some(tree)) ==> AnalyzeCodeString(table, Some(tree))[lib] == map[]
  {
    assert Aggregate(table, []) == map[];
  }
}
