/**
 * Worked examples: a small file run through the whole pipeline, the pin
 * chosen among equal and near-equal versions, and the module-name boundary.
 */
module Scenarios {
  import opened Wrappers
  import opened Syntax
  import opened Symbols
  import opened Calls
  import opened Libraries
  import opened Usage
  import opened Pep440
  import opened VersionMatcher

  const Table: PatternTable := [Library("mathlib", ["mathlib"]), Library("alpha", ["alpha"])]

  /** `import mathlib as ml` then, on line 2, `ml.compute(x, precision=p)`. */
  const Program: Tree := AliasedProgram("mathlib", "ml", "compute", [Name("x")], [Keyword(Some("precision"), Name("p"))], 2)

  const Sites: seq<CallSite> := [CallSite("compute", "mathlib", {"precision"}, 2)]

  const ProgramUsageMap: UsageMap := map["mathlib" := map["compute" := FunctionUsage({"precision"}, 1)]]

  /** The alias is looked through: the call is attributed to module mathlib with keyword precision. */
  lemma ProgramCalls()
    ensures FileCalls(Some(Program)) == Sites
  {
    var keywords := [Keyword(Some("precision"), Name("p"))];
    AliasTransparency("mathlib", "ml", "compute", [Name("x")], keywords, 2);
    assert KeywordNames(keywords) == {"precision"};
  }

  lemma SitesUsage()
    ensures Aggregate(Table, Sites) == ProgramUsageMap
  {
    assert Sites[..0] == [];
    assert ResolveLibraryName(Table, "mathlib") == Some("mathlib");
    assert Aggregate(Table, Sites) == Record(map[], "mathlib", Sites[0]);
    assert {} + {"precision"} == {"precision"};
  }

  lemma ProgramTables()
    ensures ImportTables(Program) == Tables(map["ml" := "mathlib"], map[])
  {
    assert PlainBindings(Program) == [("ml", "mathlib")];
    assert MemberBindings(Program) == [];
  }

  lemma ProgramUsage()
    ensures AnalyzeCodeString(Table, Some(Program)) == ProgramUsageMap
  {
    ProgramCalls();
    SitesUsage();
    ProgramTables();
    var t := ImportTables(Program);
    forall lib | ImportsLibrary(Table, t, lib)
      ensures lib in Aggregate(Table, FileCalls(Some(Program)))
    {
      assert ResolveLibraryName(Table, "mathlib") == Some("mathlib");
    }
    AnalyzeIsAggregateWhenAllCalled(Table, Program);
  }

  /**
   * Four catalogued versions of mathlib: 1.0 lacks the keyword precision,
   * 2.0 has it, 1.5 accepts any keyword through kwargs, 0.9 has no compute.
   */
  const Catalog: VersionMatcher.Catalog := map["mathlib" := LibraryData(Some([
    VersionEntry("1.0", map["compute" := Signature(Some(["x"]))]),
    VersionEntry("2.0", map["compute" := Signature(Some(["x", "precision"]))]),
    VersionEntry("1.5", map["compute" := Signature(Some(["x", "kwargs"]))]),
    VersionEntry("0.9", map[])
  ]))]

  /** What a version parser must return for the two catalogued versions that pass. */
  predicate ParsesCatalog(parse: string -> Version) {
    && parse("2.0") == Version(0, [2, 0], None, None, None)
    && parse("1.5") == Version(0, [1, 5], None, None, None)
  }

  /** What a version parser must return for 1.10, 1.9, 1.10rc1 and 1.10.0. */
  predicate ParsesTieBreak(parse: string -> Version) {
    && parse("1.10") == Version(0, [1, 10], None, None, None)
    && parse("1.9") == Version(0, [1, 9], None, None, None)
    && parse("1.10rc1") == Version(0, [1, 10], Some((Rc, 1)), None, None)
    && parse("1.10.0") == Version(0, [1, 10, 0], None, None, None)
  }

  /** A stand-in for `packaging.version.parse` on the version strings used here. */
  function DemoParse(s: string): Version {
    if s == "2.0" then Version(0, [2, 0], None, None, None)
    else if s == "1.5" then Version(0, [1, 5], None, None, None)
    else if s == "1.9" then Version(0, [1, 9], None, None, None)
    else if s == "1.10" then Version(0, [1, 10], None, None, None)
    else if s == "1.10.0" then Version(0, [1, 10, 0], None, None, None)
    else if s == "1.10rc1" then Version(0, [1, 10], Some((Rc, 1)), None, None)
    else Version(0, [0], None, None, None)
  }

  lemma DemoParseFits()
    ensures ParsesCatalog(DemoParse) && ParsesTieBreak(DemoParse)
  {
  }

  const ComputeCalls: LibraryUsage := map["compute" := FunctionUsage({"precision"}, 1)]

  lemma MissingKeywordRejected()
    ensures !VersionSupportsCalls(map["compute" := Signature(Some(["x"]))], ComputeCalls)
  {
    assert Parameters(Signature(Some(["x"]))) == {"x"};
    assert !FunctionCompatibleInVersion("compute", ComputeCalls["compute"], map["compute" := Signature(Some(["x"]))]);
  }

  lemma KnownKeywordAccepted()
    ensures VersionSupportsCalls(map["compute" := Signature(Some(["x", "precision"]))], ComputeCalls)
  {
    assert "precision" in Parameters(Signature(Some(["x", "precision"])));
  }

  lemma KwargsAccepted()
    ensures VersionSupportsCalls(map["compute" := Signature(Some(["x", "kwargs"]))], ComputeCalls)
  {
    assert "kwargs" in Parameters(Signature(Some(["x", "kwargs"])));
  }

  lemma MissingFunctionRejected()
    ensures !VersionSupportsCalls(map[], ComputeCalls)
  {
    assert "compute" in ComputeCalls;
  }

  lemma CatalogCompatible()
    ensures FindCompatibleVersions(Catalog, "mathlib", ProgramUsageMap["mathlib"]) == ["2.0", "1.5"]
  {
    var es := Entries(Catalog["mathlib"]);
    assert ProgramUsageMap["mathlib"] == ComputeCalls;
    MissingKeywordRejected();
    KnownKeywordAccepted();
    KwargsAccepted();
    MissingFunctionRejected();
    assert CompatibleAmong(es[3..], ComputeCalls) == [];
    assert CompatibleAmong(es[2..], ComputeCalls) == ["1.5"];
    assert CompatibleAmong(es[1..], ComputeCalls) == ["2.0", "1.5"];
  }

  lemma CatalogPin(parse: string -> Version)
    requires ParsesCatalog(parse)
    ensures ResolveVersionConstraints(["2.0", "1.5"], parse) == Some("==2.0")
  {
    assert StripZeros([2, 0]) == [2];
    assert Key(parse("1.5")) == [0, 2, 6, 0, 2, 0, 1];
    assert Key(parse("2.0")) == [0, 3, 0, 2, 0, 1];
    assert Less(parse("1.5"), parse("2.0"));
    assert LatestIndex(["2.0"], parse) == 0;
    assert ["2.0", "1.5"][..1] == ["2.0"];
    assert LatestIndex(["2.0", "1.5"], parse) == 0;
    assert ResolveVersionConstraints(["2.0", "1.5"], parse) == Some("==" + "2.0");
    assert "==" + "2.0" == "==2.0";
  }

  lemma CatalogMatch(parse: string -> Version)
    requires ParsesCatalog(parse)
    ensures MatchCodebaseRequirements(Catalog, ProgramUsageMap, parse).Keys == {"mathlib"}
    ensures MatchCodebaseRequirements(Catalog, ProgramUsageMap, parse)["mathlib"] == "==2.0"
  {
    CatalogCompatible();
    CatalogPin(parse);
    assert ProgramUsageMap == map["mathlib" := ComputeCalls];
    MatchSingleLibrary(Catalog, "mathlib", ComputeCalls, parse);
  }

  /** From the file to the requirement: `import mathlib as ml; ml.compute(x, precision=p)` pins mathlib==2.0. */
  lemma EndToEnd(parse: string -> Version)
    requires ParsesCatalog(parse)
    ensures MatchCodebaseRequirements(Catalog, AnalyzeCodeString(Table, Some(Program)), parse).Keys == {"mathlib"}
    ensures MatchCodebaseRequirements(Catalog, AnalyzeCodeString(Table, Some(Program)), parse)["mathlib"] == "==2.0"
  {
    ProgramUsage();
    CatalogMatch(parse);
  }

  lemma TieBreakKeys(parse: string -> Version)
    requires ParsesTieBreak(parse)
    ensures Key(parse("1.10")) == [0, 2, 11, 0, 2, 0, 1]
    ensures Key(parse("1.9")) == [0, 2, 10, 0, 2, 0, 1]
    ensures Key(parse("1.10rc1")) == [0, 2, 11, 0, 1, 2, 1, 0, 1]
    ensures Key(parse("1.10.0")) == [0, 2, 11, 0, 2, 0, 1]
  {
    assert StripZeros([1, 10, 0]) == [1, 10];
  }

  lemma TieBreakFirstTwo(parse: string -> Version)
    requires ParsesTieBreak(parse)
    ensures LatestIndex(["1.10", "1.9"], parse) == 0
  {
    TieBreakKeys(parse);
    assert ["1.10", "1.9"][..1] == ["1.10"];
    assert Less(parse("1.9"), parse("1.10"));
  }

  lemma TieBreakFirstThree(parse: string -> Version)
    requires ParsesTieBreak(parse)
    ensures LatestIndex(["1.10", "1.9", "1.10rc1"], parse) == 0
  {
    TieBreakKeys(parse);
    TieBreakFirstTwo(parse);
    assert ["1.10", "1.9", "1.10rc1"][..2] == ["1.10", "1.9"];
    assert Less(parse("1.10rc1"), parse("1.10"));
  }

  lemma TieBreakAll(parse: string -> Version)
    requires ParsesTieBreak(parse)
    ensures LatestIndex(["1.10", "1.9", "1.10rc1", "1.10.0"], parse) == 3
  {
    var vs := ["1.10", "1.9", "1.10rc1", "1.10.0"];
    TieBreakFirstThree(parse);
    assert vs[..3] == ["1.10", "1.9", "1.10rc1"];
    assert !Less(parse("1.10.0"), parse("1.10")) by {
      TieBreakKeys(parse);
      LexIrreflexive(Key(parse("1.10")));
    }
  }

  /**
   * 1.10 and 1.10.0 are equal and above 1.9 and 1.10rc1; of the two equal
   * greatest versions the one listed last is pinned.
   */
  lemma StableTieBreak(parse: string -> Version)
    requires ParsesTieBreak(parse)
    ensures ResolveVersionConstraints(["1.10", "1.9", "1.10rc1", "1.10.0"], parse) == Some("==1.10.0")
  {
    TieBreakAll(parse);
    assert "==" + "1.10.0" == "==1.10.0";
  }

  /** `import alpha` and nothing else. */
  const ImportOnly: Tree := [Import([Alias("alpha", None)])]

  lemma ImportOnlyFacts()
    ensures FileCalls(Some(ImportOnly)) == []
    ensures ImportTables(ImportOnly) == Tables(map["alpha" := "alpha"], map[])
  {
    assert PlainBindings(ImportOnly) == [("alpha", "alpha")];
    assert MemberBindings(ImportOnly) == [];
  }

  lemma ImportOnlyLibraries()
    ensures ImportedLibraries(Table, Tables(map["alpha" := "alpha"], map[])) == {"alpha"}
  {
    var t := Tables(map["alpha" := "alpha"], map[]);
    assert t.imports.Values == {"alpha"} by {
      assert "alpha" in t.imports && t.imports["alpha"] == "alpha";
      forall v | v in t.imports.Values
        ensures v == "alpha"
      {
        var k :| k in t.imports && t.imports[k] == v;
      }
    }
    assert t.fromImports.Values == {};
    assert ResolveLibraryName(Table, "alpha") == Some("alpha");
  }

  /** An imported but uncalled library is reported with an empty function map. */
  lemma ImportOnlyUsage()
    ensures AnalyzeCodeString(Table, Some(ImportOnly)).Keys == {"alpha"}
    ensures AnalyzeCodeString(Table, Some(ImportOnly))["alpha"] == map[]
  {
    ImportOnlyFacts();
    ImportOnlyLibraries();
    ImportOnlyFile(Table, ImportOnly);
  }

  /** No module starting with 'a' is a submodule of mathlib. */
  lemma MathlibClaimsNoA(m: string)
    requires m != [] && m[0] == 'a'
    ensures !ClaimsSubmodule(Table[0], m)
  {
    forall root | root in Table[0].roots
      ensures !DottedPrefix(root, m)
    {
      assert root == "mathlib";
      assert (root + ".")[0] == 'm';
      if |root + "."| <= |m| {
        assert m[..|root + "."|][0] == 'a';
      }
    }
  }

  /** A dotted submodule belongs to its root library. */
  lemma SubmoduleClaimed()
    ensures ResolveLibraryName(Table, "alpha.sub") == Some("alpha")
  {
    DottedBoundary("alpha", "sub");
    assert "alpha" + "." + "sub" == "alpha.sub";
    assert ClaimsSubmodule(Table[1], "alpha.sub") by {
      assert "alpha" in Table[1].roots;
    }
    MathlibClaimsNoA("alpha.sub");
    assert FirstExact(Table, "alpha.sub", 0) == None;
    assert FirstSubmodule(Table, "alpha.sub", 0) == Some(1);
  }

  /** A longer name that merely shares the root's letters belongs to no library. */
  lemma LookalikeUnclaimed()
    ensures ResolveLibraryName(Table, "alphabeta") == None
  {
    DottedBoundary("alpha", "beta");
    assert "alpha" + "beta" == "alphabeta";
    assert !ClaimsSubmodule(Table[1], "alphabeta") by {
      assert Table[1].roots == ["alpha"];
    }
    MathlibClaimsNoA("alphabeta");
    assert FirstExact(Table, "alphabeta", 0) == None;
    assert FirstSubmodule(Table, "alphabeta", 0) == None;
  }
}
