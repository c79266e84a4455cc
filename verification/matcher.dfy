/**
 * The version matcher: given what a library's functions were called with,
 * keep the catalogued versions whose recorded signatures accept every call,
 * and pin the newest of them as `==<version>`.
 */
module VersionMatcher {
  import opened Wrappers
  import opened Calls
  import opened Libraries
  import opened Usage
  import opened Pep440

  /** A catalogued function signature; `parameters` may be missing from the record. */
  datatype Signature = Signature(parameters: Option<seq<string>>)

  /** One catalogued version: its version string and function name -> signature. */
  datatype VersionEntry = VersionEntry(version: string, signatures: map<string, Signature>)

  /** A catalogued library; `versions` may be missing, and lists the entries in catalog order. */
  datatype LibraryData = LibraryData(versions: Option<seq<VersionEntry>>)

  /** Library name -> catalogued data. */
  type Catalog = map<string, LibraryData>

  /** The parameter names of a signature, none when the record lists none. */
  function Parameters(sig: Signature): (r: set<string>)
    ensures forall p :: p in r <==> sig.parameters.Some? && p in sig.parameters.value
  {
    set p | p in sig.parameters.GetOr([])
  }

  /** The catalogued versions of a library entry, none when the record lists none. */
  function Entries(data: LibraryData): seq<VersionEntry> {
    data.versions.GetOr([])
  }

  /**
   * A function's observed use is accepted by a version's signatures: the
   * function exists there, and every keyword used is a parameter, unless a
   * parameter named "kwargs" accepts any keyword.
   */
  function FunctionCompatibleInVersion(name: string, info: FunctionUsage, sigs: map<string, Signature>): (r: bool)
    ensures r <==> name in sigs && (info.arguments <= Parameters(sigs[name]) || "kwargs" in Parameters(sigs[name]))
  {
    if name !in sigs then false
    else if info.arguments == {} then true
    else
      var available := Parameters(sigs[name]);
      var acceptsKwargs := "kwargs" in available;
      forall a | a in info.arguments :: a in available || acceptsKwargs
  }

  /** Every observed function use of a library is accepted by a version's signatures. */
  function VersionSupportsCalls(sigs: map<string, Signature>, calls: LibraryUsage): (r: bool)
    ensures r <==> forall f :: f in calls ==>
      f in sigs && (calls[f].arguments <= Parameters(sigs[f]) || "kwargs" in Parameters(sigs[f]))
  {
    forall f | f in calls :: FunctionCompatibleInVersion(f, calls[f], sigs)
  }

  /** The version strings, in catalog order, of the entries supporting the calls. */
  function CompatibleAmong(entries: seq<VersionEntry>, calls: LibraryUsage): (r: seq<string>)
    ensures |r| <= |entries|
    ensures forall v :: v in r <==> exists e :: e in entries && e.version == v && VersionSupportsCalls(e.signatures, calls)
    ensures r != [] <==> exists e :: e in entries && VersionSupportsCalls(e.signatures, calls)
  {
    if entries == [] then []
    else
      var head := if VersionSupportsCalls(entries[0].signatures, calls) then [entries[0].version] else [];
      assert forall e :: e in entries <==> e == entries[0] || e in entries[1..];
      head + CompatibleAmong(entries[1..], calls)
  }

  /** Some catalogued version of the library supports its calls. */
  predicate Satisfiable(catalog: Catalog, lib: string, calls: LibraryUsage) {
    lib in catalog && exists e :: e in Entries(catalog[lib]) && VersionSupportsCalls(e.signatures, calls)
  }

  /** `find_compatible_versions`: an uncatalogued library has no compatible version. */
  function FindCompatibleVersions(catalog: Catalog, lib: string, calls: LibraryUsage): (r: seq<string>)
    ensures lib !in catalog ==> r == []
    ensures r != [] <==> Satisfiable(catalog, lib, calls)
    ensures forall v :: v in r <==> lib in catalog && exists e :: e in Entries(catalog[lib]) && e.version == v && VersionSupportsCalls(e.signatures, calls)
  {
    if lib !in catalog then [] else CompatibleAmong(Entries(catalog[lib]), calls)
  }

  /**
   * Position i holds a greatest version of vs, and every later version is
   * strictly smaller: the element `sorted(vs, key=parse)[-1]` picks, since
   * the sort is stable and keeps equal versions in their original order.
   */
  predicate LastGreatest(vs: seq<string>, parse: string -> Version, i: nat) {
    i < |vs|
    && (forall j :: 0 <= j < |vs| ==> !Less(parse(vs[i]), parse(vs[j])))
    && (forall j :: i < j < |vs| ==> Less(parse(vs[j]), parse(vs[i])))
  }

  /** The position `sorted(vs, key=parse)[-1]` takes its element from. */
  function LatestIndex(vs: seq<string>, parse: string -> Version): (r: nat)
    requires vs != []
    ensures LastGreatest(vs, parse, r)
  {
    if |vs| == 1 then
      LexIrreflexive(Key(parse(vs[0])));
      0
    else
      var i := LatestIndex(vs[..|vs| - 1], parse);
      if Less(parse(vs[|vs| - 1]), parse(vs[i])) then
        LatestSnocBelow(vs, parse, i);
        i
      else
        LatestSnocAbove(vs, parse, i);
        |vs| - 1
  }

  /** Appending a version strictly below the old pick keeps the old pick. */
  lemma LatestSnocBelow(vs: seq<string>, parse: string -> Version, i: nat)
    requires |vs| >= 2 && LastGreatest(vs[..|vs| - 1], parse, i)
    requires Less(parse(vs[|vs| - 1]), parse(vs[i]))
    ensures LastGreatest(vs, parse, i)
  {
    var init := vs[..|vs| - 1];
    assert forall j :: 0 <= j < |init| ==> vs[j] == init[j];
    LexAsymmetric(Key(parse(vs[|vs| - 1])), Key(parse(vs[i])));
  }

  /** Appending a version at least as great as the old pick makes it the new pick. */
  lemma LatestSnocAbove(vs: seq<string>, parse: string -> Version, i: nat)
    requires |vs| >= 2 && LastGreatest(vs[..|vs| - 1], parse, i)
    requires !Less(parse(vs[|vs| - 1]), parse(vs[i]))
    ensures LastGreatest(vs, parse, |vs| - 1)
  {
    var init := vs[..|vs| - 1];
    var vl := parse(vs[|vs| - 1]);
    forall j | 0 <= j < |init|
      ensures !Less(vl, parse(vs[j]))
    {
      assert vs[j] == init[j];
      NotLessTransitive(parse(vs[j]), parse(vs[i]), vl);
    }
    LexIrreflexive(Key(vl));
  }

  /** `resolve_version_constraints`: nothing for no versions, else `==` and the newest one. */
  function ResolveVersionConstraints(vs: seq<string>, parse: string -> Version): (r: Option<string>)
    ensures r.None? <==> vs == []
    ensures r.Some? ==> exists i: nat :: LastGreatest(vs, parse, i) && r.value == "==" + vs[i]
  {
    if vs == [] then None else Some("==" + vs[LatestIndex(vs, parse)])
  }

  /**
   * `match_codebase_requirements`: one pin per library with a compatible
   * version; libraries without one are left out.
   */
  function MatchCodebaseRequirements(catalog: Catalog, usage: UsageMap, parse: string -> Version): (r: map<string, string>)
    ensures forall lib :: lib in r <==> lib in usage && Satisfiable(catalog, lib, usage[lib])
  {
    map lib | lib in usage && FindCompatibleVersions(catalog, lib, usage[lib]) != []
      :: ResolveVersionConstraints(FindCompatibleVersions(catalog, lib, usage[lib]), parse).value
  }

  /** v is a version string of an entry supporting the calls, and no supporting entry is newer. */
  predicate NewestSupporting(entries: seq<VersionEntry>, calls: LibraryUsage, parse: string -> Version, v: string) {
    (exists e :: e in entries && e.version == v && VersionSupportsCalls(e.signatures, calls))
    && forall e :: e in entries && VersionSupportsCalls(e.signatures, calls) ==> !Less(parse(v), parse(e.version))
  }

  /** Every pin names a newest catalogued version that supports all the library's observed calls. */
  lemma MatchPinsNewest(catalog: Catalog, usage: UsageMap, parse: string -> Version, lib: string)
    requires lib in usage && FindCompatibleVersions(catalog, lib, usage[lib]) != []
    ensures lib in catalog && lib in MatchCodebaseRequirements(catalog, usage, parse)
    ensures exists v :: MatchCodebaseRequirements(catalog, usage, parse)[lib] == "==" + v
                        && NewestSupporting(Entries(catalog[lib]), usage[lib], parse, v)
  {
    var vs := FindCompatibleVersions(catalog, lib, usage[lib]);
    var i := LatestIndex(vs, parse);
    var v := vs[i];
    assert MatchCodebaseRequirements(catalog, usage, parse)[lib] == "==" + v;
    assert v in vs;
    forall e | e in Entries(catalog[lib]) && VersionSupportsCalls(e.signatures, usage[lib])
      ensures !Less(parse(v), parse(e.version))
    {
      assert e.version in vs;
      var j :| 0 <= j < |vs| && vs[j] == e.version;
    }
  }

  /** Usage `more` asks at least as much as `less`: every function of `less`, with at least its keywords. */
  predicate Demands(more: LibraryUsage, less: LibraryUsage) {
    forall f :: f in less ==> f in more && less[f].arguments <= more[f].arguments
  }

  /** A version that accepts the larger demand accepts the smaller one. */
  lemma SupportsMonotone(sigs: map<string, Signature>, more: LibraryUsage, less: LibraryUsage)
    requires Demands(more, less) && VersionSupportsCalls(sigs, more)
    ensures VersionSupportsCalls(sigs, less)
  {
    forall f | f in less
      ensures FunctionCompatibleInVersion(f, less[f], sigs)
    {
      assert FunctionCompatibleInVersion(f, more[f], sigs);
    }
  }

  /** a can be obtained from b by deleting elements. */
  predicate Subsequence(a: seq<string>, b: seq<string>)
    decreases |b|
  {
    a == [] || (b != [] && ((a[0] == b[0] && Subsequence(a[1..], b[1..])) || Subsequence(a, b[1..])))
  }

  /** Asking more of a library keeps a subsequence of its compatible versions, in catalog order. */
  lemma {:induction false} MoreDemandsFewerVersions(entries: seq<VersionEntry>, more: LibraryUsage, less: LibraryUsage)
    requires Demands(more, less)
    ensures Subsequence(CompatibleAmong(entries, more), CompatibleAmong(entries, less))
  {
    if entries != [] {
      MoreDemandsFewerVersions(entries[1..], more, less);
      var a, b := CompatibleAmong(entries[1..], more), CompatibleAmong(entries[1..], less);
      var e := entries[0];
      if VersionSupportsCalls(e.signatures, more) {
        SupportsMonotone(e.signatures, more, less);
        assert CompatibleAmong(entries, more) == [e.version] + a;
        assert CompatibleAmong(entries, less) == [e.version] + b;
        assert ([e.version] + a)[1..] == a && ([e.version] + b)[1..] == b;
      } else if VersionSupportsCalls(e.signatures, less) {
        assert CompatibleAmong(entries, more) == a;
        assert CompatibleAmong(entries, less) == [e.version] + b;
        assert ([e.version] + b)[1..] == b;
      } else {
        assert CompatibleAmong(entries, more) == a;
        assert CompatibleAmong(entries, less) == b;
      }
    }
  }

  /** The version strings of the catalogued entries, in catalog order. */
  function VersionStrings(entries: seq<VersionEntry>): seq<string> {
    seq(|entries|, i requires 0 <= i < |entries| => entries[i].version)
  }

  /** A library that is imported but never called is compatible with every catalogued version. */
  lemma {:induction false} NoCallsAllCompatible(entries: seq<VersionEntry>)
    ensures CompatibleAmong(entries, map[]) == VersionStrings(entries)
  {
    if entries != [] {
      NoCallsAllCompatible(entries[1..]);
    }
  }

  /** The compatible versions keep their catalog order. */
  lemma CompatibleInCatalogOrder(entries: seq<VersionEntry>, calls: LibraryUsage)
    ensures Subsequence(CompatibleAmong(entries, calls), VersionStrings(entries))
  {
    MoreDemandsFewerVersions(entries, calls, map[]);
    NoCallsAllCompatible(entries);
  }

  /**
   * Analysing more code can only narrow the versions found compatible with
   * a library: the usage of a longer run of call sites demands more.
   */
  lemma MoreCodeFewerVersions(table: PatternTable, catalog: Catalog, sites: seq<CallSite>, more: seq<CallSite>, lib: string)
    requires lib in Aggregate(table, sites)
    ensures lib in Aggregate(table, sites + more)
    ensures Subsequence(FindCompatibleVersions(catalog, lib, Aggregate(table, sites + more)[lib]),
                        FindCompatibleVersions(catalog, lib, Aggregate(table, sites)[lib]))
  {
    var u1: UsageMap, u2: UsageMap := Aggregate(table, sites), Aggregate(table, sites + more);
    AggregateLibraries(table, sites, lib);
    AggregateLibraries(table, sites + more, lib);
    WitnessesAppend(table, sites, more, lib, "", "");
    forall fn | fn in u1[lib]
      ensures fn in u2[lib] && u1[lib][fn].arguments <= u2[lib][fn].arguments
    {
      AggregateGrows(table, sites, more, lib, fn);
    }
    if lib in catalog {
      MoreDemandsFewerVersions(Entries(catalog[lib]), u2[lib], u1[lib]);
    }
  }

  /** The requirements for the usage of a single library with some compatible version: one pin. */
  lemma MatchSingleLibrary(catalog: Catalog, lib: string, calls: LibraryUsage, parse: string -> Version)
    requires FindCompatibleVersions(catalog, lib, calls) != []
    ensures MatchCodebaseRequirements(catalog, map[lib := calls], parse).Keys == {lib}
    ensures MatchCodebaseRequirements(catalog, map[lib := calls], parse)[lib]
         == ResolveVersionConstraints(FindCompatibleVersions(catalog, lib, calls), parse).value
  {
    var usage: UsageMap := map[lib := calls];
    var r := MatchCodebaseRequirements(catalog, usage, parse);
    var vs := FindCompatibleVersions(catalog, lib, calls);
    assert lib in r && r[lib] == ResolveVersionConstraints(vs, parse).value by {
      assert lib in usage && usage[lib] == calls;
    }
    MatchKeysAreUsed(catalog, usage, parse);
  }

  /** Only libraries of the usage map get a requirement. */
  lemma MatchKeysAreUsed(catalog: Catalog, usage: UsageMap, parse: string -> Version)
    ensures MatchCodebaseRequirements(catalog, usage, parse).Keys <= usage.Keys
  {
  }
}
