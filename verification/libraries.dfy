/**
 * Library name resolution (CodeAnalyzer.resolve_library_name in
 * src/code_analyzer.py): a closed, ordered table maps each distribution name
 * to the import roots that belong to it. A module resolves to the first
 * library listing it exactly; failing that, to the first library with a root
 * R such that the module starts with R followed by a dot.
 */
module Libraries {
  import opened Wrappers

  /** One entry of the table: a distribution name and its accepted import roots. */
  datatype Library = Library(name: string, roots: seq<string>)

  /** The table, in declaration order (the order of the source's dictionary). */
  type PatternTable = seq<Library>

  /** The table CodeAnalyzer is constructed with. */
  const ImportPatterns: PatternTable := [
      Library("pandas", ["pandas", "pd"]),
      Library("numpy", ["numpy", "np"]),
      Library("matplotlib", ["matplotlib", "plt", "mpl"]),
      Library("seaborn", ["seaborn", "sns"]),
      Library("scikit-learn", ["sklearn"]),
      Library("requests", ["requests"]),
      Library("flask", ["flask"]),
      Library("django", ["django"]),
      Library("fastapi", ["fastapi"]),
      Library("aiohttp", ["aiohttp"]),
      Library("beautifulsoup4", ["bs4", "beautifulsoup"]),
      Library("selenium", ["selenium"]),
      Library("sqlalchemy", ["sqlalchemy"]),
      Library("psycopg2", ["psycopg2"]),
      Library("pymongo", ["pymongo"]),
      Library("redis", ["redis"]),
      Library("click", ["click"]),
      Library("argparse", ["argparse"]),
      Library("tqdm", ["tqdm"]),
      Library("python-dotenv", ["dotenv"]),
      Library("pyyaml", ["yaml"]),
      Library("jinja2", ["jinja2"]),
      Library("markdown", ["markdown"]),
      Library("lxml", ["lxml"]),
      Library("python-dateutil", ["dateutil"]),
      Library("pytz", ["pytz"]),
      Library("watchdog", ["watchdog"]),
      Library("pathlib", ["pathlib"]),
      Library("pillow", ["PIL"]),
      Library("opencv-python", ["cv2"]),
      Library("plotly", ["plotly"]),
      Library("bokeh", ["bokeh"]),
      Library("statsmodels", ["statsmodels"]),
      Library("sympy", ["sympy"]),
      Library("networkx", ["networkx"]),
      Library("scipy", ["scipy"]),
      Library("jupyter", ["jupyter"]),
      Library("ipython", ["IPython"]),
      Library("tensorflow", ["tensorflow", "tf"]),
      Library("torch", ["torch"]),
      Library("transformers", ["transformers"]),
      Library("openai", ["openai"]),
      Library("langchain", ["langchain"]),
      Library("pandas-profiling", ["pandas_profiling"]),
      Library("h5py", ["h5py"]),
      Library("pyarrow", ["pyarrow"]),
      Library("urllib3", ["urllib3"]),
      Library("httpx", ["httpx"]),
      Library("websockets", ["websockets"]),
      Library("sqlite3", ["sqlite3"])
    ]

  predicate IsPrefix(p: string, s: string) {
    |p| <= |s| && s[..|p|] == p
  }

  /** `m.startswith(root + '.')`: m names a submodule of root. */
  predicate DottedPrefix(root: string, m: string) {
    IsPrefix(root + ".", m)
  }

  /** Some root of the library is a dotted ancestor of m. */
  predicate ClaimsSubmodule(lib: Library, m: string) {
    exists root | root in lib.roots :: DottedPrefix(root, m)
  }

  /** The first library at or after `from` that lists m exactly. */
  function FirstExact(table: PatternTable, m: string, from: nat): (r: Option<nat>)
    requires from <= |table|
    ensures r.Some? ==> from <= r.value < |table| && m in table[r.value].roots
    ensures forall j :: from <= j < |table| && (r.None? || j < r.value) ==> m !in table[j].roots
    decreases |table| - from
  {
    if from == |table| then None
    else if m in table[from].roots then Some(from)
    else FirstExact(table, m, from + 1)
  }

  /** The first library at or after `from` with a dotted ancestor of m among its roots. */
  function FirstSubmodule(table: PatternTable, m: string, from: nat): (r: Option<nat>)
    requires from <= |table|
    ensures r.Some? ==> from <= r.value < |table| && ClaimsSubmodule(table[r.value], m)
    ensures forall j :: from <= j < |table| && (r.None? || j < r.value) ==> !ClaimsSubmodule(table[j], m)
    decreases |table| - from
  {
    if from == |table| then None
    else if ClaimsSubmodule(table[from], m) then Some(from)
    else FirstSubmodule(table, m, from + 1)
  }

  /**
   * The library owning module m, or None. The empty module owns nothing; an
   * exact listing anywhere in the table beats every dotted-prefix match; ties
   * go to the library declared first.
   */
  function ResolveLibraryName(table: PatternTable, m: string): (r: Option<string>)
    ensures m == "" ==> r.None?
    ensures r.Some? ==> exists i :: 0 <= i < |table| && r.value == table[i].name
                                   && (m in table[i].roots || ClaimsSubmodule(table[i], m))
    ensures m != "" && (exists i :: 0 <= i < |table| && m in table[i].roots) ==>
      exists i :: 0 <= i < |table| && m in table[i].roots && r == Some(table[i].name)
                  && forall j :: 0 <= j < i ==> m !in table[j].roots
    ensures m != "" && (forall i :: 0 <= i < |table| ==> m !in table[i].roots) ==>
      && (r.None? <==> forall i :: 0 <= i < |table| ==> !ClaimsSubmodule(table[i], m))
      && (r.Some? ==> exists i :: 0 <= i < |table| && ClaimsSubmodule(table[i], m) && r == Some(table[i].name)
                                  && forall j :: 0 <= j < i ==> !ClaimsSubmodule(table[j], m))
  {
    if m == "" then None
    else
      match FirstExact(table, m, 0)
      case Some(i) => Some(table[i].name)
      case None =>
        match FirstSubmodule(table, m, 0)
        case Some(i) => Some(table[i].name)
        case None => None
  }

  /** A dotted-prefix match needs a dot right after the root: "alpha" claims "alpha.sub" but not "alphabeta". */
  lemma {:induction false} DottedBoundary(root: string, rest: string)
    ensures DottedPrefix(root, root + "." + rest)
    ensures rest != "" && rest[0] != '.' ==> !DottedPrefix(root, root + rest)
  {
    assert (root + "." + rest)[..|root| + 1] == root + ".";
    if rest != "" && rest[0] != '.' && |root + rest| >= |root| + 1 {
      assert (root + rest)[|root|] == rest[0];
      assert (root + ".")[|root|] == '.';
      assert (root + rest)[..|root| + 1] != root + ".";
    }
  }

  /** Two dot-free roots cannot both be dotted ancestors of r + "." + s unless they are equal. */
  lemma {:induction false} DotFreeAncestorUnique(p: string, r: string, s: string)
    requires '.' !in p && '.' !in r
    requires DottedPrefix(p, r + "." + s)
    ensures p == r
  {
    var m := r + "." + s;
    assert m[..|p| + 1] == p + ".";
    assert m[|p|] == (p + ".")[|p|] == '.';
    assert m[|r|] == '.';
    assert forall k :: 0 <= k < |r| ==> m[k] == r[k] && r[k] in r;
    assert forall k :: 0 <= k < |p| ==> m[k] == p[k] && p[k] in p;
    assert |p| == |r|;
    assert p == m[..|p|] == r;
  }

  /** No root of the table contains a dot. */
  predicate DotFree(table: PatternTable) {
    forall i, j :: 0 <= i < |table| && 0 <= j < |table[i].roots| ==> '.' !in table[i].roots[j]
  }

  /** A dot-free module has no dotted ancestor. */
  lemma {:induction false} DotFreeHasNoAncestor(root: string, r: string)
    requires '.' !in r
    ensures !DottedPrefix(root, r)
  {
    if |root| + 1 <= |r| {
      assert r[|root|] in r;
      assert r[..|root| + 1][|root|] == r[|root|];
      assert (root + ".")[|root|] == '.';
    }
  }

  /**
   * Submodule matching: when no root in the table contains a dot, a
   * submodule r.s resolves to the same library as its root r (or to none
   * when r resolves to none).
   */
  lemma {:induction false} SubmoduleResolvesLikeRoot(table: PatternTable, r: string, s: string)
    requires DotFree(table)
    requires r != "" && '.' !in r
    ensures ResolveLibraryName(table, r + "." + s) == ResolveLibraryName(table, r)
  {
    var m := r + "." + s;
    assert m[|r|] == '.';
    assert '.' in m;
    forall i | 0 <= i < |table|
      ensures m !in table[i].roots
      ensures ClaimsSubmodule(table[i], m) <==> r in table[i].roots
      ensures !ClaimsSubmodule(table[i], r)
    {
      var roots := table[i].roots;
      assert forall j :: 0 <= j < |roots| ==> '.' !in roots[j];
      if ClaimsSubmodule(table[i], m) {
        var root :| root in roots && DottedPrefix(root, m);
        DotFreeAncestorUnique(root, r, s);
      }
      if r in roots {
        DottedBoundary(r, s);
      }
      forall root | root in roots
        ensures !DottedPrefix(root, r)
      {
        DotFreeHasNoAncestor(root, r);
      }
    }
    var resM, resR := ResolveLibraryName(table, m), ResolveLibraryName(table, r);
    if exists i :: 0 <= i < |table| && r in table[i].roots {
      var i1 :| 0 <= i1 < |table| && r in table[i1].roots && resR == Some(table[i1].name)
                && forall j :: 0 <= j < i1 ==> r !in table[j].roots;
      assert ClaimsSubmodule(table[i1], m);
      var i2 :| 0 <= i2 < |table| && ClaimsSubmodule(table[i2], m) && resM == Some(table[i2].name)
                && forall j :: 0 <= j < i2 ==> !ClaimsSubmodule(table[j], m);
      assert i1 == i2;
    }
  }
}
