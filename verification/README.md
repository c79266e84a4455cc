# Compatibility resolution engine of requirements_creator, in Dafny

requirements_creator reads a Python code base and writes a `requirements.txt`
that pins each third-party library the code uses. This project models its
core, the compatibility resolution engine, as pure Dafny functions and
proves properties of it. The engine runs in two stages.

**Usage extraction** (`src/code_analyzer.py`) has five steps:

- `ImportVisitor` builds two symbol tables per file:
  - `imports` maps an alias to a module;
  - `from_imports` maps an alias to a (module, member) pair.
- `FunctionCallVisitor` resolves the callee of every call through those
  tables and keeps the call's keyword-argument names.
- `resolve_library_name` maps a module to a distribution name through a
  closed table. It tries an exact root first, then a dotted-submodule root.
- The analyzer folds all call sites into a per-library, per-function usage
  map: the union of argument names and a call count.
- `analyze_code_string` also reports every library that is imported but
  never called, with an empty function map.

**Version matching** (`src/version_matcher.py`) has two steps:

- A catalogued version is compatible when it accepts every observed call:
  - every observed function exists in that version;
  - every observed keyword is one of that function's parameters, unless it
    has a parameter literally named `kwargs`.
- The compatible versions collapse to an exact pin `==v`, where `v` is their
  greatest version in the PEP 440 order (`packaging.version.parse`).

One Dafny module per component:

| file | module | models |
|---|---|---|
| wrappers.dfy | `Wrappers` | `Option` (Python's `None`) |
| syntax.dfy | `Syntax` | the few syntax-tree node kinds the visitors look at |
| symbols.dfy | `Symbols` | `ImportVisitor`: the two symbol tables |
| calls.dfy | `Calls` | `FunctionCallVisitor`: callee resolution, keyword names, call sites |
| libraries.dfy | `Libraries` | `resolve_library_name` and the built-in pattern table |
| usage.dfy | `Usage` | the aggregation folds of `analyze_codebase` and `analyze_code_string` |
| pep440.dfy | `Pep440` | the version order `packaging.version.parse` induces |
| matcher.dfy | `VersionMatcher` | `VersionMatcher` without its file I/O |
| scenarios.dfy | `Scenarios` | worked examples through the whole pipeline, over the small pattern table `Scenarios.Table` |

### How the model represents the source

- **Syntax tree.** `ast.parse` becomes a parameter. A file is an
  `Option<Tree>`, and `None` stands for a file that failed to parse.
  - `Stmt` has the cases `Import`, `ImportFrom`, an expression statement,
    and `Compound`. `Compound` stands for any statement with
    sub-expressions and nested bodies (`if`, `while`, `with`, …). Its
    expressions are visited before its body. A field that `generic_visit`
    reaches after the body, such as a `def`'s or `class`'s decorators or a
    `def`'s return annotation, is encoded as a later statement of the body.
    The visiting order of `Calls.FileCallsComplete` depends on this
    encoding. The aggregate does not, since it ignores order
    (`Usage.AggregateOrderIndependent`).
  - `Expr` has the cases `Name`, `Attribute`, `Call` and `Other`. `Other`
    is any other expression, with its sub-expressions.
  - Traversal follows `generic_visit`: statements in order, and for a call
    first the call itself, then its callee, arguments and keyword values.
- **Python truthiness** is modelled explicitly:
  - `alias.asname or alias.name`: an empty `asname` falls back to the name;
  - `node.module or ""`;
  - `if func_name and module_name`: empty strings and `None` drop the call;
  - `if kw.arg`: a `**` splat or an empty name gives nothing.
- **Dictionaries** become Dafny `map`s. Iteration order matters in two
  places, and there they become sequences:
  - the pattern table (`seq<Library>`, declaration order);
  - a library's catalogued versions (`seq<VersionEntry>`, catalog order).
- **Version strings** are ordered through a parameter `parse: string ->
  Pep440.Version`, which stands for `packaging.version.parse`.
  - `Pep440.Key` maps a version to a sequence of integers whose
    lexicographic order is the PEP 440 order, as `packaging` does with its
    comparison key.
  - `sorted(vs, key=parse)[-1]` is a stable sort followed by taking the last
    element. It picks the greatest version, and among equal greatest
    versions the one listed last (`VersionMatcher.LatestIndex`).

### Behaviour worth noting

- **Plain imports are checked first.** A name bound both by `import` and by
  `from … import` resolves through the plain import
  (`src/code_analyzer.py:71-75`, `87-91`).
- **A bare call to a plain-imported name** (`import m; m()`) resolves to
  (`m`, `m`) and is recorded like any other call (`src/code_analyzer.py:71-72`).
- **A call nested in another call's callee, arguments or keyword values is
  recorded after it,** because `visit_Call` records its node before
  `generic_visit` descends (`src/code_analyzer.py:49-63`).
- **Imports anywhere in the file count,** including those inside function
  and block bodies, and a later binding of an alias replaces an earlier one
  (`src/code_analyzer.py:27-37`). The call visitor resolves every call of
  the file against these final tables.
- **`analyze_codebase` does not add import-only libraries.** Only
  `analyze_code_string` does (`src/code_analyzer.py:276-286`), and
  `Usage.CodebaseLibrariesAreCalled` proves this absence for the code-base
  fold.
- **The catalog's parameter field is `parameters`** (`src/version_matcher.py:74`).
- **`find_compatible_versions` returns a list** in catalog order.
  `VersionMatcher.CompatibleInCatalogOrder` states the order.

## Model

| member | source | states |
|---|---|---|
| Symbols.Bindings | src/code_analyzer.py:24-36 | Assigning alias pairs into a dictionary, in order: the keys are exactly the aliases assigned, and each alias maps to the value of its last assignment. |
| Symbols.ImportBinds | src/code_analyzer.py:27-29 | One more `import X as Y` binds Y to X, and `import X` binds X to X. An earlier binding of the alias is overwritten and the member-import table is unchanged. |
| Symbols.ImportFromBinds | src/code_analyzer.py:32-36 | One more `from M import N as A` binds A (or N without `as`) to (M, N), with a missing M read as "". An earlier binding is overwritten and the plain-import table is unchanged. |
| Symbols.ImportTables | src/code_analyzer.py:20-37 | After visiting the whole tree, nested bodies included, an alias is in a table exactly when some import of that kind assigns it. It holds the value of the last such assignment. |
| Symbols.NestedImportsBind | src/code_analyzer.py:27-37 | An import inside a function or block body binds exactly as if it stood in place of that statement. |
| Calls.ResolveCallee | src/code_analyzer.py:65-96 | A bare name bound by a plain import gives (name, its module). Otherwise, if bound by a member import, it gives (member, its module); if unbound, (name, None), and only an unbound name gets no module. `base.attr` with a bare base gives `attr` with the module of base's plain import, else of its member import, else base itself. Any other callee gives (None, None). |
| Calls.PlainImportWins | src/code_analyzer.py:71-91 | A name bound by both kinds of import resolves through the plain import: as a bare callee to (name, module), and as the base of any attribute `attr` to (attr, module). |
| Calls.AttributeAliasTransparent | src/code_analyzer.py:87-88 | Two aliases bound to the same module resolve `alias.f` identically. |
| Calls.KeywordNames | src/code_analyzer.py:98-110 | The argument set is exactly the non-empty keyword names present. Positional arguments and `**` splats contribute nothing. |
| Calls.SiteOf | src/code_analyzer.py:49-61 | A call produces a site exactly when both its function and its module are truthy. The site carries the resolved pair and exactly the keyword names. |
| Calls.NodeSites | src/code_analyzer.py:49-61 | A list of call nodes yields one site per node whose callee resolves to a truthy function and module, and that node's site is among them. |
| Calls.NodeSitesOnlyRecorded | src/code_analyzer.py:53-61 | Every site yielded by a list of call nodes is the site of one of its recorded nodes. |
| Calls.ExprCalls | src/code_analyzer.py:49-63 | Every site recorded while walking an expression names a non-empty function and module. Which sites are recorded is stated by `Calls.ExprCallsAreNodeSites`. |
| Calls.ExprCallsAreNodeSites | src/code_analyzer.py:49-63 | The sites of an expression are exactly the sites of its call nodes in visiting order: each call, then the calls in its callee, arguments and keyword values. So every resolvable call is recorded once, nested calls included. |
| Calls.StmtsCalls | src/code_analyzer.py:49-63 | Every site recorded while walking statements names a non-empty function and module. Which sites are recorded is stated by `Calls.StmtsCallsAreNodeSites`. |
| Calls.StmtsCallsAreNodeSites | src/code_analyzer.py:49-63 | The sites of a statement sequence are exactly the sites of its call nodes, statement by statement, nested bodies included. |
| Calls.FileCalls | src/code_analyzer.py:197-217 | A file that fails to parse yields no call sites, and every recorded site is resolved. `Calls.FileCallsComplete` states which sites are recorded. |
| Calls.FileCallsComplete | src/code_analyzer.py:197-213 | A parsed file's sites are exactly the sites of its call nodes under its own final tables. Their number is the number of resolvable calls, and each resolvable call's site is among them. |
| Calls.ImportFromThenCall | src/code_analyzer.py:73-75 | When M and N are non-empty and no argument or keyword value contains a call, `from M import N as A; A(...)` (or `N(...)` without `as`) yields the single site (N, M, the keyword names, the line). |
| Calls.NestedCallRecorded | src/code_analyzer.py:49-63 | `import m; m.f(m.g(k=v))` yields (f, m, {}) and then (g, m, {k}). |
| Calls.AliasTransparency | src/code_analyzer.py:80-94 | When m, a and f are non-empty and no argument or keyword value contains a call, `import m as a; a.f(...)` and `import m; m.f(...)` yield the same single site: (f, m, the keyword names, the line). |
| Libraries.ResolveLibraryName | src/code_analyzer.py:236-252 | The empty module maps to nothing. An exact root listed anywhere wins over every dotted-prefix match, and ties go to the first library. Without an exact root, the result is nothing exactly when no library claims the module as a submodule. |
| Libraries.DottedBoundary | src/code_analyzer.py:247-250 | A root claims `root.rest` but not `root` followed directly by any other character. |
| Libraries.SubmoduleResolvesLikeRoot | src/code_analyzer.py:241-252 | When no root in the table contains a dot, module `r.s` resolves to the same library as `r`. |
| Usage.Aggregate | src/code_analyzer.py:177-181 | Every library of the aggregate has at least one function, and every function was called at least once. `Usage.AggregateLibraries`, `AggregateFunctions`, `AggregateArguments` and `AggregateCalls` state the keys and values. |
| Usage.Record | src/code_analyzer.py:177-181 | Merging one site adds its keywords to the (library, function) entry and raises its count by one. The entry is created if missing and every other entry is unchanged. |
| Usage.AggregateLibraries | src/code_analyzer.py:177-181 | A library is a key of the aggregate exactly when some call site's module resolves to it. Sites that resolve to no library are dropped. |
| Usage.AggregateFunctions | src/code_analyzer.py:177-181 | A (library, function) entry exists exactly when some site counts towards it. |
| Usage.AggregateArguments | src/code_analyzer.py:180 | An entry's argument set is exactly the union of the keyword sets of the sites counting towards it. |
| Usage.AggregateCalls | src/code_analyzer.py:181 | An entry's call count is exactly the number of sites counting towards it. |
| Usage.AggregateOrderIndependent | src/code_analyzer.py:174-181 | The aggregate does not depend on the order in which two batches of call sites are folded. |
| Usage.AggregateGrows | src/code_analyzer.py:174-181 | Folding more sites keeps every library and function. Argument sets only grow and counts only increase. |
| Usage.AnalyzeCodebase | src/code_analyzer.py:170-195 | Every library reported for the code base has at least one function, and every function was called at least once. |
| Usage.UnparsableFileIgnored | src/code_analyzer.py:174-183 | Dropping a file that failed to parse from the code base does not change the result. |
| Usage.CodebaseLibrariesAreCalled | src/code_analyzer.py:170-195 | Every library `analyze_codebase` reports has at least one called function. Import-only libraries are not added. |
| Usage.ImportedLibraries | src/code_analyzer.py:278-286 | The libraries found are exactly those that own the module of some binding left in the file's final symbol tables, plain or member. An alias rebound later no longer counts. |
| Usage.AnalyzeCodeString | src/code_analyzer.py:254-302 | The keys are the libraries called or imported. A called library keeps its aggregated functions; an imported-only library maps to the empty map; a file that fails to parse yields the empty map. |
| Usage.WithImportOnly | src/code_analyzer.py:276-286 | Imported libraries are added only when absent, with an empty function map. Existing entries are untouched. |
| Usage.AnalyzeIsAggregateWhenAllCalled | src/code_analyzer.py:270-286 | A file that calls every library it imports is reported exactly as the aggregate of its call sites. |
| Usage.ImportOnlyFile | src/code_analyzer.py:276-286 | A file without calls reports exactly its imported libraries, each with no functions. |
| Pep440.LessStrictOrder | src/version_matcher.py:91 | The version order used for sorting is irreflexive and transitive. |
| Pep440.LessConnected | src/version_matcher.py:91 | Two versions are either ordered one way or the other, or have equal keys. |
| Pep440.NotLessTransitive | src/version_matcher.py:91 | "Not above" is transitive, so the sort order is a total preorder. |
| Pep440.EpochDominates | src/version_matcher.py:91 | A larger epoch makes a greater version, whatever the rest. |
| Pep440.TrailingZerosIgnored | src/version_matcher.py:91 | Appending `.0` to the release numbers does not change the version. |
| Pep440.SameRelease | src/version_matcher.py:91 | Versions with equal epoch and release are ordered by their suffixes alone. |
| Pep440.NumericReleaseOrder | src/version_matcher.py:91 | Release numbers compare numerically: 1.9 < 1.10. |
| Pep440.DevReleaseBeforePreRelease | src/version_matcher.py:91 | `X.devN` sorts below every pre-release of X. |
| Pep440.PreReleaseBeforeFinal | src/version_matcher.py:91 | Every pre-release of X sorts below X. |
| Pep440.FinalBeforePostRelease | src/version_matcher.py:91 | X sorts below every post-release of X. |
| Pep440.PreTagOrder | src/version_matcher.py:91 | Pre-release tags rank a < b < rc before their numbers count. |
| Pep440.DevBeforeItsRelease | src/version_matcher.py:91 | A `.devN` suffix sorts below the same version without it. |
| VersionMatcher.Parameters | src/version_matcher.py:74 | The available parameters are exactly the listed names, and none when `parameters` is missing. |
| VersionMatcher.FunctionCompatibleInVersion | src/version_matcher.py:60-83 | Compatible exactly when the function exists and its observed keywords are all parameters or `kwargs` is a parameter. So a missing function is incompatible and a call without keywords needs only the function. |
| VersionMatcher.VersionSupportsCalls | src/version_matcher.py:52-58 | A version supports the calls exactly when every observed function exists in it and its observed keywords are all parameters, or it has a `kwargs` parameter. |
| VersionMatcher.CompatibleAmong | src/version_matcher.py:44-50 | A version string is in the list exactly when some catalogued entry with that string supports all calls. The list is non-empty exactly when such an entry exists. |
| VersionMatcher.FindCompatibleVersions | src/version_matcher.py:35-50 | An uncatalogued library yields the empty list. Otherwise the list holds exactly the supporting catalogued versions. |
| VersionMatcher.LatestIndex | src/version_matcher.py:90-94 | The picked element is a greatest version and every later element is strictly smaller: the last element of the stable sort. |
| VersionMatcher.ResolveVersionConstraints | src/version_matcher.py:85-98 | Empty input yields None. Otherwise the result is `==` followed by a member of the input that no input version exceeds. |
| VersionMatcher.MatchCodebaseRequirements | src/version_matcher.py:100-118 | A library gets a requirement exactly when it is in the usage map and some catalogued version supports its calls. |
| VersionMatcher.MatchPinsNewest | src/version_matcher.py:100-118 | Each requirement is `==v` for a catalogued version v that supports all of the library's calls, and no supporting version is newer. |
| VersionMatcher.MatchSingleLibrary | src/version_matcher.py:104-113 | For a single library with some compatible version, the requirements hold exactly that library, pinned by `resolve_version_constraints` of its compatible list. |
| VersionMatcher.SupportsMonotone | src/version_matcher.py:52-58 | A version that accepts a larger demand accepts any smaller one: fewer functions, or fewer keywords per function. |
| VersionMatcher.MoreDemandsFewerVersions | src/version_matcher.py:46-48 | More functions or more keywords give a subsequence of the compatible list. |
| VersionMatcher.NoCallsAllCompatible | src/version_matcher.py:52-58 | An empty usage map is compatible with every catalogued version, in catalog order. |
| VersionMatcher.CompatibleInCatalogOrder | src/version_matcher.py:44-50 | The compatible list is a subsequence of the catalogued versions: catalog order is kept. |
| VersionMatcher.MoreCodeFewerVersions | src/version_matcher.py:35-50 | Aggregating more call sites can only narrow a library's compatible list. |
| Scenarios.ProgramUsage | src/code_analyzer.py:254-298 | `import mathlib as ml; ml.compute(x, precision=p)` yields the usage {mathlib: {compute: ({precision}, 1)}} under the two-entry pattern table `Scenarios.Table`. |
| Scenarios.CatalogCompatible | src/version_matcher.py:60-83 | Version 1.0 lacks the keyword and 0.9 lacks the function; 2.0 lists the keyword and 1.5 takes `kwargs`. So the compatible list is [2.0, 1.5]. |
| Scenarios.EndToEnd | src/version_matcher.py:100-118 | That file against that catalog gives exactly one requirement, mathlib `==2.0`, for any parser that reads 2.0 and 1.5 as those releases, under `Scenarios.Table`. |
| Scenarios.StableTieBreak | src/version_matcher.py:90-98 | Among 1.10, 1.9, 1.10rc1 and 1.10.0, parsed as PEP 440 versions, the equal greatest 1.10 and 1.10.0 tie, and the later one, 1.10.0, is pinned. |
| Scenarios.ImportOnlyUsage | src/code_analyzer.py:276-286 | `import alpha` alone yields {alpha: {}} under `Scenarios.Table`. |
| Scenarios.SubmoduleClaimed | src/code_analyzer.py:246-250 | Under `Scenarios.Table`, `alpha.sub` resolves to the library with root `alpha`. |
| Scenarios.LookalikeUnclaimed | src/code_analyzer.py:246-250 | Under `Scenarios.Table`, `alphabeta` resolves to no library. |

## Left out

- The directory walk and file parsing are left out: `get_python_files`, reading files, `ast.parse`. Files are given as already-parsed trees, and `None` marks a parse failure, which contributes nothing.
- Relative imports are left out. `ImportFrom.level` is not modelled because the source never reads it; `from . import x` has no module and so binds `""`.
- The `print` diagnostics are left out. They have no effect on any result.
- The set-to-list conversion before returning (`src/code_analyzer.py:185-193`, `288-296`) is left out. Argument sets stay sets, and a call count stands for the list of calls whose length is reported.
- `FunctionCall.__repr__`, the unused `current_imports` field, and the unused `full_name` variable in `visit_ImportFrom` are left out. None affects any result.
- `load_signature_database`, `generate_requirements_txt` and `analyze_and_generate_requirements` are left out: they are JSON file reading, file writing and orchestration. The catalog is an immutable input map instead.
- `src/signature_extractor.py`, `src/pypi_client.py`, `src/database_manager.py`, `src/requirements_creator.py` and `main.py` are not part of this model. They do package installation, reflection, HTTP, persistence and CLI work.
- Version-string parsing is a parameter (`parse`). Invalid version strings are not modelled: `packaging` raises `InvalidVersion` on them, and its source is not part of this model.
- Local version labels (`+local`) are not modelled in `Pep440.Version`.
- Catalog fields other than `parameters` (`required_params`, `optional_params`) are left out because the matcher never reads them.
- The `library_name` and `version_str` parameters are dropped: `resolve_version_constraints` and `version_supports_calls` never use them.
- The catalog's `versions` dictionary is a sequence of entries in dictionary order. The model does not require the version strings to be distinct, although JSON object keys would be.
- Libraries.SubmoduleResolvesLikeRoot: it is proved for every table whose roots contain no dot. The built-in 50-entry `ImportPatterns` table has no dotted root, but that fact about the constant is not proved.
- The worked examples use the two-entry pattern table `Scenarios.Table` (mathlib and alpha), not the built-in 50-entry `ImportPatterns`. Every pipeline function takes the table as a parameter, but concrete proofs over the 50-entry constant are too large for the verifier. Under the built-in table, `import mathlib` and `import alpha` would yield `{}`.
- VersionMatcher.MatchCodebaseRequirements: its contract fixes the set of keys. The pinned values are stated separately by `VersionMatcher.MatchPinsNewest`.
