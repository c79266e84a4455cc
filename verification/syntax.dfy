/**
 * The fragment of a Python syntax tree that the import and call visitors of
 * src/code_analyzer.py look at. Every other node kind is folded into `Other`
 * (for expressions) or `Compound` (for statements), which keep only their
 * children so that the traversal still reaches the calls nested inside them.
 */
module Syntax {
  import opened Wrappers

  /** One `name [as asname]` clause of an import statement. */
  datatype Alias = Alias(name: string, asname: Option<string>)

  /** A keyword argument `arg=value`; `arg` is None for a `**mapping` splat. */
  datatype Keyword = Keyword(arg: Option<string>, value: Expr)

  datatype Expr =
    | Name(id: string)
    | Attribute(value: Expr, attr: string)
    | Call(func: Expr, args: seq<Expr>, keywords: seq<Keyword>, line: nat)
      /** Any other expression (literal, subscript, lambda, ...) with its sub-expressions. */
    | Other(children: seq<Expr>)

  datatype Stmt =
    | Import(names: seq<Alias>)
      /** `from module import names`; `moduleName` is None for `from . import x`. */
    | ImportFrom(moduleName: Option<string>, names: seq<Alias>)
    | ExprStmt(expr: Expr)
      /**
       * Any other statement, with the expressions and the nested body it
       * contains; the expressions are visited first. A field visited after
       * the body (decorators, a return annotation) is encoded as a
       * later statement of `body`.
       */
    | Compound(exprs: seq<Expr>, body: seq<Stmt>)

  /** A parsed source file. */
  type Tree = seq<Stmt>

  /** The name an alias binds locally: Python's `alias.asname or alias.name`. */
  function LocalName(a: Alias): string {
    if a.asname.Some? && a.asname.value != "" then a.asname.value else a.name
  }

  /** An expression without sub-expressions (a name or a literal); it holds no call. */
  predicate Atomic(e: Expr) {
    e.Name? || e == Other([])
  }
}
