/**
 * The expression and statement model of a composed query: the values that
 * `compose { ... }` builds, `set(...)` transforms and `to_s` renders.
 */
module Ast {
  import opened Results

  /** The ways building, parsing a fragment or rendering can fail. */
  datatype Error =
    | IncompleteStatement   // no FROM, or no (or an empty) SELECT list
    | ConflictingClause     // a clause keyword declared twice
    | MalformedFragment     // a backtick fragment that is not a quoted reference
    | UnboundPlaceholder    // rendering while a `%name%` slot is still open

  /** Expressions: references, string literals, placeholders, `=`, `OR` and `DESC`. */
  datatype Expr =
    | Column(table: string, column: string)   // "table"."column"
    | Table(name: string)                     // "table"
    | Str(value: string)                      // 'value'
    | Placeholder(name: string)               // written "%name%", bound by `set`
    | Eq(left: Expr, right: Expr)             // left = right
    | Or(left: Expr, right: Expr)             // (left) OR (right)
    | Desc(key: Expr)                         // key DESC, an ORDER BY key

  /** A SELECT statement: select list, source table, optional filter, ordering keys. */
  datatype Statement = Statement(select: seq<Expr>, from: Expr, where: Option<Expr>, order: seq<Expr>)

  /** The names of the placeholders that occur in `e`. */
  function Names(e: Expr): set<string> {
    match e
    case Placeholder(n) => {n}
    case Eq(l, r) => Names(l) + Names(r)
    case Or(l, r) => Names(l) + Names(r)
    case Desc(k) => Names(k)
    case _ => {}
  }

  /** The names of the placeholders that occur in any of `es`. */
  function NamesOf(es: seq<Expr>): set<string> {
    if es == [] then {} else Names(es[0]) + NamesOf(es[1..])
  }

  /** A list of expressions has no placeholder exactly when none of its items has one. */
  lemma {:induction false} NamesOfEmpty(es: seq<Expr>)
    ensures NamesOf(es) == {} <==> forall i :: 0 <= i < |es| ==> Names(es[i]) == {}
  {
    if es != [] {
      NamesOfEmpty(es[1..]);
      assert forall i :: 1 <= i < |es| ==> es[i] == es[1..][i - 1];
    }
  }

  /** The names of the placeholders left open anywhere in `s`. */
  function StatementNames(s: Statement): set<string> {
    NamesOf(s.select) + Names(s.from)
    + (if s.where.Some? then Names(s.where.value) else {})
    + NamesOf(s.order)
  }

  /** A closed statement has no open placeholder and can be rendered. */
  predicate Closed(s: Statement) {
    StatementNames(s) == {}
  }
}
