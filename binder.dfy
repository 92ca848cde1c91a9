/**
 * Placeholder binding, as `query.set(name: "Jane")` does: a new statement in
 * which every placeholder whose name is bound becomes that string literal.
 * The template itself is a value and stays as it was.
 */
module Binder {
  import opened Results
  import opened Ast
  import opened Builder
  import opened Renderer

  /** Names mapped to the string values that replace their placeholders. */
  type Bindings = map<string, string>

  function BindExpr(e: Expr, b: Bindings): Expr {
    match e
    case Placeholder(n) => if n in b then Str(b[n]) else e
    case Eq(l, r) => Eq(BindExpr(l, b), BindExpr(r, b))
    case Or(l, r) => Or(BindExpr(l, b), BindExpr(r, b))
    case Desc(k) => Desc(BindExpr(k, b))
    case _ => e
  }

  function BindAll(es: seq<Expr>, b: Bindings): (r: seq<Expr>)
    ensures |r| == |es|
  {
    if es == [] then [] else [BindExpr(es[0], b)] + BindAll(es[1..], b)
  }

  /** `set(...)`: binds the placeholders of every clause. */
  function Bind(s: Statement, b: Bindings): Statement {
    Statement(
      BindAll(s.select, b),
      BindExpr(s.from, b),
      if s.where.Some? then Some(BindExpr(s.where.value, b)) else None,
      BindAll(s.order, b))
  }

  /** Binding closes exactly the bound names and leaves the others open. */
  lemma {:induction false} BindNames(e: Expr, b: Bindings)
    ensures Names(BindExpr(e, b)) == Names(e) - b.Keys
  {
    match e
    case Placeholder(n) =>
    case Eq(l, r) =>
      BindNames(l, b);
      BindNames(r, b);
    case Or(l, r) =>
      BindNames(l, b);
      BindNames(r, b);
    case Desc(k) =>
      BindNames(k, b);
    case _ =>
  }

  lemma {:induction false} BindAllNames(es: seq<Expr>, b: Bindings)
    ensures NamesOf(BindAll(es, b)) == NamesOf(es) - b.Keys
  {
    if es != [] {
      BindNames(es[0], b);
      BindAllNames(es[1..], b);
    }
  }

  /** The placeholders left open after `set(b)` are those b does not name. */
  lemma BindStatementNames(s: Statement, b: Bindings)
    ensures StatementNames(Bind(s, b)) == StatementNames(s) - b.Keys
  {
    BindAllNames(s.select, b);
    BindNames(s.from, b);
    if s.where.Some? {
      BindNames(s.where.value, b);
    }
    BindAllNames(s.order, b);
  }

  /** A bound statement renders exactly when every open name was bound. */
  lemma RenderAfterBind(s: Statement, b: Bindings)
    ensures Render(Bind(s, b)).Ok? <==> StatementNames(s) <= b.Keys
  {
    BindStatementNames(s, b);
  }

  /** Binding b1 and then b2 is binding once with both, b1 winning where both bind a name. */
  lemma {:induction false} BindTwice(e: Expr, b1: Bindings, b2: Bindings)
    ensures BindExpr(BindExpr(e, b1), b2) == BindExpr(e, b2 + b1)
  {
    match e
    case Placeholder(n) =>
    case Eq(l, r) =>
      BindTwice(l, b1, b2);
      BindTwice(r, b1, b2);
    case Or(l, r) =>
      BindTwice(l, b1, b2);
      BindTwice(r, b1, b2);
    case Desc(k) =>
      BindTwice(k, b1, b2);
    case _ =>
  }

  lemma {:induction false} BindAllTwice(es: seq<Expr>, b1: Bindings, b2: Bindings)
    ensures BindAll(BindAll(es, b1), b2) == BindAll(es, b2 + b1)
  {
    if es != [] {
      BindTwice(es[0], b1, b2);
      BindAllTwice(es[1..], b1, b2);
    }
  }

  /** Binding incrementally, one `set` after another, equals one combined `set`. */
  lemma BindStatementTwice(s: Statement, b1: Bindings, b2: Bindings)
    ensures Bind(Bind(s, b1), b2) == Bind(s, b2 + b1)
  {
    BindAllTwice(s.select, b1, b2);
    BindTwice(s.from, b1, b2);
    if s.where.Some? {
      BindTwice(s.where.value, b1, b2);
    }
    BindAllTwice(s.order, b1, b2);
  }

  /** Setting the same values again changes nothing. */
  lemma BindIdempotent(s: Statement, b: Bindings)
    ensures Bind(Bind(s, b), b) == Bind(s, b)
  {
    BindStatementTwice(s, b, b);
    assert b + b == b;
  }

  /** Binding names that do not occur leaves an expression as it is. */
  lemma {:induction false} BindUnused(e: Expr, b: Bindings)
    requires Names(e) !! b.Keys
    ensures BindExpr(e, b) == e
  {
    match e
    case Placeholder(n) =>
    case Eq(l, r) =>
      BindUnused(l, b);
      BindUnused(r, b);
    case Or(l, r) =>
      BindUnused(l, b);
      BindUnused(r, b);
    case Desc(k) =>
      BindUnused(k, b);
    case _ =>
  }

  lemma {:induction false} BindAllUnused(es: seq<Expr>, b: Bindings)
    requires NamesOf(es) !! b.Keys
    ensures BindAll(es, b) == es
  {
    if es != [] {
      BindUnused(es[0], b);
      BindAllUnused(es[1..], b);
    }
  }

  /** A closed statement is its own binding, so it renders the same after `set`. */
  lemma BindClosed(s: Statement, b: Bindings)
    requires Closed(s)
    ensures Bind(s, b) == s
    ensures Render(Bind(s, b)) == Render(s)
  {
    BindAllUnused(s.select, b);
    BindUnused(s.from, b);
    if s.where.Some? {
      BindUnused(s.where.value, b);
    }
    BindAllUnused(s.order, b);
  }

  /** A `%name%` value bound to v becomes the literal v. */
  lemma BindPlaceholderText(n: string, v: string)
    requires IsPlaceholderName(n)
    ensures BindExpr(Lit("%" + n + "%"), map[n := v]) == Str(v)
  {
    LitIsPlaceholder("%" + n + "%", n);
  }

  function BindClause(c: Clause, b: Bindings): Clause {
    match c
    case Select(items) => Select(BindAll(items, b))
    case From(t) => From(BindExpr(t, b))
    case Where(w) => Where(BindExpr(w, b))
    case Order(keys) => Order(BindAll(keys, b))
  }

  function BindClauses(cs: seq<Clause>, b: Bindings): (r: seq<Clause>)
    ensures |r| == |cs|
  {
    seq(|cs|, i requires 0 <= i < |cs| => BindClause(cs[i], b))
  }

  function BindDraft(d: Draft, b: Bindings): Draft {
    Draft(
      if d.select.Some? then Some(BindAll(d.select.value, b)) else None,
      if d.from.Some? then Some(BindExpr(d.from.value, b)) else None,
      if d.where.Some? then Some(BindExpr(d.where.value, b)) else None,
      if d.order.Some? then Some(BindAll(d.order.value, b)) else None,
      d.conflict)
  }

  lemma AddBound(d: Draft, c: Clause, b: Bindings)
    ensures BindDraft(d, b).Add(BindClause(c, b)) == BindDraft(d.Add(c), b)
  {
  }

  lemma {:induction false} ChainBound(cs: seq<Clause>, b: Bindings)
    ensures Chain(BindClauses(cs, b)) == BindDraft(Chain(cs), b)
  {
    if cs != [] {
      var p, c := cs[..|cs| - 1], cs[|cs| - 1];
      var bcs := BindClauses(cs, b);
      assert bcs[..|bcs| - 1] == BindClauses(p, b);
      assert bcs[|bcs| - 1] == BindClause(c, b);
      assert Chain(bcs) == Chain(BindClauses(p, b)).Add(BindClause(c, b));
      ChainBound(p, b);
      AddBound(Chain(p), c, b);
    }
  }

  /** Building with bound clauses equals building first and binding the result. */
  lemma BindCommutesWithCompose(cs: seq<Clause>, b: Bindings)
    ensures Compose(BindClauses(cs, b)) == if Compose(cs).Ok? then Ok(Bind(Compose(cs).value, b)) else Compose(cs)
  {
    ChainBound(cs, b);
  }
}
