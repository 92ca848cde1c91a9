/**
 * The builder behind `compose { ... }`: table handles, string values that
 * may be `%name%` placeholders, the four clause keywords, and the draft that
 * the clauses are applied to, one call after another.
 */
module Builder {
  import opened Results
  import opened Ast

  /** The handle that `compose { |users| ... }` passes for a table. */
  datatype TableHandle = TableHandle(name: string) {

    /** `users.id`: a column of this table. */
    function Attr(column: string): Expr {
      Column(name, column)
    }

    /** `users.table`: the table itself. */
    function AsTable(): Expr {
      Table(name)
    }
  }

  /** A placeholder name: non-empty and free of the `%` delimiter. */
  predicate IsPlaceholderName(n: string) {
    |n| > 0 && '%' !in n
  }

  /** A string value that is, as a whole, `%name%`. */
  predicate IsPlaceholderText(v: string) {
    |v| >= 3 && v[0] == '%' && v[|v| - 1] == '%' && IsPlaceholderName(v[1..|v| - 1])
  }

  /** The expression for a string value on the right of `==`. */
  function Lit(v: string): Expr {
    if IsPlaceholderText(v) then Placeholder(v[1..|v| - 1]) else Str(v)
  }

  /** A string value denotes the placeholder n exactly when it is "%n%". */
  lemma LitIsPlaceholder(v: string, n: string)
    ensures Lit(v) == Placeholder(n) <==> IsPlaceholderName(n) && v == "%" + n + "%"
  {
    if IsPlaceholderName(n) && v == "%" + n + "%" {
      assert v[1..|v| - 1] == n;
    }
  }

  /** Any other string value is a plain string literal. */
  lemma LitIsString(v: string)
    ensures Lit(v) == Str(v) <==> !IsPlaceholderText(v)
    ensures Names(Lit(v)) == {} <==> !IsPlaceholderText(v)
  {
  }

  datatype Keyword = SelectKw | FromKw | WhereKw | OrderKw

  /** One clause declaration: `SELECT ...`, `FROM ...`, `WHERE ...` or `ORDER ...`. */
  datatype Clause =
    | Select(items: seq<Expr>)
    | From(source: Expr)
    | Where(cond: Expr)
    | Order(keys: seq<Expr>)
  {
    function Kind(): Keyword {
      match this
      case Select(_) => SelectKw
      case From(_) => FromKw
      case Where(_) => WhereKw
      case Order(_) => OrderKw
    }
  }

  /** A statement under construction; `conflict` records a keyword given twice. */
  datatype Draft = Draft(
    select: Option<seq<Expr>>,
    from: Option<Expr>,
    where: Option<Expr>,
    order: Option<seq<Expr>>,
    conflict: bool)
  {
    /** Applies one clause; the chained form `SELECT(...).FROM(...)` is a series of these. */
    function Add(c: Clause): Draft {
      match c
      case Select(items) => if select.Some? then this.(conflict := true) else this.(select := Some(items))
      case From(t) => if from.Some? then this.(conflict := true) else this.(from := Some(t))
      case Where(w) => if where.Some? then this.(conflict := true) else this.(where := Some(w))
      case Order(keys) => if order.Some? then this.(conflict := true) else this.(order := Some(keys))
    }
  }

  /** The draft before any clause. */
  const Start: Draft := Draft(None, None, None, None, false)

  /** The draft after applying `cs` one after another, first to last. */
  function Chain(cs: seq<Clause>): Draft {
    if cs == [] then Start else Chain(cs[..|cs| - 1]).Add(cs[|cs| - 1])
  }

  /** Ends construction: a conflicting or incomplete draft is an error. */
  function Finish(d: Draft): Result<Statement, Error> {
    if d.conflict then Err(ConflictingClause)
    else if d.select.None? || d.select.value == [] || d.from.None? then Err(IncompleteStatement)
    else Ok(Statement(d.select.value, d.from.value, d.where, d.order.GetOr([])))
  }

  /** `compose { ... }`: the statement a block of clause declarations builds. */
  function Compose(cs: seq<Clause>): Result<Statement, Error> {
    Finish(Chain(cs))
  }

  /** How many of `cs` use keyword k. */
  function Count(cs: seq<Clause>, k: Keyword): nat {
    if cs == [] then 0 else (if cs[0].Kind() == k then 1 else 0) + Count(cs[1..], k)
  }

  /** The first of `cs` that uses keyword k. */
  function First(cs: seq<Clause>, k: Keyword): (r: Option<Clause>)
    ensures r.Some? ==> r.value.Kind() == k && r.value in cs
    ensures r.None? <==> Count(cs, k) == 0
  {
    if cs == [] then None else if cs[0].Kind() == k then Some(cs[0]) else First(cs[1..], k)
  }

  /**
   * The draft described outright: each slot holds the argument of the first
   * clause with that keyword, and a keyword used more than once is a conflict.
   */
  function Collect(cs: seq<Clause>): Draft {
    var s := First(cs, SelectKw);
    var f := First(cs, FromKw);
    var w := First(cs, WhereKw);
    var o := First(cs, OrderKw);
    Draft(
      if s.Some? then Some(s.value.items) else None,
      if f.Some? then Some(f.value.source) else None,
      if w.Some? then Some(w.value.cond) else None,
      if o.Some? then Some(o.value.keys) else None,
      Count(cs, SelectKw) > 1 || Count(cs, FromKw) > 1 || Count(cs, WhereKw) > 1 || Count(cs, OrderKw) > 1)
  }

  lemma {:induction false} CountConcat(a: seq<Clause>, b: seq<Clause>, k: Keyword)
    ensures Count(a + b, k) == Count(a, k) + Count(b, k)
  {
    if a == [] {
      assert a + b == b;
    } else {
      assert (a + b)[1..] == a[1..] + b;
      CountConcat(a[1..], b, k);
    }
  }

  lemma {:induction false} FirstConcat(a: seq<Clause>, b: seq<Clause>, k: Keyword)
    ensures First(a + b, k) == if First(a, k).Some? then First(a, k) else First(b, k)
  {
    if a == [] {
      assert a + b == b;
    } else {
      assert (a + b)[0] == a[0];
      assert (a + b)[1..] == a[1..] + b;
      FirstConcat(a[1..], b, k);
    }
  }

  lemma StepFacts(p: seq<Clause>, c: Clause, k: Keyword)
    ensures Count(p + [c], k) == Count(p, k) + (if c.Kind() == k then 1 else 0)
    ensures First(p + [c], k) == if First(p, k).Some? then First(p, k) else if c.Kind() == k then Some(c) else None
  {
    CountConcat(p, [c], k);
    FirstConcat(p, [c], k);
    assert [c][1..] == [];
  }

  /** Collecting one more clause is what applying it to the draft does. */
  lemma CollectStep(p: seq<Clause>, c: Clause)
    ensures Collect(p + [c]) == Collect(p).Add(c)
  {
    StepFacts(p, c, SelectKw);
    StepFacts(p, c, FromKw);
    StepFacts(p, c, WhereKw);
    StepFacts(p, c, OrderKw);
  }

  /** Applying the clauses one by one yields the draft `Collect` describes. */
  lemma {:induction false} ChainCollects(cs: seq<Clause>)
    ensures Chain(cs) == Collect(cs)
  {
    if cs != [] {
      var p, c := cs[..|cs| - 1], cs[|cs| - 1];
      assert cs == p + [c];
      ChainCollects(p);
      CollectStep(p, c);
    }
  }

  /** Swapping two neighbours keeps every keyword's count, and its first clause when they differ in kind. */
  lemma SwapFacts(pre: seq<Clause>, x: Clause, y: Clause, post: seq<Clause>, k: Keyword)
    ensures Count(pre + [y, x] + post, k) == Count(pre + [x, y] + post, k)
    ensures x.Kind() != y.Kind() ==> First(pre + [y, x] + post, k) == First(pre + [x, y] + post, k)
    ensures x.Kind() == y.Kind() ==> Count(pre + [x, y] + post, x.Kind()) >= 2
  {
    CountConcat(pre + [x, y], post, k);
    CountConcat(pre, [x, y], k);
    CountConcat(pre + [y, x], post, k);
    CountConcat(pre, [y, x], k);
    FirstConcat(pre + [x, y], post, k);
    FirstConcat(pre, [x, y], k);
    FirstConcat(pre + [y, x], post, k);
    FirstConcat(pre, [y, x], k);
    CountConcat(pre + [x, y], post, x.Kind());
    CountConcat(pre, [x, y], x.Kind());
  }

  /** Clauses may be declared in any order: swapping two neighbours changes nothing. */
  lemma ComposeSwap(cs: seq<Clause>, i: nat)
    requires i + 1 < |cs|
    ensures Compose(cs[..i] + [cs[i + 1], cs[i]] + cs[i + 2..]) == Compose(cs)
  {
    var pre, x, y, post := cs[..i], cs[i], cs[i + 1], cs[i + 2..];
    var cs' := pre + [y, x] + post;
    assert cs == pre + [x, y] + post;
    ChainCollects(cs);
    ChainCollects(cs');
    SwapFacts(pre, x, y, post, SelectKw);
    SwapFacts(pre, x, y, post, FromKw);
    SwapFacts(pre, x, y, post, WhereKw);
    SwapFacts(pre, x, y, post, OrderKw);
  }

  /** The declarative block SELECT / FROM builds the statement it spells out. */
  lemma ComposeSelectFrom(items: seq<Expr>, t: Expr)
    requires items != []
    ensures Compose([Select(items), From(t)]) == Ok(Statement(items, t, None, []))
  {
    ChainedMatchesDeclarative(items, t);
  }

  lemma ComposeSelectFromWhere(items: seq<Expr>, t: Expr, w: Expr)
    requires items != []
    ensures Compose([Select(items), From(t), Where(w)]) == Ok(Statement(items, t, Some(w), []))
  {
    assert [Select(items), From(t), Where(w)][..2] == [Select(items), From(t)];
    ComposeSelectFrom(items, t);
  }

  lemma ComposeSelectFromWhereOrder(items: seq<Expr>, t: Expr, w: Expr, keys: seq<Expr>)
    requires items != []
    ensures Compose([Select(items), From(t), Where(w), Order(keys)]) == Ok(Statement(items, t, Some(w), keys))
  {
    var cs := [Select(items), From(t), Where(w), Order(keys)];
    assert cs[..3] == [Select(items), From(t), Where(w)];
    assert cs[..3][..2] == [Select(items), From(t)];
    assert cs[..3][..2][..1] == [Select(items)];
    assert cs[..3][..2][..1][..0] == [];
    assert Chain(cs[..3][..2][..1]) == Start.Add(Select(items));
    assert Chain(cs[..3][..2]) == Start.Add(Select(items)).Add(From(t));
    assert Chain(cs[..3]) == Chain(cs[..3][..2]).Add(Where(w));
    assert Chain(cs) == Chain(cs[..3]).Add(Order(keys));
  }

  /**
   * The chained form `SELECT(...).FROM(...)` builds what the declarative form
   * builds, and what the order-free description of its two clauses finishes to.
   */
  lemma ChainedMatchesDeclarative(items: seq<Expr>, t: Expr)
    ensures Finish(Start.Add(Select(items)).Add(From(t))) == Compose([Select(items), From(t)])
    ensures Finish(Start.Add(Select(items)).Add(From(t))) == Finish(Collect([Select(items), From(t)]))
  {
    var cs := [Select(items), From(t)];
    ChainCollects(cs);
    assert cs[..1] == [Select(items)];
    assert cs[..1][..0] == [];
    assert Chain(cs[..1][..0]) == Start;
    assert Chain(cs[..1]) == Start.Add(Select(items));
    assert Chain(cs) == Start.Add(Select(items)).Add(From(t));
  }
}
