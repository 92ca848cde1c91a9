/**
 * Rendering a statement to single-line SQL text, as `query.to_s` does:
 * double-quoted identifiers, single-quoted strings, clauses in the fixed
 * order SELECT, FROM, WHERE, ORDER BY, separated by one space.
 */
module Renderer {
  import opened Results
  import opened Ast

  /** A double-quoted identifier. */
  function Quote(id: string): string {
    "\"" + id + "\""
  }

  /** The SQL text of a closed expression. */
  function ExprText(e: Expr): string
    requires Names(e) == {}
  {
    match e
    case Column(t, c) => Quote(t) + "." + Quote(c)
    case Table(t) => Quote(t)
    case Str(v) => "'" + v + "'"
    case Eq(l, r) => ExprText(l) + " = " + ExprText(r)
    case Or(l, r) => "(" + ExprText(l) + ") OR (" + ExprText(r) + ")"
    case Desc(k) => ExprText(k) + " DESC"
  }

  /** The texts of closed expressions, in order. */
  function Texts(es: seq<Expr>): (ts: seq<string>)
    requires NamesOf(es) == {}
    ensures |ts| == |es|
    ensures forall i :: 0 <= i < |es| ==> Names(es[i]) == {} && ts[i] == ExprText(es[i])
  {
    if es == [] then [] else [ExprText(es[0])] + Texts(es[1..])
  }

  /** Items separated by a comma and one space. */
  function JoinComma(ts: seq<string>): string {
    if |ts| == 0 then ""
    else if |ts| == 1 then ts[0]
    else ts[0] + ", " + JoinComma(ts[1..])
  }

  /** The text of a closed statement. */
  function StatementText(s: Statement): string
    requires Closed(s)
  {
    "SELECT " + JoinComma(Texts(s.select)) + " FROM " + ExprText(s.from)
    + (if s.where.Some? then " WHERE " + ExprText(s.where.value) else "")
    + (if s.order != [] then " ORDER BY " + JoinComma(Texts(s.order)) else "")
  }

  /** `to_s`: the text of a closed statement; an open placeholder is an error. */
  function Render(s: Statement): (r: Result<string, Error>)
    ensures r.Ok? <==> Closed(s)
    ensures r.Err? ==> r.error == UnboundPlaceholder
  {
    if Closed(s) then Ok(StatementText(s)) else Err(UnboundPlaceholder)
  }

  /** A text that neither starts nor ends with a space. */
  predicate Trimmed(t: string) {
    |t| > 0 && t[0] != ' ' && t[|t| - 1] != ' '
  }

  /** Every rendered expression is trimmed, however deeply it nests. */
  lemma {:induction false} ExprTextTrimmed(e: Expr)
    requires Names(e) == {}
    ensures Trimmed(ExprText(e))
  {
    match e
    case Column(t, c) =>
    case Table(t) =>
    case Str(v) =>
    case Eq(l, r) =>
      ExprTextTrimmed(l);
      ExprTextTrimmed(r);
    case Or(l, r) =>
    case Desc(k) =>
      ExprTextTrimmed(k);
  }

  /** Joining trimmed items gives a trimmed text. */
  lemma {:induction false} JoinTrimmed(ts: seq<string>)
    requires |ts| > 0
    requires forall i :: 0 <= i < |ts| ==> Trimmed(ts[i])
    ensures Trimmed(JoinComma(ts))
  {
    if |ts| > 1 {
      JoinTrimmed(ts[1..]);
      assert Trimmed(ts[0]);
    }
  }

  /** Adding one more item puts ", " and that item after the items already there. */
  lemma {:induction false} JoinAppend(ts: seq<string>, t: string)
    requires |ts| > 0
    ensures JoinComma(ts + [t]) == JoinComma(ts) + ", " + t
  {
    if |ts| > 1 {
      assert (ts + [t])[1..] == ts[1..] + [t];
      JoinAppend(ts[1..], t);
    } else {
      assert ts + [t] == [ts[0], t];
    }
  }

  /** The rendered select list of n + 1 items extends that of the first n. */
  lemma SelectItemAppended(items: seq<Expr>, x: Expr)
    requires items != [] && NamesOf(items) == {} && Names(x) == {}
    ensures NamesOf(items + [x]) == {}
    ensures JoinComma(Texts(items + [x])) == JoinComma(Texts(items)) + ", " + ExprText(x)
  {
    NamesOfConcat(items, [x]);
    assert Texts(items + [x]) == Texts(items) + [ExprText(x)];
    JoinAppend(Texts(items), ExprText(x));
  }

  lemma {:induction false} NamesOfConcat(a: seq<Expr>, b: seq<Expr>)
    ensures NamesOf(a + b) == NamesOf(a) + NamesOf(b)
  {
    if a != [] {
      assert (a + b)[1..] == a[1..] + b;
      NamesOfConcat(a[1..], b);
    } else {
      assert a + b == b;
    }
  }

  /** A rendered statement starts with SELECT and has no trailing whitespace. */
  lemma RenderedTrimmed(s: Statement)
    requires Closed(s)
    ensures Render(s).Ok?
    ensures |Render(s).value| > 7 && Render(s).value[..7] == "SELECT "
    ensures Render(s).value[|Render(s).value| - 1] != ' '
  {
    var t := StatementText(s);
    ExprTextTrimmed(s.from);
    if s.where.Some? {
      ExprTextTrimmed(s.where.value);
    }
    if s.order != [] {
      var ts := Texts(s.order);
      forall i | 0 <= i < |ts| ensures Trimmed(ts[i]) {
        ExprTextTrimmed(s.order[i]);
      }
      JoinTrimmed(ts);
    }
    assert t[..7] == "SELECT ";
  }

  /** Adding a WHERE to a statement without WHERE and ORDER appends " WHERE <cond>". */
  lemma WhereAppended(s: Statement, c: Expr)
    requires Closed(s) && s.where.None? && s.order == [] && Names(c) == {}
    ensures Render(s.(where := Some(c))) == Ok(Render(s).value + " WHERE " + ExprText(c))
  {
    var s' := s.(where := Some(c));
    assert StatementNames(s') == StatementNames(s) + Names(c);
    assert StatementText(s') == StatementText(s) + " WHERE " + ExprText(c);
  }

  /** Adding ORDER keys to a statement without them appends " ORDER BY <keys>". */
  lemma OrderAppended(s: Statement, keys: seq<Expr>)
    requires Closed(s) && s.order == [] && keys != [] && NamesOf(keys) == {}
    ensures Render(s.(order := keys)) == Ok(Render(s).value + " ORDER BY " + JoinComma(Texts(keys)))
  {
    var s' := s.(order := keys);
    assert StatementNames(s') == StatementNames(s) + NamesOf(keys);
    assert StatementText(s') == StatementText(s) + " ORDER BY " + JoinComma(Texts(keys));
  }

  /** Open minus closed parentheses in `s`. */
  function Depth(s: string): int {
    if s == [] then 0
    else Depth(s[..|s| - 1]) + (if s[|s| - 1] == '(' then 1 else if s[|s| - 1] == ')' then -1 else 0)
  }

  /** Every prefix closes no more parentheses than it opened, and the whole closes them all. */
  predicate Balanced(s: string) {
    Depth(s) == 0 && forall k :: 0 <= k <= |s| ==> Depth(s[..k]) >= 0
  }

  /** One parenthesised group: the opening parenthesis is closed only by the last character. */
  predicate Enclosed(s: string) {
    |s| >= 2 && s[0] == '(' && s[|s| - 1] == ')' && Balanced(s)
    && forall k :: 0 < k < |s| ==> Depth(s[..k]) >= 1
  }

  predicate NoParens(s: string) {
    '(' !in s && ')' !in s
  }

  /** No identifier or string literal of `e` contains a parenthesis. */
  predicate ParenFree(e: Expr) {
    match e
    case Column(t, c) => NoParens(t) && NoParens(c)
    case Table(t) => NoParens(t)
    case Str(v) => NoParens(v)
    case Placeholder(_) => true
    case Eq(l, r) => ParenFree(l) && ParenFree(r)
    case Or(l, r) => ParenFree(l) && ParenFree(r)
    case Desc(k) => ParenFree(k)
  }

  lemma {:induction false} DepthConcat(a: string, b: string)
    ensures Depth(a + b) == Depth(a) + Depth(b)
  {
    if b == [] {
      assert a + b == a;
    } else {
      assert (a + b)[..|a + b| - 1] == a + b[..|b| - 1];
      DepthConcat(a, b[..|b| - 1]);
    }
  }

  lemma {:induction false} DepthFlat(s: string)
    requires NoParens(s)
    ensures Depth(s) == 0
  {
    if s != [] {
      assert s[|s| - 1] in s;
      assert NoParens(s[..|s| - 1]) by {
        assert forall x :: x in s[..|s| - 1] ==> x in s;
      }
      DepthFlat(s[..|s| - 1]);
    }
  }

  lemma FlatBalanced(s: string)
    requires NoParens(s)
    ensures Balanced(s)
  {
    DepthFlat(s);
    forall k | 0 <= k <= |s| ensures Depth(s[..k]) >= 0 {
      assert NoParens(s[..k]) by {
        assert forall x :: x in s[..k] ==> x in s;
      }
      DepthFlat(s[..k]);
    }
  }

  lemma BalancedConcat(a: string, b: string)
    requires Balanced(a) && Balanced(b)
    ensures Balanced(a + b)
  {
    DepthConcat(a, b);
    forall k | 0 <= k <= |a + b| ensures Depth((a + b)[..k]) >= 0 {
      if k <= |a| {
        assert (a + b)[..k] == a[..k];
      } else {
        assert (a + b)[..k] == a + b[..k - |a|];
        DepthConcat(a, b[..k - |a|]);
      }
    }
  }

  /** Wrapping a balanced text in parentheses gives one enclosed group. */
  lemma Enclose(a: string)
    requires Balanced(a)
    ensures Enclosed("(" + a + ")")
  {
    var s := "(" + a + ")";
    DepthConcat("(", a);
    DepthConcat("(" + a, ")");
    assert Depth("(") == 1 by {
      assert "("[..0] == [];
    }
    assert Depth(")") == -1 by {
      assert ")"[..0] == [];
    }
    forall k | 0 < k < |s| ensures Depth(s[..k]) >= 1 {
      assert s[..k] == "(" + a[..k - 1];
      DepthConcat("(", a[..k - 1]);
    }
    assert s[..0] == [];
    assert s[..|s|] == s;
  }

  /** Two balanced texts around a separator without parentheses stay balanced. */
  lemma JoinedBalanced(a: string, sep: string, b: string)
    requires Balanced(a) && Balanced(b) && NoParens(sep)
    ensures Balanced(a + sep + b)
  {
    FlatBalanced(sep);
    BalancedConcat(a, sep);
    BalancedConcat(a + sep, b);
  }

  /** Rendering keeps parentheses balanced at every depth of nesting. */
  lemma {:induction false} ExprTextBalanced(e: Expr)
    requires Names(e) == {} && ParenFree(e)
    ensures Balanced(ExprText(e))
    decreases e, 1
  {
    match e
    case Column(t, c) =>
      FlatBalanced(ExprText(e));
    case Table(t) =>
      FlatBalanced(ExprText(e));
    case Str(v) =>
      FlatBalanced(ExprText(e));
    case Eq(l, r) =>
      ExprTextBalanced(l);
      ExprTextBalanced(r);
      JoinedBalanced(ExprText(l), " = ", ExprText(r));
    case Or(l, r) =>
      OrOperandsEnclosed(l, r);
      JoinedBalanced("(" + ExprText(l) + ")", " OR ", "(" + ExprText(r) + ")");
    case Desc(k) =>
      ExprTextBalanced(k);
      FlatBalanced(" DESC");
      BalancedConcat(ExprText(k), " DESC");
  }

  /**
   * An OR renders as two enclosed groups around " OR ": each operand's
   * parentheses close exactly where the operand ends, so the OR is outside
   * both groups however the operands nest.
   */
  lemma {:induction false} OrOperandsEnclosed(l: Expr, r: Expr)
    requires Names(l) == {} && Names(r) == {} && ParenFree(l) && ParenFree(r)
    ensures Enclosed("(" + ExprText(l) + ")") && Enclosed("(" + ExprText(r) + ")")
    ensures ExprText(Or(l, r)) == ("(" + ExprText(l) + ")") + " OR " + ("(" + ExprText(r) + ")")
    decreases Or(l, r), 0
  {
    ExprTextBalanced(l);
    ExprTextBalanced(r);
    Enclose(ExprText(l));
    Enclose(ExprText(r));
    OrShape(ExprText(l), ExprText(r));
  }

  lemma OrShape(a: string, b: string)
    ensures "(" + a + ") OR (" + b + ")" == ("(" + a + ")") + " OR " + ("(" + b + ")")
  {
    assert ") OR (" == ")" + " OR " + "(";
  }
}
