/**
 * The backtick fragment parser: `"users"."id"` becomes a column reference and
 * `"users"` a table reference. It accepts exactly the quoted forms the
 * renderer emits and nothing else.
 */
module Fragments {
  import opened Results
  import opened Ast
  import opened Renderer

  /** A name that can stand between double quotes: non-empty, no double quote. */
  predicate Ident(s: string) {
    |s| > 0 && '"' !in s
  }

  /** The index of the first double quote in `s` at or after `from`, or |s|. */
  function NextQuote(s: string, from: nat): (i: nat)
    requires from <= |s|
    ensures from <= i <= |s|
    ensures i < |s| ==> s[i] == '"'
    ensures forall j :: from <= j < i ==> s[j] != '"'
    decreases |s| - from
  {
    if from == |s| || s[from] == '"' then from else NextQuote(s, from + 1)
  }

  /** Parses `"t"` into Table(t) and `"t"."c"` into Column(t, c). */
  function ParseFragment(s: string): (r: Result<Expr, Error>)
    ensures r.Err? ==> r.error == MalformedFragment
    ensures r.Ok? ==> r.value.Table? || r.value.Column?
  {
    if |s| < 2 || s[0] != '"' then Err(MalformedFragment)
    else
      var i := NextQuote(s, 1);
      if i == |s| || i == 1 then Err(MalformedFragment)
      else if i == |s| - 1 then Ok(Table(s[1..i]))
      else if i + 3 < |s| - 1 && s[i + 1] == '.' && s[i + 2] == '"' && NextQuote(s, i + 3) == |s| - 1
      then Ok(Column(s[1..i], s[i + 3..|s| - 1]))
      else Err(MalformedFragment)
  }

  lemma NextQuoteAt(s: string, from: nat, k: nat)
    requires from <= k < |s| && s[k] == '"'
    requires forall j :: from <= j < k ==> s[j] != '"'
    ensures NextQuote(s, from) == k
  {
  }

  /** The fragment `"t"` parses to the table t. */
  lemma ParseQuotedTable(t: string)
    requires Ident(t)
    ensures ParseFragment(Quote(t)) == Ok(Table(t))
  {
    var s := Quote(t);
    forall j | 1 <= j < |t| + 1 ensures s[j] != '"' {
      assert s[j] == t[j - 1];
    }
    NextQuoteAt(s, 1, |t| + 1);
    assert s[1..|t| + 1] == t;
  }

  /** The fragment `"t"."c"` parses to the column c of table t. */
  lemma ParseQuotedColumn(t: string, c: string)
    requires Ident(t) && Ident(c)
    ensures ParseFragment(Quote(t) + "." + Quote(c)) == Ok(Column(t, c))
  {
    var s := Quote(t) + "." + Quote(c);
    var i := |t| + 1;
    assert |s| == |t| + |c| + 5;
    forall j | 1 <= j < i ensures s[j] != '"' {
      assert s[j] == t[j - 1];
    }
    NextQuoteAt(s, 1, i);
    forall j | i + 3 <= j < |s| - 1 ensures s[j] != '"' {
      assert s[j] == c[j - i - 3];
    }
    NextQuoteAt(s, i + 3, |s| - 1);
    assert forall j :: 0 <= j < |t| ==> s[1 + j] == t[j];
    assert s[1..i] == t;
    assert forall j :: 0 <= j < |c| ==> s[i + 3 + j] == c[j];
    assert s[i + 3..|s| - 1] == c;
  }

  /** Whatever parses is a reference whose rendering is the fragment itself. */
  lemma ParsedIsCanonical(s: string)
    requires ParseFragment(s).Ok?
    ensures var e := ParseFragment(s).value;
      || (e.Table? && Ident(e.name) && s == Quote(e.name))
      || (e.Column? && Ident(e.table) && Ident(e.column) && s == Quote(e.table) + "." + Quote(e.column))
  {
    var i := NextQuote(s, 1);
    var t := s[1..i];
    assert forall j :: 0 <= j < |t| ==> t[j] == s[j + 1];
    if i == |s| - 1 {
      assert s == Quote(t);
    } else {
      var c := s[i + 3..|s| - 1];
      assert forall j :: 0 <= j < |c| ==> c[j] == s[j + i + 3];
      assert s == Quote(t) + "." + Quote(c);
    }
  }

  /** Rendering a reference and parsing the text back gives the reference. */
  lemma ParseRendered(e: Expr)
    requires (e.Table? && Ident(e.name)) || (e.Column? && Ident(e.table) && Ident(e.column))
    ensures ParseFragment(ExprText(e)) == Ok(e)
  {
    if e.Table? {
      ParseQuotedTable(e.name);
    } else {
      ParseQuotedColumn(e.table, e.column);
    }
  }

  /** Parsing a fragment and rendering the reference gives the fragment back. */
  lemma RenderParsed(s: string)
    requires ParseFragment(s).Ok?
    ensures Names(ParseFragment(s).value) == {}
    ensures ExprText(ParseFragment(s).value) == s
  {
    ParsedIsCanonical(s);
  }
}
