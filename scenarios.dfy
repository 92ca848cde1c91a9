/**
 * The queries of the `SQL.compose` integration examples, each written once in
 * the authoring style the example uses, with the exact text each renders to
 * and the equivalences between the styles.
 */
module ComposeScenarios {
  import opened Results
  import opened Ast
  import opened Renderer
  import opened Fragments
  import opened Builder
  import opened Binder

  /** The handle `|users|` of the table-handle style. */
  const users := TableHandle("users")

  /** The references an example writes as backtick fragments. */
  const IdFragment := "\"users\".\"id\""
  const NameFragment := "\"users\".\"name\""
  const UsersFragment := "\"users\""

  /** `SELECT `"users"."id"`, `"users"."name"` FROM `"users"``. */
  function SelectWithLiterals(): Result<Statement, Error> {
    var id :- ParseFragment(IdFragment);
    var name :- ParseFragment(NameFragment);
    var table :- ParseFragment(UsersFragment);
    Compose([Select([id, name]), From(table)])
  }

  /** The same with `WHERE `"users"."name"` == 'Jane'`. */
  function WhereWithLiterals(): Result<Statement, Error> {
    var id :- ParseFragment(IdFragment);
    var name :- ParseFragment(NameFragment);
    var table :- ParseFragment(UsersFragment);
    Compose([Select([id, name]), From(table), Where(Eq(name, Lit("Jane")))])
  }

  /** The chained form `SELECT(...).FROM(...)` with fragments. */
  function InlineSyntax(): Result<Statement, Error> {
    var id :- ParseFragment(IdFragment);
    var name :- ParseFragment(NameFragment);
    var table :- ParseFragment(UsersFragment);
    Finish(Start.Add(Select([id, name])).Add(From(table)))
  }

  /** `SELECT users.id, users.name FROM users.table`. */
  function WithoutWhere(): Result<Statement, Error> {
    Compose([Select([users.Attr("id"), users.Attr("name")]), From(users.AsTable())])
  }

  /** The same with `WHERE users.name == "Jane"`. */
  function WithWhere(): Result<Statement, Error> {
    Compose([Select([users.Attr("id"), users.Attr("name")]), From(users.AsTable()),
             Where(Eq(users.Attr("name"), Lit("Jane")))])
  }

  /** `WHERE (users.name == "Jane").OR(users.name == "Jade")`. */
  function TwoConditions(): Result<Statement, Error> {
    Compose([Select([users.Attr("id"), users.Attr("name")]), From(users.AsTable()),
             Where(Or(Eq(users.Attr("name"), Lit("Jane")), Eq(users.Attr("name"), Lit("Jade"))))])
  }

  /** The template `WHERE users.name == "%name%"`. */
  function DynamicWhere(): Result<Statement, Error> {
    Compose([Select([users.Attr("id"), users.Attr("name")]), From(users.AsTable()),
             Where(Eq(users.Attr("name"), Lit("%name%")))])
  }

  /** `WHERE users.name == "Jane"` followed by `ORDER users.id.desc`. */
  function WithOrder(): Result<Statement, Error> {
    Compose([Select([users.Attr("id"), users.Attr("name")]), From(users.AsTable()),
             Where(Eq(users.Attr("name"), Lit("Jane"))), Order([Desc(users.Attr("id"))])])
  }

  /** Lines joined by single spaces; `NormaliseHeredoc` shows an expected text is this. */
  function OneLine(lines: seq<string>): string {
    if lines == [] then ""
    else if |lines| == 1 then lines[0]
    else OneLine(lines[..|lines| - 1]) + " " + lines[|lines| - 1]
  }

  const SelectLine := "SELECT \"users\".\"id\", \"users\".\"name\""
  const FromLine := "FROM \"users\""
  const WhereJaneLine := "WHERE \"users\".\"name\" = 'Jane'"
  const WhereOrLine := "WHERE (\"users\".\"name\" = 'Jane') OR (\"users\".\"name\" = 'Jade')"
  const WhereJadeLine := "WHERE \"users\".\"name\" = 'Jade'"
  const OrderLine := "ORDER BY \"users\".\"id\" DESC"

  lemma OneLine2(a: string, b: string)
    ensures OneLine([a, b]) == a + " " + b
  {
    assert [a, b][..1] == [a];
  }

  lemma OneLine3(a: string, b: string, c: string)
    ensures OneLine([a, b, c]) == a + " " + b + " " + c
  {
    assert [a, b, c][..2] == [a, b];
    OneLine2(a, b);
  }

  lemma OneLine4(a: string, b: string, c: string, d: string)
    ensures OneLine([a, b, c, d]) == a + " " + b + " " + c + " " + d
  {
    assert [a, b, c, d][..3] == [a, b, c];
    OneLine3(a, b, c);
  }

  /** The characters Ruby's `strip` removes: NUL, tab, line feed, vertical tab, form feed, carriage return, space. */
  predicate IsBlank(c: char) {
    c == '\0' || c == '\t' || c == '\n' || c == '\U{000B}' || c == '\U{000C}' || c == '\r' || c == ' '
  }

  /** A squiggly heredoc `<<~SQL`: each line, its indentation removed, ends with a line feed. */
  function Heredoc(lines: seq<string>): string {
    if lines == [] then "" else Heredoc(lines[..|lines| - 1]) + lines[|lines| - 1] + "\n"
  }

  /** `lstrip`: drops the leading blanks and nothing else. */
  function StripStart(s: string): (r: string)
    ensures |r| <= |s| && r == s[|s| - |r|..]
    ensures forall i :: 0 <= i < |s| - |r| ==> IsBlank(s[i])
    ensures r == [] || !IsBlank(r[0])
    decreases |s|
  {
    if |s| > 0 && IsBlank(s[0]) then StripStart(s[1..]) else s
  }

  /** `rstrip`: drops the trailing blanks and nothing else. */
  function StripEnd(s: string): (r: string)
    ensures |r| <= |s| && r == s[..|r|]
    ensures forall i :: |r| <= i < |s| ==> IsBlank(s[i])
    ensures r == [] || !IsBlank(r[|r| - 1])
    decreases |s|
  {
    if |s| > 0 && IsBlank(s[|s| - 1]) then StripEnd(s[..|s| - 1]) else s
  }

  /** `gsub("\n", " ")`: every line feed becomes a space. */
  function NewlinesToSpaces(s: string): (r: string)
    ensures |r| == |s|
    ensures forall i :: 0 <= i < |s| ==> r[i] == if s[i] == '\n' then ' ' else s[i]
  {
    seq(|s|, i requires 0 <= i < |s| => if s[i] == '\n' then ' ' else s[i])
  }

  /** An expected text as an example writes it: `<<~SQL ... SQL.strip.gsub("\n", " ")`. */
  function Expected(lines: seq<string>): string {
    NewlinesToSpaces(StripEnd(StripStart(Heredoc(lines))))
  }

  lemma NewlinesConcat(a: string, b: string)
    ensures NewlinesToSpaces(a + b) == NewlinesToSpaces(a) + NewlinesToSpaces(b)
  {
    var l, r := NewlinesToSpaces(a + b), NewlinesToSpaces(a) + NewlinesToSpaces(b);
    assert |l| == |r|;
    forall i | 0 <= i < |l|
      ensures l[i] == r[i]
    {
      if i < |a| {
        assert (a + b)[i] == a[i];
      } else {
        assert (a + b)[i] == b[i - |a|];
      }
    }
  }

  lemma NewlinesAbsent(l: string)
    requires '\n' !in l
    ensures NewlinesToSpaces(l) == l
  {
    var r := NewlinesToSpaces(l);
    forall i | 0 <= i < |l|
      ensures r[i] == l[i]
    {
      assert l[i] in l;
    }
  }

  /** Without its outer blanks, a heredoc's line feeds become the spaces joining its lines. */
  lemma {:induction false} SpacedHeredoc(lines: seq<string>)
    requires lines != []
    requires forall i :: 0 <= i < |lines| ==> '\n' !in lines[i]
    ensures NewlinesToSpaces(Heredoc(lines)) == OneLine(lines) + " "
  {
    var p, l := lines[..|lines| - 1], lines[|lines| - 1];
    NewlinesConcat(Heredoc(p) + l, "\n");
    NewlinesConcat(Heredoc(p), l);
    NewlinesAbsent(l);
    assert NewlinesToSpaces("\n") == " ";
    if |lines| == 1 {
      assert p == [];
    } else {
      assert forall i :: 0 <= i < |p| ==> p[i] == lines[i];
      SpacedHeredoc(p);
    }
  }

  lemma {:induction false} HeredocStart(lines: seq<string>)
    requires lines != [] && |lines[0]| > 0
    ensures |Heredoc(lines)| > 0 && Heredoc(lines)[0] == lines[0][0]
  {
    var p := lines[..|lines| - 1];
    if |lines| > 1 {
      assert p[0] == lines[0];
      HeredocStart(p);
    }
  }

  /**
   * `.strip.gsub("\n", " ")` of a heredoc is its lines joined by single spaces
   * when no line holds a line feed and the text starts and ends with a non-blank.
   */
  lemma NormaliseHeredoc(lines: seq<string>)
    requires lines != []
    requires forall i :: 0 <= i < |lines| ==> '\n' !in lines[i]
    requires |lines[0]| > 0 && !IsBlank(lines[0][0])
    requires var last := lines[|lines| - 1]; |last| > 0 && !IsBlank(last[|last| - 1])
    ensures Expected(lines) == OneLine(lines)
  {
    var h := Heredoc(lines);
    var p, l := lines[..|lines| - 1], lines[|lines| - 1];
    HeredocStart(lines);
    assert StripStart(h) == h;
    var body := Heredoc(p) + l;
    assert h == body + "\n";
    assert h[..|h| - 1] == body;
    assert body[|body| - 1] == l[|l| - 1];
    assert StripEnd(h) == StripEnd(body);
    assert StripEnd(body) == body;
    SpacedHeredoc(lines);
    NewlinesConcat(body, "\n");
    assert NewlinesToSpaces("\n") == " ";
  }

  /** A line of an expected text: no line feed and no blank at either end. */
  predicate HeredocLine(l: string) {
    |l| > 0 && '\n' !in l && !IsBlank(l[0]) && !IsBlank(l[|l| - 1])
  }

  lemma SelectFromLines()
    ensures HeredocLine(SelectLine) && HeredocLine(FromLine)
  {
  }

  lemma ExpectedSelectFrom()
    ensures Expected([SelectLine, FromLine]) == OneLine([SelectLine, FromLine])
  {
    SelectFromLines();
    NormaliseHeredoc([SelectLine, FromLine]);
  }

  lemma ExpectedWith(line: string)
    requires HeredocLine(line)
    ensures Expected([SelectLine, FromLine, line]) == OneLine([SelectLine, FromLine, line])
  {
    SelectFromLines();
    NormaliseHeredoc([SelectLine, FromLine, line]);
  }

  lemma ExpectedWithOrder(line: string, oline: string)
    requires HeredocLine(line) && HeredocLine(oline)
    ensures Expected([SelectLine, FromLine, line, oline]) == OneLine([SelectLine, FromLine, line, oline])
  {
    SelectFromLines();
    NormaliseHeredoc([SelectLine, FromLine, line, oline]);
  }

  lemma NoNewlineConcat(a: string, b: string)
    requires '\n' !in a && '\n' !in b
    ensures '\n' !in a + b
  {
  }

  lemma JaneLine()
    ensures HeredocLine(WhereJaneLine)
  {
  }

  lemma JadeLine()
    ensures HeredocLine(WhereJadeLine)
  {
  }

  lemma OrLine()
    ensures HeredocLine(WhereOrLine)
  {
    var jane, jade := "\"users\".\"name\" = 'Jane'", "\"users\".\"name\" = 'Jade'";
    var s1 := "WHERE (\"users\".\"name\" = 'Jane'";
    var s2 := "WHERE (\"users\".\"name\" = 'Jane') OR (";
    var s3 := "WHERE (\"users\".\"name\" = 'Jane') OR (\"users\".\"name\" = 'Jade'";
    OrLineStep1();
    OrLineStep2();
    OrLineStep3();
    OrLineStep4();
    NoNewlineConcat("WHERE " + "(", jane);
    NoNewlineConcat(s1, ") OR (");
    NoNewlineConcat(s2, jade);
    NoNewlineConcat(s3, ")");
  }

  lemma OrderLineFacts()
    ensures HeredocLine(OrderLine)
  {
  }

  /** Both styles converge: a quoted fragment parses to what the handle gives. */
  lemma StylesConverge(t: string, c: string)
    requires Ident(t) && Ident(c)
    ensures ParseFragment(Quote(t) + "." + Quote(c)) == Ok(TableHandle(t).Attr(c))
    ensures ParseFragment(Quote(t)) == Ok(TableHandle(t).AsTable())
  {
    ParseQuotedColumn(t, c);
    ParseQuotedTable(t);
  }

  lemma IdQuoted()
    ensures Quote("users") + "." + Quote("id") == IdFragment
  {
  }

  lemma NameQuoted()
    ensures Quote("users") + "." + Quote("name") == NameFragment
  {
  }

  lemma UsersQuoted()
    ensures Quote("users") == UsersFragment
  {
  }

  lemma ParseId()
    ensures ParseFragment(IdFragment) == Ok(users.Attr("id"))
  {
    IdQuoted();
    StylesConverge("users", "id");
  }

  lemma ParseName()
    ensures ParseFragment(NameFragment) == Ok(users.Attr("name"))
  {
    NameQuoted();
    StylesConverge("users", "name");
  }

  lemma ParseUsers()
    ensures ParseFragment(UsersFragment) == Ok(users.AsTable())
  {
    UsersQuoted();
    StylesConverge("users", "id");
  }

  lemma UsersFragments()
    ensures ParseFragment(IdFragment) == Ok(users.Attr("id"))
    ensures ParseFragment(NameFragment) == Ok(users.Attr("name"))
    ensures ParseFragment(UsersFragment) == Ok(users.AsTable())
  {
    ParseId();
    ParseName();
    ParseUsers();
  }

  /** Literal fragments and table handles build the same statements. */
  lemma LiteralStyleMatchesHandleStyle()
    ensures SelectWithLiterals() == WithoutWhere()
    ensures WhereWithLiterals() == WithWhere()
  {
    UsersFragments();
  }

  /** The chained form builds the same statement as the declarative form. */
  lemma InlineMatchesDeclarative()
    ensures InlineSyntax() == SelectWithLiterals()
  {
    UsersFragments();
    ChainedMatchesDeclarative([users.Attr("id"), users.Attr("name")], users.AsTable());
  }

  /** The select list and source the examples share. */
  const Items := [users.Attr("id"), users.Attr("name")]

  /** `users.name == "Jane"` */
  const NameIsJane := Eq(users.Attr("name"), Str("Jane"))

  lemma ItemsText()
    ensures NamesOf(Items) == {}
    ensures JoinComma(Texts(Items)) == IdFragment + ", " + NameFragment
  {
    NamesOfEmpty(Items);
    var ts := Texts(Items);
    assert ts[0] == IdFragment && ts[1] == NameFragment;
    assert ts[1..] == [NameFragment];
  }

  lemma SelectLineText()
    ensures "SELECT " + IdFragment + ", " + NameFragment == SelectLine
  {
    assert "SELECT " + IdFragment == "SELECT \"users\".\"id\"";
    assert "SELECT \"users\".\"id\"" + ", " == "SELECT \"users\".\"id\", ";
  }

  lemma RenderSelectFrom(items: seq<Expr>, t: Expr)
    requires NamesOf(items) == {} && Names(t) == {}
    ensures Render(Statement(items, t, None, [])) == Ok("SELECT " + JoinComma(Texts(items)) + " FROM " + ExprText(t))
  {
    var s := Statement(items, t, None, []);
    assert StatementNames(s) == {};
    var x := "SELECT " + JoinComma(Texts(items)) + " FROM " + ExprText(t);
    assert StatementText(s) == x + "" + "";
    assert x + "" + "" == x;
  }

  lemma Regroup(a: string, b: string, e: string, m: string, f: string, g: string)
    requires a + b == e && m + f == " " + g
    ensures a + b + m + f == e + " " + g
  {
    Assoc(e, m, f);
    Assoc(e, " ", g);
  }

  lemma RenderSelect()
    ensures Render(Statement(Items, users.AsTable(), None, [])) == Ok(OneLine([SelectLine, FromLine]))
  {
    ItemsText();
    SelectLineText();
    RenderSelectFrom(Items, users.AsTable());
    assert ExprText(users.AsTable()) == UsersFragment;
    assert " FROM " + UsersFragment == " " + FromLine;
    Assoc("SELECT ", IdFragment + ", ", NameFragment);
    Assoc("SELECT ", IdFragment, ", ");
    Regroup("SELECT ", JoinComma(Texts(Items)), SelectLine, " FROM ", UsersFragment, FromLine);
    OneLine2(SelectLine, FromLine);
  }

  /** SELECT with fragments renders `SELECT "users"."id", "users"."name" FROM "users"`. */
  lemma SelectWithLiteralsRenders()
    ensures SelectWithLiterals().Ok?
    ensures Render(SelectWithLiterals().value) == Ok(Expected([SelectLine, FromLine]))
  {
    ExpectedSelectFrom();
    LiteralStyleMatchesHandleStyle();
    ComposeSelectFrom(Items, users.AsTable());
    RenderSelect();
  }

  /** The table-handle style renders the same text. */
  lemma WithoutWhereRenders()
    ensures WithoutWhere().Ok?
    ensures Render(WithoutWhere().value) == Ok(Expected([SelectLine, FromLine]))
  {
    SelectWithLiteralsRenders();
    LiteralStyleMatchesHandleStyle();
  }

  /** The chained form renders the same text. */
  lemma InlineSyntaxRenders()
    ensures InlineSyntax().Ok?
    ensures Render(InlineSyntax().value) == Ok(Expected([SelectLine, FromLine]))
  {
    InlineMatchesDeclarative();
    SelectWithLiteralsRenders();
  }

  lemma Assoc(x: string, y: string, z: string)
    ensures x + y + z == x + (y + z)
  {
  }

  /** " KEYWORD body" is one space and then the clause line "KEYWORD body". */
  lemma ClauseAfterSpace(keyword: string, body: string)
    ensures " " + keyword + " " + body == " " + (keyword + " " + body)
  {
    Assoc(" ", keyword, " ");
    Assoc(" " + keyword, " ", body);
    Assoc(" ", keyword + " ", body);
    Assoc(" ", keyword, " " + body);
    Assoc(keyword, " ", body);
  }

  lemma RenderSelectWhere(cond: Expr, line: string)
    requires Names(cond) == {} && "WHERE " + ExprText(cond) == line
    ensures Render(Statement(Items, users.AsTable(), Some(cond), [])) == Ok(OneLine([SelectLine, FromLine, line]))
  {
    RenderSelect();
    OneLine2(SelectLine, FromLine);
    OneLine3(SelectLine, FromLine, line);
    WhereAppended(Statement(Items, users.AsTable(), None, []), cond);
    ClauseAfterSpace("WHERE", ExprText(cond));
    assert " WHERE " == " " + "WHERE" + " ";
    assert "WHERE " == "WHERE" + " ";
    Assoc(OneLine([SelectLine, FromLine]), " WHERE ", ExprText(cond));
    Assoc(OneLine([SelectLine, FromLine]), " ", line);
  }

  lemma NameText()
    ensures Names(users.Attr("name")) == {}
    ensures ExprText(users.Attr("name")) == NameFragment
  {
  }

  /** `users.name == v` renders as the quoted column, ` = ` and the quoted literal. */
  lemma EqText(v: string)
    ensures Names(Eq(users.Attr("name"), Str(v))) == {}
    ensures ExprText(Eq(users.Attr("name"), Str(v))) == NameFragment + " = " + ("'" + v + "'")
  {
    NameText();
  }

  lemma NameEqStep()
    ensures NameFragment + " = " == "\"users\".\"name\" = "
  {
  }

  /** The text of `users.name == v` once the quoted literal `q` is known. */
  lemma EqLiteralText(v: string, q: string)
    requires "'" + v + "'" == q
    ensures ExprText(Eq(users.Attr("name"), Str(v))) == "\"users\".\"name\" = " + q
  {
    EqText(v);
    NameEqStep();
  }

  lemma WherePrefixStep()
    ensures "WHERE " + "\"users\".\"name\" = " == "WHERE \"users\".\"name\" = "
  {
  }

  lemma WhereEqLine(v: string, q: string, line: string)
    requires "'" + v + "'" == q && "WHERE \"users\".\"name\" = " + q == line
    ensures Names(Eq(users.Attr("name"), Str(v))) == {}
    ensures "WHERE " + ExprText(Eq(users.Attr("name"), Str(v))) == line
  {
    EqText(v);
    EqLiteralText(v, q);
    WherePrefixStep();
    Assoc("WHERE ", "\"users\".\"name\" = ", q);
  }

  lemma JaneQuoted()
    ensures "'" + "Jane" + "'" == "'Jane'"
  {
  }

  lemma JadeQuoted()
    ensures "'" + "Jade" + "'" == "'Jade'"
  {
  }

  lemma JaneLineStep()
    ensures "WHERE \"users\".\"name\" = " + "'Jane'" == WhereJaneLine
  {
  }

  lemma JadeLineStep()
    ensures "WHERE \"users\".\"name\" = " + "'Jade'" == WhereJadeLine
  {
  }

  lemma JaneText()
    ensures Names(NameIsJane) == {}
    ensures "WHERE " + ExprText(NameIsJane) == WhereJaneLine
  {
    JaneQuoted();
    JaneLineStep();
    WhereEqLine("Jane", "'Jane'", WhereJaneLine);
  }

  /** `WHERE users.name == "Jane"` appends ` WHERE "users"."name" = 'Jane'`. */
  lemma WithWhereRenders()
    ensures WithWhere().Ok?
    ensures Render(WithWhere().value) == Ok(Expected([SelectLine, FromLine, WhereJaneLine]))
  {
    JaneLine();
    ExpectedWith(WhereJaneLine);
    LitIsString("Jane");
    ComposeSelectFromWhere(Items, users.AsTable(), NameIsJane);
    JaneText();
    RenderSelectWhere(NameIsJane, WhereJaneLine);
  }

  /** The same filter written with fragments renders the same text. */
  lemma WhereWithLiteralsRenders()
    ensures WhereWithLiterals().Ok?
    ensures Render(WhereWithLiterals().value) == Ok(Expected([SelectLine, FromLine, WhereJaneLine]))
  {
    LiteralStyleMatchesHandleStyle();
    WithWhereRenders();
  }

  // The OR line assembled one literal at a time from the left.
  lemma OrLineStep1()
    ensures "WHERE " + "(" + "\"users\".\"name\" = 'Jane'" == "WHERE (\"users\".\"name\" = 'Jane'"
  {
  }

  lemma OrLineStep2()
    ensures "WHERE (\"users\".\"name\" = 'Jane'" + ") OR (" == "WHERE (\"users\".\"name\" = 'Jane') OR ("
  {
  }

  lemma OrLineStep3()
    ensures "WHERE (\"users\".\"name\" = 'Jane') OR (" + "\"users\".\"name\" = 'Jade'"
      == "WHERE (\"users\".\"name\" = 'Jane') OR (\"users\".\"name\" = 'Jade'"
  {
  }

  lemma OrLineStep4()
    ensures "WHERE (\"users\".\"name\" = 'Jane') OR (\"users\".\"name\" = 'Jade'" + ")" == WhereOrLine
  {
  }

  lemma JaneNameStep()
    ensures "\"users\".\"name\" = " + "'Jane'" == "\"users\".\"name\" = 'Jane'"
  {
  }

  lemma JadeNameStep()
    ensures "\"users\".\"name\" = " + "'Jade'" == "\"users\".\"name\" = 'Jade'"
  {
  }

  lemma OrLineText(a: string, b: string)
    requires a == "\"users\".\"name\" = 'Jane'" && b == "\"users\".\"name\" = 'Jade'"
    ensures "WHERE " + ("(" + a + ") OR (" + b + ")") == WhereOrLine
  {
    Regroup5("WHERE ", "(", a, ") OR (", b, ")");
    OrLineStep1();
    OrLineStep2();
    OrLineStep3();
    OrLineStep4();
  }

  lemma Regroup5(w: string, p: string, a: string, q: string, b: string, r: string)
    ensures w + (p + a + q + b + r) == w + p + a + q + b + r
  {
  }

  /** `(users.name == "Jane").OR(users.name == "Jade")` */
  const JaneOrJade := Or(NameIsJane, Eq(users.Attr("name"), Str("Jade")))

  lemma OrText()
    ensures Names(JaneOrJade) == {}
    ensures "WHERE " + ExprText(JaneOrJade) == WhereOrLine
  {
    var jade := Eq(users.Attr("name"), Str("Jade"));
    var a := ExprText(NameIsJane);
    var b := ExprText(jade);
    JaneQuoted();
    JadeQuoted();
    EqLiteralText("Jane", "'Jane'");
    EqLiteralText("Jade", "'Jade'");
    EqText("Jane");
    EqText("Jade");
    JaneNameStep();
    JadeNameStep();
    OrLineText(a, b);
  }

  /** An OR parenthesises each of its operands. */
  lemma TwoConditionsRender()
    ensures TwoConditions().Ok?
    ensures Render(TwoConditions().value) == Ok(Expected([SelectLine, FromLine, WhereOrLine]))
  {
    LitIsString("Jane");
    LitIsString("Jade");
    ComposeSelectFromWhere(Items, users.AsTable(), JaneOrJade);
    OrText();
    RenderSelectWhere(JaneOrJade, WhereOrLine);
    OrLine();
    ExpectedWith(WhereOrLine);
  }

  /** The template `users.name == "%name%"` and what `set(name: v)` makes of it. */
  lemma BindTemplate(v: string)
    ensures DynamicWhere() == Ok(Statement(Items, users.AsTable(), Some(Eq(users.Attr("name"), Placeholder("name"))), []))
    ensures Bind(DynamicWhere().value, map["name" := v]) == Statement(Items, users.AsTable(), Some(Eq(users.Attr("name"), Str(v))), [])
  {
    var template := Eq(users.Attr("name"), Placeholder("name"));
    LitIsPlaceholder("%name%", "name");
    ComposeSelectFromWhere(Items, users.AsTable(), template);
    ItemsText();
    BindAllUnused(Items, map["name" := v]);
    assert BindExpr(template, map["name" := v]) == Eq(users.Attr("name"), Str(v));
    assert BindExpr(users.AsTable(), map["name" := v]) == users.AsTable();
    assert BindAll([], map["name" := v]) == [];
  }

  /** The template itself cannot be rendered; `set(name: "Jane")` gives the literal query. */
  lemma DynamicWhereBinds()
    ensures DynamicWhere().Ok? && WithWhere().Ok?
    ensures Render(DynamicWhere().value) == Err(UnboundPlaceholder)
    ensures Bind(DynamicWhere().value, map["name" := "Jane"]) == WithWhere().value
    ensures Render(Bind(DynamicWhere().value, map["name" := "Jane"])) == Ok(Expected([SelectLine, FromLine, WhereJaneLine]))
  {
    BindTemplate("Jane");
    LitIsString("Jane");
    ComposeSelectFromWhere(Items, users.AsTable(), NameIsJane);
    assert "name" in StatementNames(DynamicWhere().value);
    WithWhereRenders();
  }

  /** `set(name: "Jade")` on the same template. */
  lemma DynamicWhereBindsJade()
    ensures DynamicWhere().Ok?
    ensures Render(Bind(DynamicWhere().value, map["name" := "Jade"])) == Ok(Expected([SelectLine, FromLine, WhereJadeLine]))
  {
    JadeLine();
    ExpectedWith(WhereJadeLine);
    var jade := Eq(users.Attr("name"), Str("Jade"));
    BindTemplate("Jade");
    JadeQuoted();
    JadeLineStep();
    WhereEqLine("Jade", "'Jade'", WhereJadeLine);
    RenderSelectWhere(jade, WhereJadeLine);
  }

  /** The text every binding of the template shares, before the bound value. */
  const TemplateHead := SelectLine + " " + FromLine + " " + "WHERE \"users\".\"name\" = " + "'"

  /** `set(name: v)` renders the fixed head, then `v`, then the closing quote. */
  lemma TemplateText(v: string)
    ensures DynamicWhere().Ok?
    ensures Render(Bind(DynamicWhere().value, map["name" := v])) == Ok(TemplateHead + v + "'")
  {
    BindTemplate(v);
    var q := "'" + v + "'";
    var w := "WHERE \"users\".\"name\" = ";
    WhereEqLine(v, q, w + q);
    RenderSelectWhere(Eq(users.Attr("name"), Str(v)), w + q);
    OneLine3(SelectLine, FromLine, w + q);
    var x := SelectLine + " " + FromLine + " ";
    assert x + (w + q) == x + w + "'" + v + "'";
  }

  lemma Framed(p: string, v: string, s: string)
    ensures |p + v + s| == |p| + |v| + |s|
    ensures (p + v + s)[|p|..|p| + |v|] == v
  {
  }

  /** One template serves many bindings: different values give different texts. */
  lemma TemplateReuse(v1: string, v2: string)
    requires v1 != v2
    ensures DynamicWhere().Ok?
    ensures Render(Bind(DynamicWhere().value, map["name" := v1])).Ok?
    ensures Render(Bind(DynamicWhere().value, map["name" := v1]))
      != Render(Bind(DynamicWhere().value, map["name" := v2]))
  {
    TemplateText(v1);
    TemplateText(v2);
    Framed(TemplateHead, v1, "'");
    Framed(TemplateHead, v2, "'");
  }

  lemma OrderLineText(k: string)
    requires k == IdFragment + " DESC"
    ensures "ORDER BY " + k == OrderLine
  {
    Assoc("ORDER BY ", IdFragment, " DESC");
    assert "ORDER BY " + IdFragment == "ORDER BY \"users\".\"id\"";
  }

  lemma KeysText()
    ensures NamesOf([Desc(users.Attr("id"))]) == {}
    ensures JoinComma(Texts([Desc(users.Attr("id"))])) == IdFragment + " DESC"
  {
    var keys := [Desc(users.Attr("id"))];
    NamesOfEmpty(keys);
    var k := Texts(keys);
    assert ExprText(users.Attr("id")) == IdFragment;
    assert k[0] == IdFragment + " DESC";
    assert JoinComma(k) == k[0];
  }

  lemma RenderSelectWhereOrder(cond: Expr, line: string, keys: seq<Expr>, oline: string)
    requires Names(cond) == {} && "WHERE " + ExprText(cond) == line
    requires keys != [] && NamesOf(keys) == {} && "ORDER BY " + JoinComma(Texts(keys)) == oline
    ensures Render(Statement(Items, users.AsTable(), Some(cond), keys)) == Ok(OneLine([SelectLine, FromLine, line, oline]))
  {
    RenderSelectWhere(cond, line);
    OrderAppended(Statement(Items, users.AsTable(), Some(cond), []), keys);
    var before := OneLine([SelectLine, FromLine, line]);
    var k := JoinComma(Texts(keys));
    OneLine3(SelectLine, FromLine, line);
    OneLine4(SelectLine, FromLine, line, oline);
    ClauseAfterSpace("ORDER BY", k);
    assert " ORDER BY " == " " + "ORDER BY" + " ";
    assert "ORDER BY " == "ORDER BY" + " ";
    Assoc(before, " ORDER BY ", k);
    Assoc(before, " ", oline);
  }

  /** `ORDER users.id.desc` renders last, after WHERE, as ` ORDER BY "users"."id" DESC`. */
  lemma WithOrderRenders()
    ensures WithOrder().Ok?
    ensures Render(WithOrder().value) == Ok(Expected([SelectLine, FromLine, WhereJaneLine, OrderLine]))
  {
    JaneLine();
    OrderLineFacts();
    ExpectedWithOrder(WhereJaneLine, OrderLine);
    var keys := [Desc(users.Attr("id"))];
    LitIsString("Jane");
    ComposeSelectFromWhereOrder(Items, users.AsTable(), NameIsJane, keys);
    JaneText();
    KeysText();
    OrderLineText(IdFragment + " DESC");
    RenderSelectWhereOrder(NameIsJane, WhereJaneLine, keys, OrderLine);
  }
}
