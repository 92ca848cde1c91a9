# SQL.compose: query composition, binding and rendering

This project is a Dafny model of the engine behind `SQL.compose` in the sql.rb
library. A `compose { ... }` block declares clauses: `SELECT`, `FROM`, `WHERE`
and `ORDER`. The block yields a query value, and `to_s` renders it as one line
of SQL. `set(name: value)` returns a new query in which the `%name%`
placeholders are replaced by string literals. The integration examples in
`spec/integration/sql/compose_spec.rb` pin this behaviour down to exact text.
The model builds the same queries and proves that they render to exactly that
text. It also proves the general laws behind the examples.

The modules follow the engine's parts:

- `Results`: `Option` and `Result`.
- `Ast`: the expression tree and the statement. The expressions are column
  reference, table reference, string literal, placeholder, `=`, `OR` and
  descending key. The statement holds a select list, a source, an optional
  WHERE and an ORDER list. `Ast` also computes the names of the open
  placeholders; a statement with none is *closed*.
- `Renderer`: the SQL text of a closed statement. Identifiers are
  double-quoted and literals single-quoted. Select items are joined by `", "`
  and clauses by one space. `OR` parenthesises each operand. WHERE and
  ORDER BY appear only when present, ORDER BY last. Rendering a statement with
  an open placeholder fails with `UnboundPlaceholder`.
- `Fragments`: the parser for backtick fragments. It accepts exactly the
  canonical forms `"t"` and `"t"."c"`.
- `Builder`: the two authoring styles.
  - The table handle (`users.id`, `users.table`).
  - The `%name%` convention, applied at build time.
  - Clause declarations folded into a draft, first to last: the declarative
    block and the chained `SELECT(...).FROM(...)` are the same fold.
  - The draft finished into a statement.
  - `Collect`, an independent description of the finished draft. It depends
    on clause order only through which clause of each keyword comes first;
    `Compose` does not depend on the order at all (`Builder.ComposeSwap`).
- `Binder`: what `set` does. It replaces each bound placeholder by a string
  literal, anywhere in the statement.
- `ComposeScenarios`: every example of the suite, written in its own style,
  with the exact text it renders to, and one extra binding of the template
  (`"Jade"`) that no example shows. The expected text is modelled as the
  examples write it: a squiggly heredoc (each line ends in a line feed), then
  Ruby's `strip` and `gsub("\n", " ")`. A general lemma shows that this is the
  heredoc's lines joined by single spaces.

The error kinds `IncompleteStatement`, `ConflictingClause`,
`MalformedFragment` and `UnboundPlaceholder` are the model's own decisions; no
example asserts one. A block without SELECT items or without FROM is
incomplete, and any keyword declared twice is a conflict. A fragment other
than `"t"` or `"t"."c"` is malformed. Rendering a statement with an open
placeholder fails. Some other points also go beyond what the examples show:

- Placeholders are looked for in every clause, not only in WHERE.
- Clause declarations may come in any order (`Builder.ComposeSwap`). Every
  block of the suite declares SELECT, FROM, WHERE and ORDER in that order, so
  `Builder.ChainCollects`, `Builder.SwapFacts` and `Builder.ComposeSwap` state
  the model's own order-free reading of a block. They do not restate something
  an example shows.

## Model

| member | source | states |
|---|---|---|
| Renderer.ExprText | spec/integration/sql/compose_spec.rb:20-21 | no contract of its own; the text of a closed expression: quoted identifiers, quoted literals, `<l> = <r>`, `(<l>) OR (<r>)`, `<k> DESC` (lines 20-21, 41, 116, 182). Its laws are `ExprTextTrimmed`, `ExprTextBalanced`, `OrOperandsEnclosed` and, with the parser, `ParseRendered`/`RenderParsed` |
| Renderer.StatementText | spec/integration/sql/compose_spec.rb:19-22 | no contract of its own; the clauses of a closed statement in the order SELECT, FROM, WHERE, ORDER BY, joined by single spaces. Its laws are `RenderedTrimmed`, `WhereAppended` and `OrderAppended` |
| Renderer.Render | spec/integration/sql/compose_spec.rb:4-6 | `to_s` succeeds exactly when no placeholder is open, and its only failure is `UnboundPlaceholder` |
| Renderer.RenderedTrimmed | spec/integration/sql/compose_spec.rb:19 | every rendered statement starts with `SELECT ` and ends in a non-space, as the stripped expected texts do |
| Renderer.ExprTextTrimmed | spec/integration/sql/compose_spec.rb:19 | the text of any closed expression, however nested, is non-empty and has no space at either edge |
| Renderer.JoinTrimmed | spec/integration/sql/compose_spec.rb:20 | a comma-joined non-empty list of trimmed texts is trimmed |
| Renderer.JoinAppend | spec/integration/sql/compose_spec.rb:20 | joining one more item adds `", "` and that item at the end, so items keep their declared order |
| Renderer.SelectItemAppended | spec/integration/sql/compose_spec.rb:12 | appending a select item appends `", "` and its text to the select list |
| Renderer.NamesOfConcat | spec/integration/sql/compose_spec.rb:12 | the open names of two concatenated lists are the union of theirs |
| Renderer.WhereAppended | spec/integration/sql/compose_spec.rb:82-100 | adding a WHERE to a statement without WHERE and ORDER appends exactly ` WHERE ` and the condition text |
| Renderer.OrderAppended | spec/integration/sql/compose_spec.rb:166-186 | adding ORDER keys to a statement without them appends ` ORDER BY ` and the joined keys at the very end, after any WHERE |
| Renderer.ExprTextBalanced | spec/integration/sql/compose_spec.rb:116 | when no identifier or literal holds a parenthesis, every expression text has balanced parentheses |
| Renderer.OrOperandsEnclosed | spec/integration/sql/compose_spec.rb:107 | an `OR` renders as `(<left>) OR (<right>)`, and each operand group is one parenthesised group closed only by its last character |
| Renderer.DepthConcat | spec/integration/sql/compose_spec.rb:116 | the parenthesis depth of a concatenation is the sum of the depths |
| Renderer.BalancedConcat | spec/integration/sql/compose_spec.rb:116 | balanced texts stay balanced when concatenated |
| Renderer.Enclose | spec/integration/sql/compose_spec.rb:116 | parenthesising a balanced text gives one enclosed group |
| Fragments.ParseQuotedTable | spec/integration/sql/compose_spec.rb:13 | the fragment `"t"` parses to the table reference `t` |
| Fragments.ParseQuotedColumn | spec/integration/sql/compose_spec.rb:12 | the fragment `"t"."c"` parses to the column reference `t.c` |
| Fragments.ParseFragment | spec/integration/sql/compose_spec.rb:12-13 | a fragment parses to a table or column reference, and every rejected fragment fails with `MalformedFragment` |
| Fragments.ParsedIsCanonical | spec/integration/sql/compose_spec.rb:12-13 | every accepted fragment is exactly a canonical `"t"` or `"t"."c"`, with identifiers free of `"` |
| Fragments.ParseRendered | spec/integration/sql/compose_spec.rb:20-21 | rendering a table or column reference and parsing the text gives the reference back |
| Fragments.RenderParsed | spec/integration/sql/compose_spec.rb:20-21 | parsing a fragment and rendering the result gives the fragment back |
| Builder.TableHandle.Attr | spec/integration/sql/compose_spec.rb:67 | no contract of its own; `users.id` is the column `id` of the handle's table. `StylesConverge` shows it is what the fragment `"users"."id"` parses to |
| Builder.TableHandle.AsTable | spec/integration/sql/compose_spec.rb:68 | no contract of its own; `users.table` is the handle's table. `StylesConverge` shows it is what the fragment `"users"` parses to |
| Builder.Lit | spec/integration/sql/compose_spec.rb:87 | no contract of its own; the string on the right of `==` (lines 87 and 127). Its laws are `LitIsPlaceholder` and `LitIsString` |
| Builder.Draft.Add | spec/integration/sql/compose_spec.rb:50 | no contract of its own; one clause call of the chained form, or one line of a block. `CollectStep` states what it does to the draft |
| Builder.Finish | spec/integration/sql/compose_spec.rb:11-14 | no contract of its own; the end of a block: a conflict, then a missing or empty SELECT or a missing FROM, is an error, otherwise the statement. `ComposeSelectFrom` and its siblings state its results |
| Builder.Compose | spec/integration/sql/compose_spec.rb:11-14 | no contract of its own; `compose { ... }`, the clauses folded first to last and finished. Its laws are `ChainCollects`, `ComposeSwap`, `ComposeSelectFrom`, `ComposeSelectFromWhere` and `ComposeSelectFromWhereOrder` |
| Builder.LitIsPlaceholder | spec/integration/sql/compose_spec.rb:127 | a string value becomes the placeholder `n` exactly when it is `%n%` with a non-empty `n` free of `%` |
| Builder.LitIsString | spec/integration/sql/compose_spec.rb:87 | every other string value stays a string literal, and only those values are closed |
| Builder.CollectStep | spec/integration/sql/compose_spec.rb:11-14 | describing one more clause outright equals applying it to the draft |
| Builder.ChainCollects | spec/integration/sql/compose_spec.rb:11-14 | the clause-by-clause fold of a block equals `Collect`, the description by first clause per keyword: each slot holds the first clause of its keyword, and a repeated keyword is a conflict |
| Builder.SwapFacts | spec/integration/sql/compose_spec.rb:11-14 | swapping two neighbouring clauses keeps each keyword's count and, when their kinds differ, each keyword's first clause |
| Builder.ComposeSwap | spec/integration/sql/compose_spec.rb:11-14 | swapping two neighbouring clause declarations never changes what the block builds, success or error |
| Builder.ComposeSelectFrom | spec/integration/sql/compose_spec.rb:66-69 | a SELECT / FROM block builds the statement with that list and source, no WHERE and no ORDER |
| Builder.ComposeSelectFromWhere | spec/integration/sql/compose_spec.rb:84-88 | a SELECT / FROM / WHERE block builds the statement with that condition and no ORDER |
| Builder.ComposeSelectFromWhereOrder | spec/integration/sql/compose_spec.rb:168-173 | a SELECT / FROM / WHERE / ORDER block builds the statement with all four parts |
| Builder.ChainedMatchesDeclarative | spec/integration/sql/compose_spec.rb:50 | `SELECT(...).FROM(...)` builds what the two-line declarative block builds, and what `Collect` of its two clauses finishes to, for any list and source |
| Binder.Bind | spec/integration/sql/compose_spec.rb:132 | no contract of its own; `set(name: "Jane")` as a new statement with every bound placeholder replaced by its string literal. Its laws are `BindStatementNames`, `RenderAfterBind`, `BindStatementTwice`, `BindIdempotent`, `BindClosed` and `BindCommutesWithCompose` |
| Binder.BindNames | spec/integration/sql/compose_spec.rb:132 | binding an expression closes exactly the bound names and leaves the others open |
| Binder.BindAllNames | spec/integration/sql/compose_spec.rb:132 | the same for a list of expressions |
| Binder.BindStatementNames | spec/integration/sql/compose_spec.rb:132 | the same for a whole statement |
| Binder.RenderAfterBind | spec/integration/sql/compose_spec.rb:131-133 | `set(...).to_s` succeeds exactly when the bindings cover every open placeholder |
| Binder.BindTwice | spec/integration/sql/compose_spec.rb:132 | binding with `b1` and then with `b2` equals binding once with `b2` overridden by `b1` |
| Binder.BindAllTwice | spec/integration/sql/compose_spec.rb:132 | the same for a list of expressions |
| Binder.BindStatementTwice | spec/integration/sql/compose_spec.rb:132 | the same for a statement, so binding is incremental |
| Binder.BindIdempotent | spec/integration/sql/compose_spec.rb:132 | binding twice with the same values is binding once |
| Binder.BindUnused | spec/integration/sql/compose_spec.rb:132 | an expression without the bound names is left as it is |
| Binder.BindAllUnused | spec/integration/sql/compose_spec.rb:132 | the same for a list of expressions |
| Binder.BindClosed | spec/integration/sql/compose_spec.rb:132 | binding a closed statement changes neither it nor its text |
| Binder.BindPlaceholderText | spec/integration/sql/compose_spec.rb:127-132 | the value `%n%` bound with `n: v` becomes the string literal `v` |
| Binder.AddBound | spec/integration/sql/compose_spec.rb:124-132 | applying a bound clause to a bound draft is binding the draft after the clause |
| Binder.ChainBound | spec/integration/sql/compose_spec.rb:124-132 | folding bound clauses gives the bound fold |
| Binder.BindCommutesWithCompose | spec/integration/sql/compose_spec.rb:124-132 | building with bound values equals building the template and binding it, and the build errors are the same |
| ComposeScenarios.StripStart | spec/integration/sql/compose_spec.rb:19 | the leading half of `strip`: the result is a suffix of the input, everything dropped is blank, and the result does not start with a blank |
| ComposeScenarios.StripEnd | spec/integration/sql/compose_spec.rb:19 | the trailing half of `strip`: the result is a prefix of the input, everything dropped is blank, and the result does not end with a blank |
| ComposeScenarios.NewlinesConcat | spec/integration/sql/compose_spec.rb:19 | `gsub("\n", " ")` distributes over concatenation |
| ComposeScenarios.SpacedHeredoc | spec/integration/sql/compose_spec.rb:19-22 | replacing the line feeds of a heredoc whose lines hold none gives its lines joined by single spaces, plus one trailing space |
| ComposeScenarios.HeredocStart | spec/integration/sql/compose_spec.rb:19-22 | a heredoc starts with the first character of its first line |
| ComposeScenarios.NormaliseHeredoc | spec/integration/sql/compose_spec.rb:19-22 | `<<~SQL ... SQL.strip.gsub("\n", " ")` equals the lines joined by single spaces, when no line holds a line feed and the text starts and ends with a non-blank |
| ComposeScenarios.ExpectedSelectFrom | spec/integration/sql/compose_spec.rb:19-22 | the two-line expected text of the SELECT / FROM examples is its lines joined by one space |
| ComposeScenarios.ExpectedWith | spec/integration/sql/compose_spec.rb:38-42 | the same for a three-line expected text |
| ComposeScenarios.ExpectedWithOrder | spec/integration/sql/compose_spec.rb:178-183 | the same for the four-line expected text |
| ComposeScenarios.SelectWithLiterals | spec/integration/sql/compose_spec.rb:10-15 | no contract of its own; the fragment query; `SelectWithLiteralsRenders` states its text |
| ComposeScenarios.WhereWithLiterals | spec/integration/sql/compose_spec.rb:27-34 | no contract of its own; the fragment query with `==`; `WhereWithLiteralsRenders` states its text |
| ComposeScenarios.InlineSyntax | spec/integration/sql/compose_spec.rb:47-52 | no contract of its own; the chained fragment query; `InlineMatchesDeclarative` and `InlineSyntaxRenders` state what it builds and renders |
| ComposeScenarios.WithoutWhere | spec/integration/sql/compose_spec.rb:64-70 | no contract of its own; the handle query; `WithoutWhereRenders` states its text |
| ComposeScenarios.WithWhere | spec/integration/sql/compose_spec.rb:82-89 | no contract of its own; the handle query with `==`, also the query of lines 146-153; `WithWhereRenders` states its text |
| ComposeScenarios.TwoConditions | spec/integration/sql/compose_spec.rb:102-109 | no contract of its own; the `.OR` query; `TwoConditionsRender` states its text |
| ComposeScenarios.DynamicWhere | spec/integration/sql/compose_spec.rb:122-129 | no contract of its own; the `"%name%"` template; `BindTemplate`, `DynamicWhereBinds` and `TemplateReuse` state what binding it gives |
| ComposeScenarios.WithOrder | spec/integration/sql/compose_spec.rb:166-174 | no contract of its own; the ordered query; `WithOrderRenders` states its text |
| ComposeScenarios.StylesConverge | spec/integration/sql/compose_spec.rb:12-13 | the fragments `"t"."c"` and `"t"` parse to what the handle's `t.c` and `t.table` give |
| ComposeScenarios.UsersFragments | spec/integration/sql/compose_spec.rb:12-13 | the three fragments of the suite parse to `users.id`, `users.name` and `users.table` |
| ComposeScenarios.LiteralStyleMatchesHandleStyle | spec/integration/sql/compose_spec.rb:10-100 | the fragment style and the handle style build the same statement, both without and with WHERE |
| ComposeScenarios.InlineMatchesDeclarative | spec/integration/sql/compose_spec.rb:47-62 | the chained fragment query builds the declarative one |
| ComposeScenarios.RenderSelectFrom | spec/integration/sql/compose_spec.rb:64-80 | without WHERE and ORDER the text is `SELECT <items> FROM <source>` and nothing more |
| ComposeScenarios.SelectWithLiteralsRenders | spec/integration/sql/compose_spec.rb:10-24 | the fragment query renders exactly `SELECT "users"."id", "users"."name" FROM "users"` |
| ComposeScenarios.InlineSyntaxRenders | spec/integration/sql/compose_spec.rb:47-62 | the chained query renders the same text |
| ComposeScenarios.WithoutWhereRenders | spec/integration/sql/compose_spec.rb:64-80 | the handle query renders the same text |
| ComposeScenarios.EqText | spec/integration/sql/compose_spec.rb:87 | `users.name == v` renders as `"users"."name" = 'v'` |
| ComposeScenarios.JaneText | spec/integration/sql/compose_spec.rb:96 | its WHERE line is `WHERE "users"."name" = 'Jane'` |
| ComposeScenarios.RenderSelectWhere | spec/integration/sql/compose_spec.rb:146-164 | with a WHERE and no ORDER the text ends at the WHERE line |
| ComposeScenarios.WhereWithLiteralsRenders | spec/integration/sql/compose_spec.rb:27-45 | the fragment query with `==` renders the three expected lines |
| ComposeScenarios.WithWhereRenders | spec/integration/sql/compose_spec.rb:82-100 | the handle query with `==` renders the three expected lines |
| ComposeScenarios.TwoConditionsRender | spec/integration/sql/compose_spec.rb:102-120 | the `.OR` query renders `WHERE ("users"."name" = 'Jane') OR ("users"."name" = 'Jade')` |
| ComposeScenarios.BindTemplate | spec/integration/sql/compose_spec.rb:122-133 | the `"%name%"` query holds the placeholder `name`, and `set(name: v)` gives the query written with `v` |
| ComposeScenarios.DynamicWhereBinds | spec/integration/sql/compose_spec.rb:122-144 | the template is not renderable, and after `set(name: "Jane")` it equals and renders as the literal `"Jane"` query |
| ComposeScenarios.DynamicWhereBindsJade | spec/integration/sql/compose_spec.rb:131-133 | an extra instance of line 132, not an example of the suite: the same template bound with `"Jade"` renders the Jade WHERE line |
| ComposeScenarios.TemplateText | spec/integration/sql/compose_spec.rb:122-133 | `set(name: v)` on the template renders a fixed head, then `v`, then the closing quote, for every `v` |
| ComposeScenarios.TemplateReuse | spec/integration/sql/compose_spec.rb:131-133 | one template bound with any two different values gives two different texts |
| ComposeScenarios.KeysText | spec/integration/sql/compose_spec.rb:172 | `users.id.desc` renders as `"users"."id" DESC` |
| ComposeScenarios.RenderSelectWhereOrder | spec/integration/sql/compose_spec.rb:166-186 | ORDER BY comes after the WHERE line, as the last clause |
| ComposeScenarios.WithOrderRenders | spec/integration/sql/compose_spec.rb:166-186 | the ordered query renders the four expected lines, ending with `ORDER BY "users"."id" DESC` |

## Left out

- The RSpec scaffolding (`let`, `expect`, `specify`). It is test plumbing, not engine behaviour.
- The Ruby DSL mechanics: evaluation of the block, the backtick override, dynamic dispatch of `users.name` and operator overloading of `==`. The model writes these as explicit constructors: `Select`, `From`, `Where`, `Order`, `TableHandle.Attr`, `Eq`, `Or` and `Desc`.
- The database connection, query execution and schema lookup are outside the engine.
- Doubling of single quotes inside a string literal, because the examples never render a literal containing a quote. `Renderer.ExprText` writes the value between quotes unchanged.
- Numeric, boolean and null literals and ASC ordering, because no example builds one.
- Renderer.Render: the failure `UnboundPlaceholder` is the model's own decision, and so are `IncompleteStatement` and `ConflictingClause` in `Builder.Finish`. The suite asserts only successful renders.
- Fragments.ParsedIsCanonical: rejecting every fragment but the two canonical forms is the model's own decision, because no example passes a malformed fragment.
- Builder.Finish: the kinds of the parts are not checked. Any expression is accepted as a select item, as the FROM source, as the WHERE condition and as an ORDER key, such as a string literal as the source or a `Desc` as the condition, and is rendered as it is.
- Renderer.Quote: an identifier holding `"` is written between double quotes unchanged, without doubling. Its text then does not parse back, so `Fragments.ParseRendered` covers only identifiers without `"`. No example uses such a name.
- Renderer.StatementText: a statement built by hand rather than by `Builder.Compose` may have an empty select list. It then renders as `SELECT  FROM ...` with two spaces, and `Renderer.RenderedTrimmed` does not exclude this. `Builder.Finish` never produces such a statement.
- Renderer.ExprText: precedence is kept only for the operands of `OR`, which are always parenthesised. An `OR` used as an operand of `=` or `DESC` is written without parentheses, so `('a') OR ('b') = 'c'` is read by SQL as `('a') OR (('b') = 'c')`. No example nests an `OR` this way.
