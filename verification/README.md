# Verification of the execute_sql query compiler

`execute_sql` takes one SELECT from a caller who may see some columns only as opaque tokens. The server
parses it and runs it through a small source-to-source compiler: tables are matched with reflected
tables, stars are expanded and every column is resolved to a reflected source, a policy decides where
protected columns and tokens may stand, tokens become bind parameters, the rows are capped, text is
generated, and the executor turns protected cells of the result into tokens. Two shared caches serve it:
one of reflection results, one of database engines.

This project models those stages and proves what they are for.

## How the model is laid out

The model starts from the syntax tree that the parser delivers. A statement is a value of type `Query`;
a node is identified by the clause it is in and the path to it, which stands for the object identity the
program uses. Where the program edits a statement, the model has the class `Select` and methods that
edit it (`LineageMethods`, `IssueMethods`, `Schema`, `PolicyMethods`, `PipelineLimits.Validate`); each is
proved to compute a specification function, and the lemmas are about those functions.

| modules | subject |
|---|---|
| `Ast`, `Scope`, `Values`, `Outcomes`, `Sequences`, `Accumulation` | trees, positions, in-place edits, tables and names, cell values |
| `Allowlist`, `Schema`, `Lineage`, `Policy`, `Issue`, `Executor`, `Tokens`, `Base64Url`, `BindText` | the stages |
| `Semantics`, `Simulation`, `EvalFacts`, `SortFacts` | what a SELECT means: joins, three-valued WHERE, stable ORDER BY, LIMIT, COUNT(*) |
| `LineageFacts`, `LineageAcceptance`, `LineageSpelling`, `AnalysisMeaning`, `LineageComplete`, `Idempotence`, `LimitsKept` | the analysis |
| `Grammar` | the fragment of SELECT as a grammar of its own |
| `PolicyFacts`, `PolicyLaws`, `BindFacts`, `BindMeaning`, `ExecutorFacts`, `Clock`, `Noninterference` | policy, binds, execution |
| `Pipeline`, `PipelineLimits`, `Acceptance`, `Renaming`, `RenamedRows`, `RenamedRuns` | the stages composed |
| `Example`, `HiddenColumn` | an accepted statement that meets every premise of the end results, and one that shows a protected column |
| `OrderedDict`, `Registry`, `SchemaCache`, `CatalogCache` | the two caches, over all histories and interleavings |

One relational semantics, `Semantics.Meaning`, is stated for any way of comparing names. Read with case
folding it is the meaning of the caller's statement, with stars, unqualified names and output labels;
read with exact names it is the meaning of the statement that is sent. The rewrites are proved to
preserve it. It is stated for INNER and LEFT joins alone, so every use of it asks that a statement has no
others; for an accepted statement that follows from the allowlist. Comparison, arithmetic and ordering of values belong to an arbitrary `Engine`.

The two end results are `Pipeline.EndToEndRefinement` (the answer is the first `max_rows` rows of what
the caller asked for, with tokens that decrypt to the protected cells, and `truncated` exactly when there
are more) and `Pipeline.TwoRunIndistinguishability` (on two databases that differ only in protected cells
which compare alike with the query's bound values, a statement whose select list hides no protected
column has answers that agree but for the token texts).
`Example.PremisesHold` shows that their premises can be met together. `Acceptance.AcceptedExactly` says
which statements they are about: one condition on statement, tables, policy and limits under which
`validate_sql` accepts.

## Assumptions

- Case folding is an arbitrary function. It keeps a leading `#` or `@` where the allowlist is re-checked
  (`KeepsReserved`).
- The generator is an arbitrary function from the final statement to text with one marker per placeholder
  place. `AllDelimit` says that no text before a marker ends in an unfinished marker: `__bind_`, the
  nonce, `_`, digits and at most one `_` more. `BindText.UndelimitedExample` shows, for every nonce, that
  the one-by-one replacement can go wrong without it.
- Encryption is an ideal cipher with arbitrary nonces, and JSON and the date, decimal and UUID texts
  parse back (`Tokens.Ideal`); for `Tokens.DecryptsExactly`, a parser yields the type it is named for
  (`TypedText`).
- Reflected tables have names, and a join has a FROM.

## Where the code does less than it might seem to

- docs/tools.md:51-52 promises direct columns and aliases in the select list.
  src/sql_safe_mcp/security/parser.py:154-156 checks the shape of an item only where it has no alias, and
  src/sql_safe_mcp/security/lineage.py:136-146 records a column only where it is the whole value. So
  `SELECT (ssn) AS x FROM t` is accepted with no reference and nothing protected, and two databases that
  should look alike get different answers (`HiddenColumn.HiddenColumnShows`).
  - The references always are the *shown* columns; they are all columns iff every select-list value is a
    column or contains none (`ColumnsInSight`, in `LineageComplete.LineageIsCompleteAndSound`).
  - The two-run property holds where no expression of the select list names a protected column
    (`HidesNothingProtected`); a statement with its columns in sight is one (`Pipeline.InSightHidesNothing`).
  - A hidden column is sent as the caller spelled it. On every row it keeps its value iff it means the
    same exactly as under case folding (`AnalysisMeaning.SpelledKeepsValue`); the theorems about the
    caller's rows ask that of hidden columns.
- An unqualified name is resolved by looking at the tables in which it occurs exactly once under case
  folding, so a table that has it twice (`x` and `X`) is passed over silently and the name is accepted
  although it has three meanings (`LineageFacts.SkippedTableExample`). An accepted name has a single
  meaning iff no table was passed over (`LineageFacts.ResolveIsTheOnlyMeaning`); the theorems about the
  caller's meaning ask for that (`ClearQuery`). The theorems about the analysed statement, the policy and
  the two-run property do not.
- A non-finite `Decimal` is tokenised, but its token does not decrypt (`Tokens.TokenRoundTrip`). The
  results about answers say so of such a cell: it is a token that is refused.
- The registry's `get` never disposes the engine it returns, but another thread may do so while it is in
  use (`Registry.ReturnedEngineMayBeDisposed`). It is left alone iff its key has been among the
  `capacity` most recently used ever since, with no `dispose` between (`Registry.EngineStaysUsable`).

## Model

| member | source | states |
|---|---|---|
| `Ast.NodesAreThePositions` | src/sql_safe_mcp/security/lineage.py:208 | walking a clause breadth first meets each of its nodes exactly once, at the position that leads to it |
| `Ast.ColumnPathsComplete` | src/sql_safe_mcp/security/lineage.py:208-214 | `find_all(Column)` yields exactly the column nodes, each once |
| `Ast.PatchIsMap` | src/sql_safe_mcp/security/lineage.py:105-108 | setting every column in place, one by one, is rewriting all of them at once |
| `Schema.ResolvedTableIsNamed` | src/sql_safe_mcp/security/schema.py:103-114 | a match is the only reflected table that name and schema can mean under case folding |
| `Schema.TableExactly` | src/sql_safe_mcp/security/schema.py:103-139 | a table is accepted iff it is an identifier without catalog, with a schema only where the dialect has them, fits exactly one reflected table under case folding, and that table has reflected columns; the rewritten node is that table |
| `Schema.TableIgnoresSpelling` | src/sql_safe_mcp/security/schema.py:103-139 | references whose schema and name fold alike have the same outcome |
| `Schema.ResolveTableAgain` | src/sql_safe_mcp/security/schema.py:117-139 | a rewritten table resolves to the same reflected table again |
| `Schema.TablesResolved` | src/sql_safe_mcp/security/schema.py:117-139 | each table is paired with its one reflected table, aliases and everything else stay, and an allowed statement stays allowed |
| `Schema.ResolveTablesInPlace` | src/sql_safe_mcp/security/schema.py:117-139 | the loop that rewrites the table nodes of the statement leaves exactly the resolved statement and returns its schemas, or refuses for the same reason |
| `LineageMethods.CollectBindings` | src/sql_safe_mcp/security/lineage.py:60-76 | the loop with its `seen` set returns the specified bindings or refuses a duplicate |
| `LineageFacts.CollectPairs` | src/sql_safe_mcp/security/lineage.py:60-76 | accepted bindings pair tables and schemas in FROM and JOIN order and are distinct under case folding |
| `LineageAcceptance.CollectExactly` | src/sql_safe_mcp/security/lineage.py:60-76 | the tables are accepted iff there is one schema for each and no two of their names fold alike; which refusal it is otherwise |
| `LineageFacts.ResolveFinds` | src/sql_safe_mcp/security/lineage.py:79-102 | an accepted name is a column of one binding, alone of its name there, and no other binding answers it |
| `LineageAcceptance.ResolveExactly` | src/sql_safe_mcp/security/lineage.py:79-102 | a reference is accepted iff it stands for a column (of the binding it names or, unqualified, of the only binding with a single column of that name), and then as that column; each refusal iff what it says is missing |
| `LineageSpelling.ResolveIgnoresSpelling` | src/sql_safe_mcp/security/lineage.py:79-102 | references that fold alike have the same outcome |
| `LineageFacts.ResolveIsTheOnlyMeaning` | src/sql_safe_mcp/security/lineage.py:84-102 | an accepted name has a single meaning iff no table was passed over for having it more than once, and then it resolves to that meaning |
| `LineageFacts.SkippedTableExample` | src/sql_safe_mcp/security/lineage.py:95-102 | a name with three meanings that the code accepts |
| `LineageFacts.CanonicalIsExact` | src/sql_safe_mcp/security/lineage.py:105-108 | a canonical qualified name has one meaning, both exactly and under case folding, and resolves to itself |
| `LineageFacts.ResolveAgain` | src/sql_safe_mcp/security/lineage.py:84-108 | a resolved name written back resolves to the same column |
| `LineageMethods.ExpandStarsInPlace` | src/sql_safe_mcp/security/lineage.py:111-128 | the loop replaces the select list by its expansion and changes nothing else, or refuses an unknown qualifier |
| `LineageAcceptance.StarsExactly` | src/sql_safe_mcp/security/lineage.py:111-128 | stars are refused iff a qualifier is not the name of exactly one binding |
| `LineageMethods.AnalyzeProjectionsInPlace` | src/sql_safe_mcp/security/lineage.py:131-147 | the loop edits the select list to the specified items and returns the specified outputs and references |
| `LineageAcceptance.OutputsExactly` | src/sql_safe_mcp/security/lineage.py:131-147 | a select list is accepted iff the columns that stand alone in it can be resolved; output i has the alias, the canonical column name or `column_` and i + 1, and its kind and source |
| `LineageMethods.AnalyzeTreeInPlace` | src/sql_safe_mcp/security/lineage.py:205-214 | resolving and setting the columns of a clause one at a time gives the clause with every column qualified at once, and one reference each |
| `LineageMethods.AnalyzeClausesInPlace` | src/sql_safe_mcp/security/lineage.py:202-220 | the clauses of the working statement are edited in the order of the source to the specified analysis |
| `LineageMethods.AnalyzeQuery` | src/sql_safe_mcp/security/lineage.py:190-224 | the whole analysis equals its specification and leaves the caller's statement unchanged |
| `LineageAcceptance.OrderExactly` | src/sql_safe_mcp/security/lineage.py:150-167 | an unqualified key is accepted iff exactly one label folds to it and that output is a column, or no label does and it stands for a column; a qualified one iff it stands for a column |
| `LineageSpelling.OrderIgnoresSpelling` | src/sql_safe_mcp/security/lineage.py:150-167 | keys that fold alike have the same outcome |
| `LineageAcceptance.AnalysisExactly` | src/sql_safe_mcp/security/lineage.py:190-224 | a statement is analysed iff its tables have distinct names, its stars qualify, it is within the limits, each of its columns can be resolved where it stands, and the rewritten form passes the allowlist and the cross check |
| `LineageSpelling.AnalysisIgnoresSpelling` | src/sql_safe_mcp/security/lineage.py:190-224 | statements that differ in the spelling of columns have the same refusal or the same rewritten statement, outputs and references; hidden columns are sent as written |
| `AnalysisMeaning.StarsMean` | src/sql_safe_mcp/security/lineage.py:111-128 | on every row, expanded stars give the cells that the stars give |
| `AnalysisMeaning.KeyKeepsValue` | src/sql_safe_mcp/security/lineage.py:150-167 | a rewritten ORDER BY key has the value of the caller's key, labels before columns; only a key that no label answers has to be clear as a column |
| `AnalysisMeaning.AnalysisPreservesMeaning` | src/sql_safe_mcp/security/lineage.py:190-224 | whenever analysis accepts a clear statement, the rewritten one read with exact names has the rows of the original read with stars, folded names and labels, in the same order; columns hidden under an alias need only be spelled as they are meant |
| `AnalysisMeaning.SpelledKeepsValue` | src/sql_safe_mcp/security/lineage.py:136-146 | a column that the analysis does not rewrite keeps its value on every row iff it means the same exactly as under case folding |
| `LineageComplete.LineageIsCompleteAndSound` | src/sql_safe_mcp/security/lineage.py:202-220 | in every accepted analysis the references are exactly the shown columns, each once, and on every row each reads its recorded source; they are all column nodes iff no select-list value of the caller hides one |
| `LineageComplete.OutputsMatchItems` | src/sql_safe_mcp/security/lineage.py:131-147 | in every accepted analysis an output has a source iff its item is a column, and then it is the source that column reads |
| `Idempotence.AnalysisIsIdempotent` | src/sql_safe_mcp/security/lineage.py:190-224 | analysing an analysed statement gives the same analysis, unless it is over the node limit, and then it is refused for that |
| `Grammar.AllowedExactly` | src/sql_safe_mcp/security/parser.py:94-156 | the allowlist accepts exactly the sentences of an explicit grammar: INNER and LEFT joins with ON, IS NULL only, negated numbers only, IN over literals, ORDER BY direct columns, permanent tables without catalog, no other clause |
| `LimitsKept.RewrittenQueryAllowed` | src/sql_safe_mcp/security/parser.py:94-156 | qualifying columns and binding texts keeps a statement a sentence of what the allowlist accepts |
| `LimitsKept.RewrittenQueryFits` | src/sql_safe_mcp/security/parser.py:49-51 | IN lists that fit still fit after these rewrites |
| `LimitsKept.RewrittenQueryCount` | src/sql_safe_mcp/security/parser.py:42-48 | a rewrite moves the node count by exactly the columns it qualifies |
| `LimitsKept.CountIsOverNodes` | src/sql_safe_mcp/security/parser.py:42-45 | the size of an expression is the number of nodes that walking it meets |
| `LimitsKept.AnalysisRepeatsNone` | src/sql_safe_mcp/security/lineage.py:203-222 | once the parsed statement has passed, analysis never refuses it for a construct, its joins or its IN lists |
| `LimitsKept.IssueStaysAllowed` | src/sql_safe_mcp/security/validated_query.py:184-193 | nor does issuing; the final node count is known, and the last check refuses exactly when it is over the limit |
| `PipelineLimits.ValidationRepeatsNone` | src/sql_safe_mcp/security/pipeline.py:29-43 | of all re-validations after parsing only the node limit can refuse |
| `PolicyMethods.DecideProtected` | src/sql_safe_mcp/security/policy.py:37-50 | the rule loop answers whether any rule covers the source |
| `PolicyMethods.EvaluatePolicy` | src/sql_safe_mcp/security/policy.py:52-69 | the loops over references, tokens and outputs decide what the specification decides |
| `PolicyLaws.RulesAddUp` | src/sql_safe_mcp/security/policy.py:37-50 | two lists of rules together protect what either protects; more rules never protect less and their order does not matter |
| `PolicyLaws.ListedColumnsAreProtected` | src/sql_safe_mcp/security/policy.py:41-50 | a rule for every database and schema protects exactly the listed columns of the tables its pattern matches, under case folding |
| `PolicyLaws.OwnDatabaseIsAny` | src/sql_safe_mcp/security/policy.py:42-43 | a rule for the own database protects what the same rule with `*` protects |
| `PolicyLaws.OtherDatabaseProtectsNothing` | src/sql_safe_mcp/security/policy.py:42-43 | a rule for another database protects nothing |
| `PolicyLaws.NoSchemaIsTheSourceSchema` | src/sql_safe_mcp/security/policy.py:44-45 | a rule without a schema protects what the same rule with the schema of the source protects |
| `PolicyLaws.OtherSchemaProtectsNothing` | src/sql_safe_mcp/security/policy.py:44-45 | a rule for another schema does not protect the source |
| `PolicyLaws.IdleRulesCanGo` | src/sql_safe_mcp/security/policy.py:37-69 | rules for other databases, or for schemas that the query does not touch, can be removed without changing the decision or the refusal |
| `PolicyLaws.DecisionIgnoresSpelling` | src/sql_safe_mcp/security/policy.py:32-69 | rules and databases that fold alike decide alike |
| `PolicyLaws.ListedColumnsAreGuarded` | src/sql_safe_mcp/security/policy.py:37-104 | in every accepted decision a column that a rule of this database lists is a protected output, and is read only where it is projected or compared with tokens |
| `PolicyFacts.CheckProtectedMeans` | src/sql_safe_mcp/security/policy.py:71-104 | an accepted protected column is projected, or stands on the left of `=` or IN in WHERE with tokens only on the right; its sites are those tokens, all of them and no others, each once |
| `PolicyFacts.AcceptedDecision` | src/sql_safe_mcp/security/policy.py:52-69 | in an accepted decision the token sites are exactly the token literals of the statement, each once with its decrypted value, and every protected reference is guarded |
| `PolicyFacts.DecisionExactly` | src/sql_safe_mcp/security/policy.py:52-104 | the policy accepts a query iff every protected reference is projected or compared by `=` or IN with tokens alone that decrypt, and every token is compared with a protected column; the outputs marked are those of protected sources |
| `IssueMethods.BindInPlace` | src/sql_safe_mcp/security/validated_query.py:184-190 | replacing the literals one by one in the statement gives the bound statement and its named parameters |
| `BindFacts.BindingIsABijection` | src/sql_safe_mcp/security/validated_query.py:184-190 | no token remains, the placeholders are exactly the token sites, each under its own name, and each parameter is the value of its token |
| `BindMeaning.BindingPreservesMeaning` | src/sql_safe_mcp/security/validated_query.py:184-190 | the bound statement with its parameters has the rows of the analysed statement with each token read as its value |
| `IssueMethods.CapRowsInPlace` | src/sql_safe_mcp/security/validated_query.py:135-139 | the limit becomes the smaller of the requested one and `max_rows + 1`, and nothing else changes |
| `BindMeaning.LimitTakes` | src/sql_safe_mcp/security/validated_query.py:135-139 | a limit keeps the first rows of the statement without it |
| `Pipeline.RowCountExactly` | src/sql_safe_mcp/security/validated_query.py:119-130 | each refusal of a row count iff it is below one or over the hard limit; an issued count is within them |
| `Pipeline.CappedRows` | src/sql_safe_mcp/security/validated_query.py:135-139 | the capped statement has the first `max_rows + 1` rows of the uncapped one |
| `IssueMethods.ToPositionalText` | src/sql_safe_mcp/security/validated_query.py:142-165 | the loops that fill `markers` and reassign `sql` compute the specified text and values |
| `BindText.FindAssembled` | src/sql_safe_mcp/security/validated_query.py:160 | the leftmost scan finds the written markers in order and whatever the texts themselves contain |
| `BindText.ReplaceEachAssembled` | src/sql_safe_mcp/security/validated_query.py:163-164 | replacing each marker once, first occurrence first, replaces every marker at its own place |
| `BindText.BindSubstitutionIsSimultaneous` | src/sql_safe_mcp/security/validated_query.py:150-165 | where no text before a marker ends in an unfinished marker, the guard passes iff every placeholder was written once and no text contains a marker; then the text is the simultaneous replacement and the i-th value is that of the i-th placeholder in the text |
| `BindText.UndelimitedExample` | src/sql_safe_mcp/security/validated_query.py:160-164 | whatever the nonce, some rendering that ends a text in an unfinished marker passes the guard and is rewritten in the wrong place |
| `BindText.PercentRoundTrip` | src/sql_safe_mcp/security/validated_query.py:157-165 | formatting the escaped text takes exactly its values in order and gives back every literal character, percent signs included |
| `BindText.SubstitutionFormats` | src/sql_safe_mcp/security/validated_query.py:142-165 | for a dialect with escaped percent signs and `%s`, formatting the pair that the substitution returns uses up its values and gives the rendered texts with the values in the places of their placeholders |
| `Pipeline.DriverBindsAreParameters` | src/sql_safe_mcp/security/validated_query.py:142-165 | bound in text order, the values reach the placeholders they were made for |
| `IssueMethods.IssueValidatedQuery` | src/sql_safe_mcp/security/validated_query.py:168-209 | issuing equals its specification, and the consumed statement is the bound and capped one |
| `Base64Url.OneBodyPerByteString` | src/sql_safe_mcp/security/tokens.py:160-167 | a body is accepted for a byte string iff it is that string's unpadded base64url text, sections 3.5 and 5 of RFC 4648 |
| `Base64Url.EncodeLength` | src/sql_safe_mcp/security/tokens.py:143-148 | the length of an unpadded text |
| `Tokens.TokenRoundTrip` | src/sql_safe_mcp/security/tokens.py:126-176 | a token decrypts to the value it was made from, with its type, iff that is not a non-finite decimal |
| `Tokens.TokenBelongsToItsAlias` | src/sql_safe_mcp/security/tokens.py:106-111 | a codec of another alias or key refuses the token |
| `Tokens.OnlySealedTokensDecrypt` | src/sql_safe_mcp/security/tokens.py:157-176 | whatever decrypts is the canonical token of something sealed with this key and alias |
| `Tokens.DecryptsExactly` | src/sql_safe_mcp/security/tokens.py:157-176 | a text decrypts to a value iff it is short enough and is the token, for some nonce, of a payload with the canonical form and type of that value |
| `Tokens.TaggedExactly` | src/sql_safe_mcp/security/tokens.py:63-74 | ten types have a payload, floats only if finite, and values with the same tag and data are equal |
| `Tokens.TokenSizeThreshold` | src/sql_safe_mcp/security/tokens.py:143-148 | a value with a payload is tokenised iff the payload has at most 3038 bytes, and its token passes the length guards of decryption |
| `Executor.ShowRow` | src/sql_safe_mcp/security/executor.py:102-112 | the inner loop computes the cells of one row and the encodings after it, or the refusal |
| `Executor.ExecuteValidated` | src/sql_safe_mcp/security/executor.py:86-129 | the nested loops over rows and cells, with the encodings list they update, compute the specified answer |
| `ExecutorFacts.AnswerShowsRows` | src/sql_safe_mcp/security/executor.py:95-129 | first `max_rows` rows, exact `truncated`, NULL stays NULL, protected cells decrypt to the raw cell, any other cell reads back as the raw value from the encoding reported, and a column of NULLs is reported as JSON |
| `ExecutorFacts.ShownReadsBack` | src/sql_safe_mcp/security/executor.py:56-83 | every value but a non-finite number, a span outside one day and a foreign type is shown, and cell and encoding alone give it back with its type, parsed by what the encoding names |
| `ExecutorFacts.SpansReadBack` | src/sql_safe_mcp/security/executor.py:76-79 | a span shown as a time of day can be told from every other, to the microsecond |
| `ExecutorFacts.FormsAreEncodings` | src/sql_safe_mcp/security/executor.py:56-83 | two values have one encoding iff they are of the same form |
| `ExecutorFacts.AnswersExactly` | src/sql_safe_mcp/security/executor.py:99-117 | there is an answer iff every kept row has one cell for each output, each NULL, tokenisable if protected, showable if not, and the cells of each unprotected column are of one form |
| `SortFacts.SortedIsStable` | src/sql_safe_mcp/security/lineage.py:215-220 | ORDER BY as modelled permutes the rows, puts them in key order and keeps rows of equal keys in the order they came in |
| `SortFacts.QueryPlanIsLawful` | src/sql_safe_mcp/security/lineage.py:215-220 | the order by several keys, each ascending or descending with NULLs first or last, is a strict weak order if the engine's is |
| `Noninterference.WhereLow` | src/sql_safe_mcp/security/policy.py:71-93 | an accepted WHERE has the same truth on rows that differ only in protected cells comparing alike with the bound values |
| `Noninterference.MeaningsAlike` | src/sql_safe_mcp/security/policy.py:52-104 | on two such databases the analysed statement has rows that agree in order, in unprotected cells and in NULLs |
| `Noninterference.ExecutionsAlike` | src/sql_safe_mcp/security/executor.py:99-129 | such rows give the same refusal, or answers equal but for token texts, whatever the nonces |
| `Pipeline.ScopeIsAsWritten` | src/sql_safe_mcp/security/schema.py:117-139 | the tables of an accepted statement are read under names that fold to those the caller wrote, each the one reflected table they can mean |
| `Acceptance.AcceptedExactly` | src/sql_safe_mcp/security/pipeline.py:29-43 | a statement is accepted iff it is a sentence of the grammar within the limits, each table is one reflected table, it can be analysed, the policy accepts it, and its row count, final size and text can be issued |
| `Acceptance.ReportedColumns` | src/sql_safe_mcp/security/pipeline.py:29-43 | the columns reported are the items of the select list with its stars expanded, in order, under their labels, with their sources, protected iff the policy protects the source |
| `Pipeline.IssuedIsASentence` | src/sql_safe_mcp/security/validated_query.py:168-209 | what is issued is a sentence of the grammar, with binds, within every limit, and its text holds no token |
| `Pipeline.EndToEndRefinement` | src/sql_safe_mcp/security/pipeline.py:29-43 | the answer shows exactly the first `max_rows` rows of the caller's statement under its own limit, protected cells as tokens that decrypt to them, and `truncated` iff there are more |
| `Pipeline.TwoRunIndistinguishability` | src/sql_safe_mcp/security/pipeline.py:29-43 | on two databases that differ only in protected cells, with NULLs and comparisons with bound values alike, the outcomes of a statement that hides no protected column under an alias are the same refusal or the same columns, encodings, truncation and rows but for token texts |
| `HiddenColumn.HiddenColumnShows` | src/sql_safe_mcp/security/parser.py:154-156 | `SELECT (ssn) AS x FROM t` is issued with no reference and nothing protected, and two databases that differ only in protected cells are answered differently |
| `Example.PremisesHold` | src/sql_safe_mcp/security/pipeline.py:29-43 | the premises of these two results hold together for a server, `SELECT * FROM t WHERE ssn = <token>`, an ideal library and two databases that differ in a protected cell |
| `PipelineLimits.Validate` | src/sql_safe_mcp/security/pipeline.py:29-43 | the stages, editing the statement and its copy in place, compute the composed specification |
| `Renaming.AnalysisRenamed` | src/sql_safe_mcp/security/lineage.py:60-224 | a consistent renaming of the aliases is accepted iff the original is, is refused for the same reason, and has the same outputs, sources and references |
| `RenamedRows.DecisionRenamed` | src/sql_safe_mcp/security/policy.py:37-69 | the policy decides alike: same refusal, or same protected flags and token sites |
| `RenamedRows.MeaningRenamed` | src/sql_safe_mcp/security/lineage.py:84-102 | a renamed statement has the same rows in the same order |
| `RenamedRuns.StagesRenamed` | src/sql_safe_mcp/security/pipeline.py:29-32 | through table resolution, analysis and policy the renamed statement fares as the original |
| `RenamedRuns.AnswersRenamed` | src/sql_safe_mcp/security/pipeline.py:29-43 | when both are issued, the driver returns the same rows and the answers are equal |
| `Registry.RegistryConservation` | src/sql_safe_mcp/db/registry.py:115-139 | after every interleaving each engine ever created is in exactly one of cache, a thread's hands and disposed, once; the cache is within capacity with one engine a key |
| `Registry.GetKeepsItsEngine` | src/sql_safe_mcp/db/registry.py:120-139 | the engine a `get` disposes is not the one it returns |
| `Registry.ReturnedEngineMayBeDisposed` | src/sql_safe_mcp/db/registry.py:132-139 | an interleaving in which another thread disposes a returned engine |
| `Registry.EngineStaysUsable` | src/sql_safe_mcp/db/registry.py:115-139 | in every interleaving a returned engine is neither held for disposal nor disposed iff its key has been among the `capacity` most recently used, with no `dispose`, at every step since |
| `Registry.CacheIsLeastRecentlyUsed` | src/sql_safe_mcp/db/registry.py:120-136 | the cached keys are exactly the most recently used ones since the last `dispose`, as many as fit, in order of use |
| `Registry.EngineRegistry.Fetch` | src/sql_safe_mcp/db/registry.py:120-136 | the locked section of `get` makes exactly the specified step and says which engine it evicted |
| `Registry.EngineRegistry.Get` | src/sql_safe_mcp/db/registry.py:115-139 | `get` makes that step and disposes the evicted engine and no other |
| `Registry.EngineRegistry.Dispose` | src/sql_safe_mcp/db/registry.py:150-155 | `dispose` empties the cache and disposes every engine that was in it, oldest first |
| `SchemaCache.Cache.Get` | src/sql_safe_mcp/security/schema.py:50-60 | a lookup moves a live entry to the end and returns it, drops an expired one, and changes nothing for an unknown key |
| `SchemaCache.Cache.Put` | src/sql_safe_mcp/security/schema.py:62-67 | the loop stores the value last and keeps the newest entries |
| `SchemaCache.HitIsTheLastPut` | src/sql_safe_mcp/security/schema.py:50-67 | over every history a hit is the last value put under the key, put less than the time to live ago, and the size stays within the maximum |
| `SchemaCache.RecentKeyHits` | src/sql_safe_mcp/security/schema.py:50-67 | a key put less than the time to live ago, with fewer than the maximum of other keys put or hit since it last was, is a hit with its last value |
| `SchemaCache.CacheIsRecent` | src/sql_safe_mcp/security/schema.py:50-67 | after every history the cached keys, in order, are the newest that the history says: put or hit last, dropped by a lookup that finds them expired or by a put beyond the maximum |
| `SchemaCache.HitExactly` | src/sql_safe_mcp/security/schema.py:50-60 | a lookup is a hit iff its key is one of these and its last put has not expired, and then with that value |
| `SchemaCache.MissLeavesTheOthers` | src/sql_safe_mcp/security/schema.py:50-60 | a lookup without an answer leaves the key absent and every other entry in its place |
| `SchemaCache.ExpiryFreesAPlace` | src/sql_safe_mcp/security/schema.py:50-67 | after a lookup that finds its key expired, putting a new key pushes nothing out |
| `CatalogCache.KeysNeverCollide` | src/sql_safe_mcp/security/schema.py:80-91 | keys of different calls differ, whatever the names |
| `CatalogCache.CatalogAgreesWithReflection` | src/sql_safe_mcp/security/schema.py:70-100 | over every interleaving each answer was reflected for the same alias, database, schema and table, and one from the cache was stored less than the time to live before |
| `CatalogCache.AskAnswers` | src/sql_safe_mcp/security/schema.py:80-100 | over every interleaving a call is answered from the cache iff the history has its key cached and unexpired, with what was stored last; otherwise it reflects |
| `CatalogCache.StoredAnswersAgain` | src/sql_safe_mcp/security/schema.py:80-100 | what a call reflected is stored and answers the same call until it expires |
| `CatalogCache.ReflectedCatalog.Answer` | src/sql_safe_mcp/security/schema.py:80-100 | one call answers from the cache, or reflects, stores and answers, or refuses a table that is gone and stores nothing |

## Left out

- Parsing, the SQL generator and the `qualify` cross check are library code: the model starts from the tree, takes the generator as a parameter, and takes the cross check as an arbitrary extra refusal.
- Comments in the statement and the limit on its characters: they are gone before the tree is.
- The allowlist's many reasons are one reason; which node is refused first is not modelled.
- A qualified star outside the select list, or under an alias, is an unsupported node of the model; the program refuses it later, as an unknown column.
- Parent links of nodes are positions: "is in WHERE" is a clause of the position, not a walk upwards.
- ORDER BY columns are visited key by key; the walk over the whole ORDER BY visits allowed keys, which are single columns, in the same order.
- COUNT(*) beside other items is evaluated on one representative row, so the rows of such a statement are one choice among those an engine may make.
- A name that no column or several could answer reads NULL in the semantics; for accepted clear statements there is none.
- `\d` in the marker scan is the ten ASCII digits.
- BindText.BindSubstitutionIsSimultaneous: asks that no text before a marker ends in an unfinished marker; `BindText.UndelimitedExample` shows why. That is sufficient; such a text goes wrong only if what follows completes it.
- Pipeline.TwoRunIndistinguishability: asks that no select-list expression names a protected column; that is sufficient, for what a hidden column gives away depends on the rows that are selected.
- Pipeline.EndToEndRefinement: asks that names have one meaning and that hidden columns are spelled as they are meant (`ClearQuery`); where a table was passed over, the caller's meaning is not one.
- RenamedRuns.AnswersRenamed: where the select list hides columns it asks that the new names differ wherever the old ones do, for hidden names are sent as written; and it says nothing of whether the text generator lets both statements be issued; an alias that contains the token prefix is refused at the end by the check on the text.
- Encryption, random numbers, JSON, dates, decimals and UUIDs are parameters with the laws in `Tokens.Ideal`; floating point payloads are opaque values.
- `fnmatchcase` is an uninterpreted predicate on folded names.
- Clock readings are real numbers; `SchemaCache` reads the clock only for a key it has, the model passes the time in.
- Engine creation, connection events and timeouts, `run` and its thread limiter; a creation that fails changes nothing and is no step.
- Sealing, copying and representation guards of `ValidatedQuery`, and the alias check of the executor.
- The server, the command line, logging, configuration files and their models.
