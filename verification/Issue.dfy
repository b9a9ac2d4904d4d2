/** `security/validated_query.py`: replace token literals by binds, cap the rows, re-validate, and
    generate the text that is executed. */
module Issue {
  import opened Outcomes
  import opened Ast
  import opened Sequences
  import opened Values
  import opened Tokens
  import opened Allowlist
  import opened Lineage
  import opened Policy
  import opened BindText

  datatype OutputPlan = OutputPlan(title: string, kind: OutputKind, source: Option<SourceColumn>, protected: bool)

  datatype ValidatedQuery = ValidatedQuery(query: Query, sql: string, parameters: seq<Value>,
                                           outputs: seq<OutputPlan>, maxRows: nat)

  // ----- Binds

  function BindName(k: nat): string {
    "pii_" + Numeral(k)
  }

  /** The edits for the first `n` sites: each literal becomes the placeholder of its number. */
  function BindEdits(sites: seq<TokenSite>, n: nat): map<Path, Kind>
    requires n <= |sites|
  {
    if n == 0 then map[] else BindEdits(sites, n - 1)[sites[n - 1].literal.path := Placeholder(BindName(n - 1))]
  }

  function BindParameters(sites: seq<TokenSite>, n: nat): map<string, Value>
    requires n <= |sites|
  {
    if n == 0 then map[] else BindParameters(sites, n - 1)[BindName(n - 1) := sites[n - 1].value]
  }

  function BindTokens(q: Query, sites: seq<TokenSite>): Query {
    if q.where_.None? then q else q.(where_ := Some(Patch(q.where_.value, [], BindEdits(sites, |sites|))))
  }

  function IsPlaceholder(kind: Kind): bool {
    kind.Placeholder?
  }

  /** The names of the placeholders of a clause, in the order they are found. */
  function NamesAt(e: Expr, paths: seq<Path>): seq<string> {
    if paths == [] then []
    else
      var node := At(e, paths[0]);
      (if node.Some? && node.value.kind.Placeholder? then [node.value.kind.name] else []) + NamesAt(e, paths[1..])
  }

  function PlaceholderNames(q: Query): seq<string> {
    if q.where_.None? then [] else NamesAt(q.where_.value, SelectPaths(Nodes(q.where_.value), IsPlaceholder))
  }

  // ----- Row cap

  /** One row more than the cap is fetched, so that truncation can be told. */
  function CapRows(q: Query, maxRows: nat): Query {
    var fetch := maxRows + 1;
    var requested := if q.limit.Some? && q.limit.value.Rows? then q.limit.value.count else fetch;
    q.(limit := Some(Rows(if requested < fetch then requested else fetch)))
  }

  // ----- The generated text

  /** Whether `needle` occurs in `s`. */
  predicate Contains(s: string, needle: string) {
    exists i :: 0 <= i <= |s| && OccursAt(needle, s, i)
  }

  type Generator = Query -> Rendering

  function Generate(q: Query, parameters: map<string, Value>, nonce: string, generator: Generator,
                    dialect: Dialect): Result<(string, seq<Value>)> {
    var names, r := PlaceholderNames(q), generator(q);
    if !Rendered(r, |names|) || !AllBound(names, parameters) then Rejected(BindUnsafe)
    else ToPositional(nonce, r, names, parameters, dialect)
  }

  function Plans(outputs: seq<OutputColumn>, protected: seq<bool>): seq<OutputPlan>
    requires |outputs| == |protected|
  {
    seq(|outputs|, i requires 0 <= i < |outputs| =>
      OutputPlan(outputs[i].title, outputs[i].kind, outputs[i].source, protected[i]))
  }

  function IssueQuery(a: AnalyzedQuery, decision: PolicyDecision, maxRows: int, hardMaxRows: nat, limits: Limits,
                      nonce: string, generator: Generator, dialect: Dialect): Result<ValidatedQuery> {
    if maxRows < 1 then Rejected(RowCountInvalid)
    else if maxRows > hardMaxRows then Rejected(RowCountTooLarge)
    else
      var parameters := BindParameters(decision.sites, |decision.sites|);
      var q := CapRows(BindTokens(a.query, decision.sites), maxRows);
      var _ :- CheckLimits(q, limits);
      var _ :- ValidateAllowlist(q, true);
      var (sql, values) :- Generate(q, parameters, nonce, generator, dialect);
      if Contains(sql, PREFIX) then Rejected(TokenNotReplaced)
      else if |a.outputs| != |decision.protected| then Rejected(BindUnsafe)
      else Ok(ValidatedQuery(q, sql, values, Plans(a.outputs, decision.protected), maxRows))
  }
}
