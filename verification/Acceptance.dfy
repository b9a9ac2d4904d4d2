/** Which statements are accepted: the whole of `validate_sql` as one condition on the statement, the
    reflected tables, the policy and the limits. */
module Acceptance {
  import opened Outcomes
  import opened Ast
  import opened Scope
  import opened Tokens
  import opened Allowlist
  import opened Grammar
  import opened Schema
  import opened Lineage
  import opened LineageFacts
  import opened LineageAcceptance
  import opened AnalysisMeaning
  import opened Policy
  import opened PolicyFacts
  import opened Issue
  import opened LimitsKept
  import opened Pipeline
  import opened PipelineLimits

  ghost predicate WithinLimits(q: Query, limits: Limits) {
    NodeCount(q) <= limits.maxNodes && |q.joins| <= limits.maxJoins && InLists(q, limits.maxInItems)
  }

  /** The parsed statement is a sentence of the grammar, within the limits. */
  lemma ParsedExactly(server: Server, q: Query)
    ensures ParseChecks(server, q).Ok? <==> IsSentence(q, false) && WithinLimits(q, server.limits)
  {
    AllowedExactly(q, false);
  }

  /** Each of its tables is one reflected table. */
  ghost predicate TablesAccepted(server: Server, catalog: Catalog, q: Query) {
    forall i :: 0 <= i < |TableRefs(q)| ==>
      TableAccepted(server.fold, server.dialect.hasSchema, catalog.tables, catalog.columns, TableRefs(q)[i])
  }

  function Resolution(server: Server, catalog: Catalog, q: Query): Result<ResolvedQuery> {
    ResolveTables(server.fold, server.dialect.hasSchema, catalog.tables, catalog.columns, q)
  }

  lemma ResolvedExactly(server: Server, catalog: Catalog, q: Query)
    ensures Resolution(server, catalog, q).Ok? <==> TablesAccepted(server, catalog, q)
    ensures ResolveStage(server, catalog, q).Ok? <==>
      IsSentence(q, false) && WithinLimits(q, server.limits) && TablesAccepted(server, catalog, q)
    ensures ResolveStage(server, catalog, q).Ok? ==>
      ResolveStage(server, catalog, q) == Resolution(server, catalog, q)
  {
    ParsedExactly(server, q);
    TablesExactly(server.fold, server.dialect.hasSchema, catalog.tables, catalog.columns, q);
  }

  /** The bound and capped statement is small enough, and its text can be generated with binds in the
      places of the tokens and without a token left in it. */
  ghost predicate Issuable(server: Server, a: AnalyzedQuery, d: PolicyDecision, maxRows: int, nonce: string) {
    && 1 <= maxRows <= server.hardMaxRows
    && var q := CapRows(BindTokens(a.query, d.sites), maxRows);
      && NodeCount(q) <= server.limits.maxNodes
      && var text := Generate(q, BindParameters(d.sites, |d.sites|), nonce, server.generator, server.dialect);
        text.Ok? && !Contains(text.value.0, PREFIX)
  }

  lemma IssueUnfolds(server: Server, a: AnalyzedQuery, d: PolicyDecision, maxRows: int, nonce: string)
    requires 1 <= maxRows <= server.hardMaxRows && |a.outputs| == |d.protected|
    requires var q := CapRows(BindTokens(a.query, d.sites), maxRows);
      NodeCount(q) <= server.limits.maxNodes ==> CheckLimits(q, server.limits).Ok? && Allowed(q, true)
    ensures IssueStage(server, a, d, maxRows, nonce).Ok? <==> Issuable(server, a, d, maxRows, nonce)
  {
  }

  lemma NotRefusedTwice(server: Server, a: AnalyzedQuery, d: PolicyDecision, maxRows: int, nonce: string)
    requires 1 <= maxRows <= server.hardMaxRows && !Repeats(IssueStage(server, a, d, maxRows, nonce))
    ensures var q := CapRows(BindTokens(a.query, d.sites), maxRows);
      NodeCount(q) <= server.limits.maxNodes ==> CheckLimits(q, server.limits).Ok? && Allowed(q, true)
  {
  }

  /** After the policy, nothing but the row count, the size and the text can be refused. */
  lemma IssuedExactly(server: Server, r: ResolvedQuery, maxRows: int, nonce: string)
    requires NamedTables(r.schemas) && AnalyzeStage(server, r).Ok? && Allowed(r.query, false)
    requires |r.query.joins| <= server.limits.maxJoins && InLists(r.query, server.limits.maxInItems)
    requires PolicyStage(server, AnalyzeStage(server, r).value).Ok?
    ensures var a := AnalyzeStage(server, r).value;
      var d := PolicyStage(server, a).value;
      IssueStage(server, a, d, maxRows, nonce).Ok? <==> Issuable(server, a, d, maxRows, nonce)
  {
    if 1 <= maxRows <= server.hardMaxRows {
      IssueStaysAllowed(server.fold, server.cross, server.limits, r.query, r.schemas, server.policy, maxRows,
                        server.hardMaxRows, nonce, server.generator, server.dialect);
      var a := AnalyzeStage(server, r).value;
      var d := PolicyStage(server, a).value;
      NotRefusedTwice(server, a, d, maxRows, nonce);
      IssueUnfolds(server, a, d, maxRows, nonce);
    } else {
      var a := AnalyzeStage(server, r).value;
      RowCountExactly(a, PolicyStage(server, a).value, maxRows, server.hardMaxRows, server.limits, nonce,
                      server.generator, server.dialect);
    }
  }

  /** MAIN RESULT. A statement is accepted exactly when it is a sentence of the grammar within the limits,
      each of its tables is one reflected table, it can be analysed, the policy accepts its columns and
      tokens, and what comes of it can be issued. Nothing is refused twice. */
  lemma AcceptedExactly(server: Server, catalog: Catalog, q: Query, maxRows: int, nonce: string)
    requires Plausible(server, catalog, q) && KeepsReserved(server.fold)
    ensures ValidateSql(server, catalog, q, maxRows, nonce).Ok? <==>
      && IsSentence(q, false) && WithinLimits(q, server.limits)
      && TablesAccepted(server, catalog, q)
      && var r := Resolution(server, catalog, q);
        && r.Ok? && Analyzable(server.fold, server.cross, server.limits, r.value.query, r.value.schemas)
        && var a := AnalyzeStage(server, r.value);
          && a.Ok? && PolicyAccepts(server.policy, a.value)
          && var d := PolicyStage(server, a.value);
            d.Ok? && Issuable(server, a.value, d.value, maxRows, nonce)
  {
    ResolvedExactly(server, catalog, q);
    if ResolveStage(server, catalog, q).Ok? {
      var r := ResolvedOf(server, catalog, q);
      AnalysisExactly(server.fold, server.cross, server.limits, r.query, r.schemas);
      ResolvedStaysAllowed(server, catalog, q);
      if AnalyzeStage(server, r).Ok? {
        var a := AnalyzeStage(server, r).value;
        DecisionExactly(server.policy, a);
        if PolicyStage(server, a).Ok? {
          IssuedExactly(server, r, maxRows, nonce);
        }
      }
    }
  }

  // ----- The columns that are reported

  /** The reported column of item `index`: its label, its kind, its source, and whether that is protected. */
  ghost predicate Reports(server: Server, scope: seq<Binding>, p: Projection, index: nat, plan: OutputPlan) {
    && (exists binding ::
          Labels(server.fold, scope, p, index, OutputColumn(plan.title, plan.kind, plan.source, binding)))
    && (plan.protected <==> plan.source.Some? && IsProtected(server.policy, plan.source.value))
  }

  /** MAIN RESULT. The columns of an issued statement are the items of the caller's select list with its
      stars expanded, in order: each under its alias, the canonical name of its column or `column_` and
      its number, with the source it reads, and protected iff the policy protects that source. */
  lemma ReportedColumns(server: Server, catalog: Catalog, q: Query, maxRows: int, nonce: string, run: Run)
    requires IsRun(server, catalog, q, maxRows, nonce, run) && Plausible(server, catalog, q)
    ensures ExpandStars(server.fold, run.scope, q.expressions).Ok?
    ensures var ps := ExpandStars(server.fold, run.scope, q.expressions).value;
      && |run.issued.outputs| == |ps|
      && forall i :: 0 <= i < |ps| ==> Reports(server, run.scope, ps[i], i, run.issued.outputs[i])
  {
    ResolvedPlausible(server, catalog, q);
    AnalyzedOutputs(server, run.resolved);
    DecisionExactly(server.policy, run.analyzed);
    OutputsIssued(server, run.analyzed, run.decision, maxRows, nonce);
    var ps := ExpandStars(server.fold, run.scope, q.expressions).value;
    forall i | 0 <= i < |ps|
      ensures Reports(server, run.scope, ps[i], i, run.issued.outputs[i])
    {
      var o, plan := run.analyzed.outputs[i], run.issued.outputs[i];
      assert OutputColumn(plan.title, plan.kind, plan.source, o.binding) == o;
    }
  }

  lemma AnalyzedOutputs(server: Server, r: ResolvedQuery)
    requires AnalyzeStage(server, r).Ok?
    ensures ExpandStars(server.fold, ScopeOf(server, r), r.query.expressions).Ok?
    ensures var ps := ExpandStars(server.fold, ScopeOf(server, r), r.query.expressions).value;
      var outputs := AnalyzeStage(server, r).value.outputs;
      |outputs| == |ps| && forall i :: 0 <= i < |ps| ==> Labels(server.fold, ScopeOf(server, r), ps[i], i, outputs[i])
  {
    var scope := ScopeOf(server, r);
    AnalyzeStages(server.fold, server.cross, server.limits, r.query, r.schemas);
    ExpandedItems(server.fold, scope, r.query.expressions);
    var ps := ExpandStars(server.fold, scope, r.query.expressions).value;
    ClausesParts(ColumnResolver(server.fold, scope), OrderResolvers(server.fold, scope), r.query.(expressions := ps));
    OutputsExactly(server.fold, scope, ps);
  }

  lemma OutputsIssued(server: Server, a: AnalyzedQuery, d: PolicyDecision, maxRows: int, nonce: string)
    requires IssueStage(server, a, d, maxRows, nonce).Ok?
    ensures var plans := IssueStage(server, a, d, maxRows, nonce).value.outputs;
      && |plans| == |a.outputs| == |d.protected|
      && forall i :: 0 <= i < |plans| ==>
        plans[i] == OutputPlan(a.outputs[i].title, a.outputs[i].kind, a.outputs[i].source, d.protected[i])
  {
  }
}
