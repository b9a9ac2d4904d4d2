/** The stages after parsing never refuse a statement for its constructs, its joins or its IN lists; and
    the stages as they edit one statement compute what their composition specifies. */
module PipelineLimits {
  import opened Outcomes
  import opened Ast
  import opened Allowlist
  import opened Schema
  import opened Lineage
  import opened Policy
  import opened AnalysisMeaning
  import opened Issue
  import opened LimitsKept
  import opened Pipeline
  import opened LineageMethods
  import opened PolicyMethods
  import opened IssueMethods

  lemma {:induction false} ResolvingRepeatsNone(f: TableResolver, ts: seq<TableRef>)
    requires forall t :: !Repeats(f(t))
    ensures !Repeats(ResolveEach(f, ts))
  {
    if ts != [] {
      ResolvingRepeatsNone(f, ts[1..]);
    }
  }

  lemma {:induction false} KidsRepeatNone(p: PiiPolicy, path: Path, kids: seq<Expr>, from: nat)
    requires from <= |kids| && forall text :: !Repeats(p.decrypt(text))
    ensures !Repeats(KidSites(p, path, kids, from))
    decreases |kids| - from
  {
    if from < |kids| {
      KidsRepeatNone(p, path, kids, from + 1);
    }
  }

  lemma RefRepeatsNone(p: PiiPolicy, q: Query, ref: ColumnRef)
    requires forall text :: !Repeats(p.decrypt(text))
    ensures !Repeats(RefSites(p, q, ref))
  {
    var node := ref.node;
    if q.where_.Some? && node.path != [] {
      var up := node.path[..|node.path| - 1];
      var parent := At(q.where_.value, up);
      if parent.Some? && |parent.value.kids| >= 1 {
        KidsRepeatNone(p, up, parent.value.kids, 1);
      }
    }
  }

  lemma {:induction false} SitesRepeatNone(p: PiiPolicy, q: Query, refs: seq<ColumnRef>)
    requires forall text :: !Repeats(p.decrypt(text))
    ensures !Repeats(SitesOf(p, q, refs))
  {
    if refs != [] {
      RefRepeatsNone(p, q, refs[0]);
      SitesRepeatNone(p, q, refs[1..]);
    }
  }

  lemma SameInLists(q: Query, q': Query, max: nat)
    requires SameButTables(q, q') && InLists(q, max)
    ensures InLists(q', max)
  {
    assert EveryExpr(q, FitIn(max));
    assert EveryExpr(q', FitIn(max));
    assert EveryExpr(q', e => InListsFit(e, max));
  }

  /** What the resolved query keeps of the checks on the parsed one. */
  lemma ResolvedStaysAllowed(server: Server, catalog: Catalog, q: Query)
    requires Plausible(server, catalog, q) && KeepsReserved(server.fold) && ResolveStage(server, catalog, q).Ok?
    ensures var r := ResolvedOf(server, catalog, q);
      && Allowed(r.query, false) && |r.query.joins| <= server.limits.maxJoins
      && InLists(r.query, server.limits.maxInItems)
      && NamedTables(r.schemas)
  {
    TablesResolved(server.fold, server.dialect.hasSchema, catalog.tables, catalog.columns, q);
    ResolvedPlausible(server, catalog, q);
    SameInLists(q, ResolvedOf(server, catalog, q).query, server.limits.maxInItems);
  }

  lemma ResolveStageRepeatsNone(server: Server, catalog: Catalog, q: Query)
    requires ParseChecks(server, q).Ok? && forall schema, table :: !Repeats(catalog.columns(schema, table))
    ensures !Repeats(ResolveStage(server, catalog, q))
  {
    var f := ResolverFor(server.fold, server.dialect.hasSchema, catalog.tables, catalog.columns);
    forall t
      ensures !Repeats(f(t))
    {
    }
    ResolvingRepeatsNone(f, TableRefs(q));
  }

  /** MAIN RESULT. A statement that passed the checks after parsing is never refused by a later check
      for a construct, for its joins or for its IN lists: of all re-validations only the node limit can
      refuse it. Reflection and decryption have reasons of their own, and folding keeps ordinary table
      names ordinary. */
  lemma ValidationRepeatsNone(server: Server, catalog: Catalog, q: Query, maxRows: int, nonce: string)
    requires Plausible(server, catalog, q) && KeepsReserved(server.fold) && ParseChecks(server, q).Ok?
    requires forall schema, table :: !Repeats(catalog.columns(schema, table))
    requires forall text :: !Repeats(server.policy.decrypt(text))
    ensures !Repeats(ValidateSql(server, catalog, q, maxRows, nonce))
  {
    ResolveStageRepeatsNone(server, catalog, q);
    if ResolveStage(server, catalog, q).Ok? {
      var r := ResolvedOf(server, catalog, q);
      ResolvedStaysAllowed(server, catalog, q);
      AnalysisRepeatsNone(server.fold, server.cross, server.limits, r.query, r.schemas);
      if AnalyzeStage(server, r).Ok? {
        LaterStagesRepeatNone(server, r, maxRows, nonce);
      }
    }
  }

  lemma LaterStagesRepeatNone(server: Server, r: ResolvedQuery, maxRows: int, nonce: string)
    requires AnalyzeStage(server, r).Ok? && forall text :: !Repeats(server.policy.decrypt(text))
    requires Allowed(r.query, false) && |r.query.joins| <= server.limits.maxJoins
        && InLists(r.query, server.limits.maxInItems)
    requires NamedTables(r.schemas)
    ensures var a := AnalyzeStage(server, r).value;
      && !Repeats(PolicyStage(server, a))
      && (PolicyStage(server, a).Ok? ==> !Repeats(IssueStage(server, a, PolicyStage(server, a).value, maxRows, nonce)))
  {
    var a := AnalyzeStage(server, r).value;
    SitesRepeatNone(server.policy, a.query, a.references);
    if PolicyStage(server, a).Ok? && 1 <= maxRows <= server.hardMaxRows {
      IssueStaysAllowed(server.fold, server.cross, server.limits, r.query, r.schemas, server.policy, maxRows,
                        server.hardMaxRows,
                        nonce, server.generator, server.dialect);
    }
  }

  // ----- The stages on one statement

  /** `validate_sql`: the tables are rewritten in the caller's statement, the analysis in a copy. */
  method Validate(server: Server, catalog: Catalog, q: Select, maxRows: int,
                  nonce: string) returns (r: Result<ValidatedQuery>)
    modifies q
    ensures r == ValidateSql(server, catalog, old(q.Contents()), maxRows, nonce)
  {
    var checked := ParseChecks(server, q.Contents());
    if checked.Rejected? {
      return Rejected(checked.reason);
    }
    var schemas := ResolveTablesInPlace(server.fold, server.dialect.hasSchema, catalog.tables, catalog.columns, q);
    if schemas.Rejected? {
      return Rejected(schemas.reason);
    }
    var analyzed := AnalyzeQuery(server.fold, server.cross, server.limits, q, schemas.value);
    if analyzed.Rejected? {
      return Rejected(analyzed.reason);
    }
    var decision := EvaluatePolicy(server.policy, analyzed.value);
    if decision.Rejected? {
      return Rejected(decision.reason);
    }
    var working := new Select(analyzed.value.query);
    r := IssueValidatedQuery(working, analyzed.value, decision.value, maxRows, server.hardMaxRows, server.limits, nonce,
                             server.generator, server.dialect);
  }
}
