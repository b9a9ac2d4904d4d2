/** The aliases of a query do not show in its answer: run under a consistent renaming, every stage up to
    the policy decides alike, and the executed answers are the same. */
module RenamedRuns {
  import opened Outcomes
  import opened Ast
  import opened Scope
  import opened Values
  import opened Tokens
  import opened Allowlist
  import opened Schema
  import opened Lineage
  import opened LineageFacts
  import opened LineageComplete
  import opened PolicyFacts
  import opened Semantics
  import opened AnalysisMeaning
  import opened LimitsKept
  import opened Issue
  import opened BindMeaning
  import opened Executor
  import opened Pipeline
  import opened Renaming
  import opened RenamedRows

  // ----- The names an analysed query uses

  function ScopeNames(scope: seq<Binding>): set<string> {
    set i | 0 <= i < |scope| :: scope[i].name
  }

  /** Every name the resolver gives is a name of the query's tables. */
  ghost predicate Gives(f: Resolver, names: set<string>) {
    forall table, name :: f(table, name).Ok? ==> f(table, name).value.binding.name in names
  }

  lemma CanonicalGives(fold: Fold, scope: seq<Binding>, f: Resolver)
    requires CanonicalResolver(fold, scope, f)
    ensures Gives(f, ScopeNames(scope))
  {
    forall table, name | f(table, name).Ok?
      ensures f(table, name).value.binding.name in ScopeNames(scope)
    {
      assert Canonical(fold, scope, f(table, name).value);
    }
  }

  lemma {:induction false} MappedUses(f: Resolver, names: set<string>, e: Expr)
    requires Gives(f, names) && Everywhere(e, (k: Kind) => Resolves(f, k))
    ensures Everywhere(MapKinds(e, (k: Kind) => Qualified(f, k)), Uses(names))
  {
    forall i | 0 <= i < |e.kids| {
      MappedUses(f, names, e.kids[i]);
    }
  }

  lemma TreeUses(f: Resolver, names: set<string>, part: Part, e: Expr)
    requires Gives(f, names) && AnalyzeTree(f, part, e).Ok?
    ensures Everywhere(AnalyzeTree(f, part, e).value.item, Uses(names))
  {
    AnalyzeTreeResolves(f, part, e);
    MappedUses(f, names, e);
  }

  /** The qualifiers of the columns that the select list hides. */
  ghost predicate HiddenUses(names: set<string>, ps: seq<Projection>) {
    forall i :: 0 <= i < |ps| && ps[i].Item? && !ps[i].value.kind.Column? ==> Everywhere(ps[i].value, Uses(names))
  }

  ghost function HiddenUse(names: set<string>): Projection -> bool {
    (p: Projection) => p.Item? && !p.value.kind.Column? ==> Everywhere(p.value, Uses(names))
  }

  lemma ExpansionHides(fold: Fold, scope: seq<Binding>, ps: seq<Projection>, names: set<string>)
    requires ExpandStars(fold, scope, ps).Ok? && HiddenUses(names, ps)
    ensures HiddenUses(names, ExpandStars(fold, scope, ps).value)
  {
    ExpandedGood(fold, scope, ps, HiddenUse(names));
    var qs := ExpandStars(fold, scope, ps).value;
    assert forall k :: 0 <= k < |qs| ==> HiddenUse(names)(qs[k]);
  }

  lemma InSightUses(names: set<string>, q: Query)
    requires ColumnsInSight(q)
    ensures HiddenUses(names, q.expressions)
  {
    forall i | 0 <= i < |q.expressions| && q.expressions[i].Item? && !q.expressions[i].value.kind.Column?
      ensures Everywhere(q.expressions[i].value, Uses(names))
    {
      var e, free := q.expressions[i].value, (k: Kind) => !k.Column?;
      ColumnFreeEverywhere(e);
      EverywhereImplies(e, free, free, Uses(names));
    }
  }

  lemma ItemsUse(f: Resolver, names: set<string>, ps: seq<Projection>)
    requires AnalyzeProjections(f, ps, 0).Ok? && PlainItems(ps) && HiddenUses(names, ps) && Gives(f, names)
    ensures var items := AnalyzeProjections(f, ps, 0).value.items;
      |items| == |ps| && forall i :: 0 <= i < |items| ==> ItemUses(names, items[i])
  {
    ProjectionsPointwise(f, ps, 0);
    var items := AnalyzeProjections(f, ps, 0).value.items;
    forall i | 0 <= i < |ps|
      ensures ItemUses(names, items[i])
    {
      assert PlainItem(ps[i]);
      assert AnalyzeItem(f, ps[i], i).value.item == items[i];
    }
  }

  lemma JoinsUse(f: Resolver, names: set<string>, joins: seq<Join>)
    requires AnalyzeJoins(f, joins, 0).Ok? && Gives(f, names)
    ensures var items := AnalyzeJoins(f, joins, 0).value.item;
      forall j :: 0 <= j < |items| && items[j].on.Some? ==> Everywhere(items[j].on.value, Uses(names))
  {
    JoinsAnalyzed(f, joins);
    var items := AnalyzeJoins(f, joins, 0).value.item;
    forall j | 0 <= j < |items| && items[j].on.Some?
      ensures Everywhere(items[j].on.value, Uses(names))
    {
      assert JoinAnalyzed(f, j, joins[j], items[j]);
      TreeUses(f, names, InOn(j), joins[j].on.value);
    }
  }

  lemma ClausesUse(f: Resolver, g: seq<OutputColumn> -> Resolver, names: set<string>, q: Query)
    requires AnalyzeClauses(f, g, q).Ok? && PlainItems(q.expressions) && HiddenUses(names, q.expressions)
    requires Gives(f, names) && Gives(g(AnalyzeClauses(f, g, q).value.outputs), names)
    ensures QueryUses(names, AnalyzeClauses(f, g, q).value.query)
  {
    ClausesParts(f, g, q);
    var a := AnalyzeClauses(f, g, q).value;
    ItemsUse(f, names, q.expressions);
    JoinsUse(f, names, q.joins);
    if q.where_.Some? {
      TreeUses(f, names, InWhere, q.where_.value);
    }
    OrderAnalyzed(g(a.outputs), q.order);
    forall k | 0 <= k < |q.order|
      ensures Everywhere(a.query.order[k].target, Uses(names))
    {
      assert KeyAnalyzed(g(a.outputs), k, q.order[k], a.query.order[k]);
      TreeUses(g(a.outputs), names, InOrder(k), q.order[k].target);
    }
  }

  lemma GivesMore(f: Resolver, names: set<string>, more: set<string>)
    requires Gives(f, names) && names <= more
    ensures Gives(f, more)
  {
  }

  /** An analysed query uses the names of its tables, and those that its select list hides. */
  lemma AnalysisUses(fold: Fold, cross: CrossCheck, limits: Limits, q: Query, schemas: seq<TableSchema>,
                     names: set<string>)
    requires Analyze(fold, cross, limits, q, schemas).Ok? && HiddenUses(names, q.expressions)
    requires Collect(fold, q, schemas).Ok? && ScopeNames(Collect(fold, q, schemas).value) <= names
    ensures QueryUses(names, Analyze(fold, cross, limits, q, schemas).value.query)
  {
    AnalyzeStages(fold, cross, limits, q, schemas);
    AnalyzedItemsPlain(fold, cross, limits, q, schemas);
    var scope, working := Collect(fold, q, schemas).value, Working(fold, q, schemas);
    var f, g := ColumnResolver(fold, scope), OrderResolvers(fold, scope);
    ClausesParts(f, g, working);
    ColumnResolverCanonical(fold, scope);
    OutputsShown(f, fold, scope, working.expressions);
    var outputs := AnalyzeClauses(f, g, working).value.outputs;
    OrderResolverCanonical(fold, scope, outputs);
    CanonicalGives(fold, scope, f);
    CanonicalGives(fold, scope, g(outputs));
    GivesMore(f, ScopeNames(scope), names);
    GivesMore(g(outputs), ScopeNames(scope), names);
    ExpansionHides(fold, scope, q.expressions, names);
    ClausesUse(f, g, names, working);
  }

  /** Names that differ under case folding differ, so the renaming is consistent for exact names too. */
  lemma ExactlyConsistent(fold: Fold, rename: Rename, names: set<string>, scope: seq<Binding>)
    requires Consistent(fold, rename, names) && ScopeUses(names, scope) && DistinctBindings(fold, scope)
    ensures Consistent(Exact(), rename, ScopeNames(scope)) && ScopeUses(ScopeNames(scope), scope)
  {
    forall a, b | a in ScopeNames(scope) && b in ScopeNames(scope) && rename(a) == rename(b)
      ensures a == b
    {
      var i :| 0 <= i < |scope| && scope[i].name == a;
      var j :| 0 <= j < |scope| && scope[j].name == b;
      assert fold(a) == fold(b);
    }
  }

  // ----- Table resolution

  function RenameResolvedTable(rename: Rename): ResolvedTable -> ResolvedTable {
    (r: ResolvedTable) => r.(node := RenameTable(rename, r.node))
  }

  lemma {:induction false} ResolveEachRenamed(f: TableResolver, rename: Rename, ts: seq<TableRef>)
    requires forall t :: f(RenameTable(rename, t)) == MapResult(RenameResolvedTable(rename), f(t))
    ensures ResolveEach(f, MapSeq(TableRenamer(rename), ts))
      == MapResult((rs: seq<ResolvedTable>) => MapSeq(RenameResolvedTable(rename), rs), ResolveEach(f, ts))
  {
    if ts != [] {
      assert MapSeq(TableRenamer(rename), ts)[1..] == MapSeq(TableRenamer(rename), ts[1..]);
      ResolveEachRenamed(f, rename, ts[1..]);
      if f(ts[0]).Ok? && ResolveEach(f, ts[1..]).Ok? {
        MapSeqPrepend(RenameResolvedTable(rename), f(ts[0]).value, ResolveEach(f, ts[1..]).value);
      }
    } else {
      assert MapSeq(RenameResolvedTable(rename), []) == [];
    }
  }

  lemma TablesPut(rename: Rename, q: Query, ts: seq<TableRef>)
    requires |ts| == |TableRefs(q)|
    ensures |MapSeq(TableRenamer(rename), ts)| == |TableRefs(RenameQuery(rename, q))|
    ensures WithTables(RenameQuery(rename, q), MapSeq(TableRenamer(rename), ts))
      == RenameQuery(rename, WithTables(q, ts))
  {
    var x, y := WithTables(RenameQuery(rename, q), MapSeq(TableRenamer(rename), ts)),
        RenameQuery(rename, WithTables(q, ts));
    assert x.joins == y.joins;
    assert x.from_ == y.from_;
  }

  function RenameResolvedQuery(rename: Rename): ResolvedQuery -> ResolvedQuery {
    (r: ResolvedQuery) => r.(query := RenameQuery(rename, r.query))
  }

  lemma ResolveAllRenamed(f: TableResolver, rename: Rename, q: Query)
    requires forall t :: f(RenameTable(rename, t)) == MapResult(RenameResolvedTable(rename), f(t))
    ensures ResolveAll(f, RenameQuery(rename, q)) == MapResult(RenameResolvedQuery(rename), ResolveAll(f, q))
  {
    assert TableRefs(RenameQuery(rename, q)) == MapSeq(TableRenamer(rename), TableRefs(q));
    ResolveEachRenamed(f, rename, TableRefs(q));
    var rs := ResolveEach(f, TableRefs(q));
    if rs.Ok? {
      ResolveEachPointwise(f, TableRefs(q));
      var rs' := MapSeq(RenameResolvedTable(rename), rs.value);
      assert NodesOf(rs') == MapSeq(TableRenamer(rename), NodesOf(rs.value));
      assert SchemasOf(rs') == SchemasOf(rs.value);
      TablesPut(rename, q, NodesOf(rs.value));
    }
  }

  lemma TableRenamed(server: Server, catalog: Catalog, rename: Rename, t: TableRef)
    ensures var f := ResolverFor(server.fold, server.dialect.hasSchema, catalog.tables, catalog.columns);
      f(RenameTable(rename, t)) == MapResult(RenameResolvedTable(rename), f(t))
  {
  }

  /** Tables are matched by their names, and keep their aliases. */
  lemma ResolveStageRenamed(server: Server, catalog: Catalog, rename: Rename, q: Query)
    requires forall a :: a != "" ==> rename(a) != ""
    ensures ResolveStage(server, catalog, RenameQuery(rename, q))
      == MapResult(RenameResolvedQuery(rename), ResolveStage(server, catalog, q))
  {
    ChecksRenamed(rename, q, server.limits);
    var f := ResolverFor(server.fold, server.dialect.hasSchema, catalog.tables, catalog.columns);
    forall t {
      TableRenamed(server, catalog, rename, t);
    }
    ResolveAllRenamed(f, rename, q);
  }

  // ----- Whole runs

  /** What is asked of the renaming, on the table-resolved query. */
  ghost predicate Renames(server: Server, rename: Rename, names: set<string>, r: ResolvedQuery) {
    RenamesConsistently(server.fold, rename, names, r.query, r.schemas)
      && BlindToAliases(server.cross, rename, r.schemas)
  }

  /** What is asked besides for the rows: columns hidden in the select list are sent as they are written,
      so where there are any the new names are to differ wherever the old ones do. */
  ghost predicate RenamesExactly(rename: Rename, names: set<string>, q: Query) {
    ColumnsInSight(q) || Consistent(Exact(), rename, names)
  }

  /** MAIN RESULT. Up to the policy, the renamed query fares as the query does: the same stage refuses
      it for the same reason, or the decision is the same. */
  lemma StagesRenamed(server: Server, catalog: Catalog, rename: Rename, names: set<string>, q: Query)
    requires forall a :: a != "" ==> rename(a) != ""
    requires ResolveStage(server, catalog, q).Ok? ==> Renames(server, rename, names, ResolvedOf(server, catalog, q))
    ensures ResolveStage(server, catalog, RenameQuery(rename, q))
      == MapResult(RenameResolvedQuery(rename), ResolveStage(server, catalog, q))
    ensures ResolveStage(server, catalog, q).Ok? ==>
      var r := ResolvedOf(server, catalog, q);
      var r' := RenameResolvedQuery(rename)(r);
      && AnalyzeStage(server, r') == MapResult(RenameAnalyzed(rename), AnalyzeStage(server, r))
      && (AnalyzeStage(server, r).Ok? ==>
          PolicyStage(server, AnalyzeStage(server, r').value) == PolicyStage(server, AnalyzeStage(server, r).value))
  {
    ResolveStageRenamed(server, catalog, rename, q);
    if ResolveStage(server, catalog, q).Ok? {
      var r := ResolvedOf(server, catalog, q);
      AnalysisRenamed(server.fold, server.cross, server.limits, rename, names, r.query, r.schemas);
      if AnalyzeStage(server, r).Ok? {
        DecisionRenamed(server.policy, rename, AnalyzeStage(server, r).value);
      }
    }
  }

  /** The rows of the analysed query, renamed. */
  lemma AnalyzedRowsRenamed(server: Server, rename: Rename, names: set<string>, r: ResolvedQuery, eng: Engine,
                            tables: seq<seq<Row>>)
    requires Renames(server, rename, names, r) && RenamesExactly(rename, names, r.query)
    requires Grammatical(r.query) && AnalyzeStage(server, r).Ok?
    requires |tables| == TableCount(r.query)
    ensures var a, scope := AnalyzeStage(server, r).value, ScopeOf(server, r);
      var a', scope' := RenameAnalyzed(rename)(a), MapSeq(RenameBinding(rename), scope);
      && Meant(a.query) && |scope| == TableCount(a.query) == |tables|
      && Meaning(Exact(), scope', eng, CallerConstants(server.policy.decrypt), tables, a'.query)
         == Meaning(Exact(), scope, eng, CallerConstants(server.policy.decrypt), tables, a.query)
  {
    var a, scope := AnalyzeStage(server, r).value, ScopeOf(server, r);
    AnalyzedShape(server, r);
    AnalyzeStages(server.fold, server.cross, server.limits, r.query, r.schemas);
    CollectPairs(server.fold, r.query, r.schemas);
    CollectRenamed(server.fold, rename, names, r.query, r.schemas);
    var used := if ColumnsInSight(r.query) then ScopeNames(scope) else names;
    ExactlyConsistent(server.fold, rename, names, scope);
    HiddenUsed(names, used, r.query);
    AnalysisUses(server.fold, server.cross, server.limits, r.query, r.schemas, used);
    MeaningRenamed(Exact(), rename, used, scope, eng, CallerConstants(server.policy.decrypt), tables, a.query);
  }

  lemma HiddenUsed(names: set<string>, used: set<string>, q: Query)
    requires QueryUses(names, q) && (ColumnsInSight(q) || used == names)
    ensures HiddenUses(used, q.expressions)
  {
    if ColumnsInSight(q) {
      InSightUses(used, q);
    } else {
      forall i | 0 <= i < |q.expressions| && q.expressions[i].Item?
        ensures Everywhere(q.expressions[i].value, Uses(names))
      {
        assert ItemUses(names, q.expressions[i]);
      }
    }
  }

  lemma ScopeRenamed(server: Server, rename: Rename, names: set<string>, r: ResolvedQuery)
    requires Renames(server, rename, names, r)
    ensures ScopeOf(server, RenameResolvedQuery(rename)(r)) == MapSeq(RenameBinding(rename), ScopeOf(server, r))
  {
    CollectRenamed(server.fold, rename, names, r.query, r.schemas);
  }

  lemma RunsRenamed(server: Server, rename: Rename, names: set<string>, run: Run, run': Run, maxRows: int,
                    nonce: string, codec: Codec, eng: Engine, tables: seq<seq<Row>>)
    requires RunSound(server, run, maxRows, nonce) && RunSound(server, run', maxRows, nonce)
    requires Surroundings(server, run.issued, codec, nonce) && Surroundings(server, run'.issued, codec, nonce)
    requires Renames(server, rename, names, run.resolved) && RenamesExactly(rename, names, run.resolved.query)
    requires Populated(run.scope, tables)
    requires run'.analyzed == RenameAnalyzed(rename)(run.analyzed) && run'.decision == run.decision
    requires run'.scope == MapSeq(RenameBinding(rename), run.scope)
    ensures Meant(run.issued.query) && |run.scope| == TableCount(run.issued.query)
    ensures Meant(run'.issued.query) && |run'.scope| == TableCount(run'.issued.query) == |run.scope|
    ensures run'.issued.outputs == run.issued.outputs
    ensures DriverRows(server, run'.issued, run'.scope, eng, tables)
      == DriverRows(server, run.issued, run.scope, eng, tables)
  {
    AnalyzedRowsRenamed(server, rename, names, run.resolved, eng, tables);
    PopulatedRenamed(rename, run.scope, tables);
    IssuedRows(server, run.scope, run.analyzed, run.decision, maxRows, nonce, codec, eng, tables);
    IssuedRows(server, run'.scope, run'.analyzed, run.decision, maxRows, nonce, codec, eng, tables);
    IssuedParts(server, run.analyzed, run.decision, maxRows, nonce);
    IssuedParts(server, run'.analyzed, run.decision, maxRows, nonce);
    OutputPlansRenamed(rename, run.analyzed.outputs, run.decision.protected);
  }

  lemma OutputPlansRenamed(rename: Rename, outputs: seq<OutputColumn>, protected: seq<bool>)
    requires |outputs| == |protected|
    ensures Plans(MapSeq(RenameOutput(rename), outputs), protected) == Plans(outputs, protected)
  {
  }

  lemma PopulatedRenamed(rename: Rename, scope: seq<Binding>, tables: seq<seq<Row>>)
    requires Populated(scope, tables)
    ensures Populated(MapSeq(RenameBinding(rename), scope), tables)
  {
  }

  /** What an accepted run is known to have. */
  ghost predicate RunSound(server: Server, run: Run, maxRows: int, nonce: string) {
    && IssueStage(server, run.analyzed, run.decision, maxRows, nonce) == Ok(run.issued)
    && AnalyzeStage(server, run.resolved) == Ok(run.analyzed) && run.scope == ScopeOf(server, run.resolved)
    && SitesExact(server.policy, run.analyzed.query, run.decision.sites) && Allowed(run.analyzed.query, false)
    && Meant(run.resolved.query) && Meant(run.analyzed.query)
    && |run.scope| == TableCount(run.resolved.query) == TableCount(run.analyzed.query)
  }

  lemma RunIsSound(server: Server, catalog: Catalog, q: Query, maxRows: int, nonce: string, run: Run)
    requires IsRun(server, catalog, q, maxRows, nonce, run) && Plausible(server, catalog, q)
    ensures RunSound(server, run, maxRows, nonce)
  {
    RunSettled(server, catalog, q, maxRows, nonce, run);
  }

  /** The products of both runs correspond. */
  lemma RunsCorrespond(server: Server, catalog: Catalog, rename: Rename, names: set<string>, q: Query, maxRows: int,
                       nonce: string, run: Run, run': Run)
    requires forall a :: a != "" ==> rename(a) != ""
    requires IsRun(server, catalog, q, maxRows, nonce, run) && Renames(server, rename, names, run.resolved)
    requires IsRun(server, catalog, RenameQuery(rename, q), maxRows, nonce, run')
    ensures run'.analyzed == RenameAnalyzed(rename)(run.analyzed) && run'.decision == run.decision
    ensures run'.scope == MapSeq(RenameBinding(rename), run.scope)
  {
    StagesRenamed(server, catalog, rename, names, q);
    ScopeRenamed(server, rename, names, run.resolved);
  }

  /** Both runs are sound and correspond. */
  ghost predicate Corresponding(server: Server, rename: Rename, names: set<string>, run: Run, run': Run, maxRows: int,
                                nonce: string) {
    && RunSound(server, run, maxRows, nonce) && RunSound(server, run', maxRows, nonce)
    && Renames(server, rename, names, run.resolved) && RenamesExactly(rename, names, run.resolved.query)
    && run'.analyzed == RenameAnalyzed(rename)(run.analyzed) && run'.decision == run.decision
    && run'.scope == MapSeq(RenameBinding(rename), run.scope)
  }

  /** When both queries are issued, their runs correspond. */
  lemma RenamedRunsCorrespond(server: Server, catalog: Catalog, rename: Rename, names: set<string>, q: Query,
                              maxRows: int, nonce: string, run: Run, run': Run)
    requires forall a :: a != "" ==> rename(a) != ""
    requires IsRun(server, catalog, q, maxRows, nonce, run) && Plausible(server, catalog, q)
    requires IsRun(server, catalog, RenameQuery(rename, q), maxRows, nonce, run')
        && Plausible(server, catalog, RenameQuery(rename, q))
    requires Renames(server, rename, names, run.resolved) && RenamesExactly(rename, names, q)
    ensures Corresponding(server, rename, names, run, run', maxRows, nonce)
  {
    RunIsSound(server, catalog, q, maxRows, nonce, run);
    RunIsSound(server, catalog, RenameQuery(rename, q), maxRows, nonce, run');
    RunsCorrespond(server, catalog, rename, names, q, maxRows, nonce, run, run');
    ResolvedPlausible(server, catalog, q);
  }

  /** The answer that the executor gives for a run. */
  ghost function AnswerOf(server: Server, run: Run, maxRows: nat, codec: Codec, eng: Engine, nonces: Nonces,
                          tables: seq<seq<Row>>): Result<ExecutionResult>
    requires Meant(run.issued.query) && |run.scope| == |tables| == TableCount(run.issued.query)
  {
    var plans := run.issued.outputs;
    Execute(codec, plans, maxRows, nonces, |plans|, DriverRows(server, run.issued, run.scope, eng, tables))
  }

  /** Corresponding runs return the same rows from the driver and give equal answers. */
  lemma CorrespondingAnswers(server: Server, rename: Rename, names: set<string>, run: Run, run': Run,
                             maxRows: int, nonce: string, codec: Codec, eng: Engine, nonces: Nonces,
                             tables: seq<seq<Row>>)
    requires Corresponding(server, rename, names, run, run', maxRows, nonce)
    requires Surroundings(server, run.issued, codec, nonce) && Surroundings(server, run'.issued, codec, nonce)
    requires Populated(run.scope, tables) && maxRows >= 1
    ensures Meant(run.issued.query) && |run.scope| == TableCount(run.issued.query)
    ensures Meant(run'.issued.query) && |run'.scope| == TableCount(run'.issued.query) == |run.scope|
    ensures DriverRows(server, run'.issued, run'.scope, eng, tables)
      == DriverRows(server, run.issued, run.scope, eng, tables)
    ensures AnswerOf(server, run', maxRows, codec, eng, nonces, tables)
      == AnswerOf(server, run, maxRows, codec, eng, nonces, tables)
  {
    RunsRenamed(server, rename, names, run, run', maxRows, nonce, codec, eng, tables);
  }

  /** MAIN RESULT. When a statement and its renaming are both issued, the driver returns the same rows
      for both and the answers are equal. (Whether they are issued depends on the text generator
      besides.) */
  lemma AnswersRenamed(server: Server, catalog: Catalog, rename: Rename, names: set<string>, q: Query,
                       maxRows: int, nonce: string, run: Run, run': Run, codec: Codec, eng: Engine, nonces: Nonces,
                       tables: seq<seq<Row>>)
    requires forall a :: a != "" ==> rename(a) != ""
    requires IsRun(server, catalog, q, maxRows, nonce, run) && Plausible(server, catalog, q)
    requires IsRun(server, catalog, RenameQuery(rename, q), maxRows, nonce, run')
        && Plausible(server, catalog, RenameQuery(rename, q))
    requires Renames(server, rename, names, run.resolved) && RenamesExactly(rename, names, q)
    requires Surroundings(server, run.issued, codec, nonce) && Surroundings(server, run'.issued, codec, nonce)
    requires Populated(run.scope, tables) && maxRows >= 1
    ensures Meant(run.issued.query) && |run.scope| == TableCount(run.issued.query)
    ensures Meant(run'.issued.query) && |run'.scope| == TableCount(run'.issued.query) == |run.scope|
    ensures AnswerOf(server, run', maxRows, codec, eng, nonces, tables)
      == AnswerOf(server, run, maxRows, codec, eng, nonces, tables)
  {
    RenamedRunsCorrespond(server, catalog, rename, names, q, maxRows, nonce, run, run');
    CorrespondingAnswers(server, rename, names, run, run', maxRows, nonce, codec, eng, nonces, tables);
  }
}
