/** `security/pipeline.py`: the stages composed, and what the composition delivers. */
module Pipeline {
  import opened Outcomes
  import opened Ast
  import opened Scope
  import opened Values
  import opened Tokens
  import opened Allowlist
  import opened Schema
  import opened Lineage
  import opened LineageFacts
  import opened LineageComplete
  import opened Policy
  import opened PolicyFacts
  import opened Semantics
  import Grammar
  import opened Simulation
  import opened AnalysisMeaning
  import opened BindText
  import opened Issue
  import opened BindFacts
  import opened BindMeaning
  import opened Executor
  import opened ExecutorFacts
  import opened Noninterference

  /** Everything a server alias fixes, and the platform functions the stages call. */
  datatype Server = Server(
    fold: Fold,
    dialect: Dialect,
    limits: Limits,
    hardMaxRows: nat,
    policy: PiiPolicy,
    cross: CrossCheck,
    generator: Generator)

  /** Reflection of the database: its tables and their columns. */
  datatype Catalog = Catalog(tables: seq<TableName>, columns: ColumnSource)

  function ParseChecks(server: Server, q: Query): Result<()> {
    var _ :- CheckLimits(q, server.limits);
    ValidateAllowlist(q, false)
  }

  function ResolveStage(server: Server, catalog: Catalog, q: Query): Result<ResolvedQuery> {
    var _ :- ParseChecks(server, q);
    ResolveTables(server.fold, server.dialect.hasSchema, catalog.tables, catalog.columns, q)
  }

  function AnalyzeStage(server: Server, r: ResolvedQuery): Result<AnalyzedQuery> {
    Analyze(server.fold, server.cross, server.limits, r.query, r.schemas)
  }

  function PolicyStage(server: Server, a: AnalyzedQuery): Result<PolicyDecision> {
    Evaluate(server.policy, a)
  }

  function IssueStage(server: Server, a: AnalyzedQuery, d: PolicyDecision, maxRows: int,
                      nonce: string): Result<ValidatedQuery> {
    IssueQuery(a, d, maxRows, server.hardMaxRows, server.limits, nonce, server.generator, server.dialect)
  }

  /** `validate_sql`, from the parsed statement on. */
  function ValidateSql(server: Server, catalog: Catalog, q: Query, maxRows: int,
                       nonce: string): Result<ValidatedQuery> {
    var r :- ResolveStage(server, catalog, q);
    var a :- AnalyzeStage(server, r);
    var d :- PolicyStage(server, a);
    IssueStage(server, a, d, maxRows, nonce)
  }

  // ----- The products of an accepted query

  function ResolvedOf(server: Server, catalog: Catalog, q: Query): ResolvedQuery
    requires ResolveStage(server, catalog, q).Ok?
  {
    ResolveStage(server, catalog, q).value
  }

  /** The tables of the query and the names they are read through. */
  function ScopeOf(server: Server, r: ResolvedQuery): seq<Binding> {
    var bindings := Collect(server.fold, r.query, r.schemas);
    if bindings.Ok? then bindings.value else []
  }

  // ----- What the driver makes of the parameters

  /** The value each placeholder receives when the values are bound in text order. */
  function DriverBinds(names: seq<string>, order: seq<nat>, values: seq<Value>, n: nat): map<string, Value>
    requires n <= |order| && n <= |values| && forall i :: 0 <= i < |order| ==> order[i] < |names|
  {
    if n == 0 then map[] else DriverBinds(names, order, values, n - 1)[names[order[n - 1]] := values[n - 1]]
  }

  lemma {:induction false} DriverBindsHold(names: seq<string>, order: seq<nat>, values: seq<Value>, n: nat,
                                           parameters: map<string, Value>)
    requires n <= |order| && n <= |values| && forall i :: 0 <= i < |order| ==> order[i] < |names|
    requires forall i :: 0 <= i < n ==> names[order[i]] in parameters && values[i] == parameters[names[order[i]]]
    ensures forall name :: name in DriverBinds(names, order, values, n) <==>
      exists i :: 0 <= i < n && names[order[i]] == name
    ensures forall name :: name in DriverBinds(names, order, values, n) ==>
              name in parameters && DriverBinds(names, order, values, n)[name] == parameters[name]
  {
    if n > 0 {
      DriverBindsHold(names, order, values, n - 1, parameters);
    }
  }

  lemma {:induction false} NamesAtHold(e: Expr, paths: seq<Path>)
    requires forall path :: path in paths ==> At(e, path).Some? && At(e, path).value.kind.Placeholder?
    ensures |NamesAt(e, paths)| == |paths|
    ensures forall i :: 0 <= i < |paths| ==> NamesAt(e, paths)[i] == At(e, paths[i]).value.kind.name
  {
    if paths != [] {
      assert paths[0] in paths;
      NamesAtHold(e, paths[1..]);
    }
  }

  /** The names found are the names of the placeholders in WHERE. */
  lemma NamesFound(q: Query, name: string)
    ensures name in PlaceholderNames(q) <==>
            exists path :: q.where_.Some? && At(q.where_.value, path).Some?
              && At(q.where_.value, path).value.kind == Placeholder(name)
  {
    if q.where_.Some? {
      var e := q.where_.value;
      var paths, names := SelectPaths(Nodes(e), IsPlaceholder), PlaceholderNames(q);
      KindPathsComplete(e, IsPlaceholder);
      NamesAtHold(e, paths);
      if name in names {
        var i :| 0 <= i < |names| && names[i] == name;
        assert paths[i] in paths;
      }
      if path :| At(e, path).Some? && At(e, path).value.kind == Placeholder(name) {
        assert path in paths;
        var i :| 0 <= i < |paths| && paths[i] == path;
        assert names[i] == name;
      }
    }
  }

  lemma NameFoundAt(q: Query, path: Path, name: string)
    requires q.where_.Some? && At(q.where_.value, path).Some?
        && At(q.where_.value, path).value.kind == Placeholder(name)
    ensures name in PlaceholderNames(q)
  {
    NamesFound(q, name);
  }

  lemma PlaceholderIsParameter(p: PiiPolicy, q: Query, sites: seq<TokenSite>, path: Path)
    requires SitesExact(p, q, sites) && NoPlaceholders(q)
    requires PlaceholderOf(BindTokens(q, sites), Position(InWhere, path))
    ensures KindAtPosition(BindTokens(q, sites), Position(InWhere, path)).name in BindParameters(sites, |sites|)
  {
    var position := Position(InWhere, path);
    BindingIsABijection(p, q, sites);
    assert TokenOf(q, position);
    var k: nat :| k < |sites| && sites[k].literal == position;
    assert KindAtPosition(BindTokens(q, sites), sites[k].literal) == Placeholder(BindName(k));
  }

  lemma NamesAreParameters(p: PiiPolicy, q: Query, sites: seq<TokenSite>, name: string)
    requires SitesExact(p, q, sites) && NoPlaceholders(q)
    requires name in PlaceholderNames(BindTokens(q, sites))
    ensures name in BindParameters(sites, |sites|)
  {
    var bound := BindTokens(q, sites);
    NamesFound(bound, name);
    var path :| bound.where_.Some? && At(bound.where_.value, path).Some?
      && At(bound.where_.value, path).value.kind == Placeholder(name);
    PlaceholderIsParameter(p, q, sites, path);
  }

  lemma ParametersAreNames(p: PiiPolicy, q: Query, sites: seq<TokenSite>, k: nat)
    requires SitesExact(p, q, sites) && NoPlaceholders(q) && k < |sites|
    ensures BindName(k) in PlaceholderNames(BindTokens(q, sites))
  {
    var bound := BindTokens(q, sites);
    SitesLocated(p, q, sites);
    BoundSite(q, sites, k);
    NameFoundAt(bound, sites[k].literal.path, BindName(k));
  }

  /** The placeholder names of the bound query are the names of its parameters. */
  lemma PlaceholderNamesHold(p: PiiPolicy, q: Query, sites: seq<TokenSite>)
    requires SitesExact(p, q, sites) && NoPlaceholders(q)
    ensures var names, parameters := PlaceholderNames(BindTokens(q, sites)), BindParameters(sites, |sites|);
      forall name :: name in names <==> name in parameters
  {
    var names, parameters := PlaceholderNames(BindTokens(q, sites)), BindParameters(sites, |sites|);
    ParameterNames(sites, |sites|);
    forall name | name in names
      ensures name in parameters
    {
      NamesAreParameters(p, q, sites, name);
    }
    forall name | name in parameters
      ensures name in names
    {
      var k: nat :| k < |sites| && name == BindName(k);
      ParametersAreNames(p, q, sites, k);
    }
  }

  lemma {:induction false} ParameterNames(sites: seq<TokenSite>, n: nat)
    requires n <= |sites|
    ensures forall name :: name in BindParameters(sites, n) ==> exists k: nat :: k < n && name == BindName(k)
  {
    if n > 0 {
      ParameterNames(sites, n - 1);
    }
  }

  /** The parameters arrive at the placeholders they were made for. */
  lemma DriverBindsAreParameters(p: PiiPolicy, q: Query, sites: seq<TokenSite>, nonce: string, r: Rendering,
                                 dialect: Dialect)
    requires SitesExact(p, q, sites) && NoPlaceholders(q)
    requires IsNonceText(nonce) && SafeBind(dialect) && AllDelimit(nonce, r.texts)
    requires var names, parameters := PlaceholderNames(BindTokens(q, sites)), BindParameters(sites, |sites|);
      Rendered(r, |names|) && AllBound(names, parameters) && ToPositional(nonce, r, names, parameters, dialect).Ok?
    ensures var names, parameters := PlaceholderNames(BindTokens(q, sites)), BindParameters(sites, |sites|);
            var values := ToPositional(nonce, r, names, parameters, dialect).value.1;
      |values| == |r.order| && DriverBinds(names, r.order, values, |values|) == parameters
  {
    var names, parameters := PlaceholderNames(BindTokens(q, sites)), BindParameters(sites, |sites|);
    BindSubstitutionIsSimultaneous(nonce, r, names, parameters, dialect);
    PlaceholderNamesHold(p, q, sites);
    BindsInTextOrder(names, parameters, r.order, ToPositional(nonce, r, names, parameters, dialect).value.1);
  }

  /** Values bound in any order that covers the placeholders are the parameters. */
  lemma BindsInTextOrder(names: seq<string>, parameters: map<string, Value>, order: seq<nat>, values: seq<Value>)
    requires |values| == |order| == |names| && Permutes(order, |names|)
    requires forall i :: 0 <= i < |order| ==> order[i] < |names|
    requires AllBound(names, parameters) && forall name :: name in parameters ==> name in names
    requires forall i :: 0 <= i < |values| ==> values[i] == parameters[names[order[i]]]
    ensures DriverBinds(names, order, values, |values|) == parameters
  {
    DriverBindsHold(names, order, values, |values|, parameters);
    SameMap(names, order, parameters, DriverBinds(names, order, values, |values|));
  }

  lemma OrderReaches(names: seq<string>, order: seq<nat>, name: string)
    requires Permutes(order, |names|) && name in names && forall i :: 0 <= i < |order| ==> order[i] < |names|
    ensures exists i :: 0 <= i < |order| && names[order[i]] == name
  {
    var k: nat :| k < |names| && names[k] == name;
    assert k in order;
    var i :| 0 <= i < |order| && order[i] == k;
    assert names[order[i]] == name;
  }

  lemma SameMap(names: seq<string>, order: seq<nat>, parameters: map<string, Value>, binds: map<string, Value>)
    requires Permutes(order, |names|) && forall i :: 0 <= i < |order| ==> order[i] < |names|
    requires forall name :: name in parameters ==> name in names
    requires forall name :: name in binds <==> exists i :: 0 <= i < |order| && names[order[i]] == name
    requires forall name :: name in binds ==> name in parameters && binds[name] == parameters[name]
    ensures binds == parameters
  {
    forall name | name in parameters
      ensures name in binds
    {
      OrderReaches(names, order, name);
    }
    assert binds.Keys == parameters.Keys;
  }

  // ----- What acceptance establishes

  ghost function SettingOf(server: Server, scope: seq<Binding>, eng: Engine, codec: Codec,
                           sites: seq<TokenSite>): Setting {
    Setting(server.policy, scope, eng, codec, set i | 0 <= i < |sites| :: sites[i].value)
  }

  /** An accepted query with the products of its stages. */
  datatype Run = Run(resolved: ResolvedQuery, scope: seq<Binding>, analyzed: AnalyzedQuery,
                     decision: PolicyDecision, issued: ValidatedQuery)

  /** `run` holds the products of the stages for `q`. */
  ghost predicate IsRun(server: Server, catalog: Catalog, q: Query, maxRows: int, nonce: string, run: Run) {
    && ResolveStage(server, catalog, q) == Ok(run.resolved)
    && run.scope == ScopeOf(server, run.resolved)
    && AnalyzeStage(server, run.resolved) == Ok(run.analyzed)
    && PolicyStage(server, run.analyzed) == Ok(run.decision)
    && IssueStage(server, run.analyzed, run.decision, maxRows, nonce) == Ok(run.issued)
  }

  /** A query is accepted iff it has a run, and its run issues what is accepted. */
  lemma RunsAreAcceptances(server: Server, catalog: Catalog, q: Query, maxRows: int, nonce: string)
    ensures ValidateSql(server, catalog, q, maxRows, nonce).Ok? <==>
      exists run :: IsRun(server, catalog, q, maxRows, nonce, run)
    ensures forall run :: IsRun(server, catalog, q, maxRows, nonce, run) ==>
      ValidateSql(server, catalog, q, maxRows, nonce) == Ok(run.issued)
  {
    if ValidateSql(server, catalog, q, maxRows, nonce).Ok? {
      var r := ResolveStage(server, catalog, q).value;
      var a := AnalyzeStage(server, r).value;
      var d := PolicyStage(server, a).value;
      assert IsRun(server, catalog, q, maxRows, nonce,
                   Run(r, ScopeOf(server, r), a, d, ValidateSql(server, catalog, q, maxRows, nonce).value));
    }
  }

  /** What is asked of the statement and of reflection: the grammar's shape, and named tables. */
  predicate Plausible(server: Server, catalog: Catalog, q: Query) {
    && Grammatical(q)
    && (ResolveStage(server, catalog, q).Ok? ==>
        forall i :: 0 <= i < |ResolvedOf(server, catalog, q).schemas| ==>
          ResolvedOf(server, catalog, q).schemas[i].name != "")
  }

  lemma ResolvedPlausible(server: Server, catalog: Catalog, q: Query)
    requires Plausible(server, catalog, q) && ResolveStage(server, catalog, q).Ok?
    ensures Grammatical(ResolvedOf(server, catalog, q).query) && NamedTables(ResolvedOf(server, catalog, q).schemas)
    ensures ResolvedOf(server, catalog, q).query.expressions == q.expressions
  {
    TablesResolved(server.fold, server.dialect.hasSchema, catalog.tables, catalog.columns, q);
  }

  /** No protected column could be what the reference means. */
  ghost predicate NamesNothingProtected(server: Server, scope: seq<Binding>, kind: Kind) {
    kind.Column? ==>
      forall i: nat, j: nat :: Names(server.fold, scope, kind.table, kind.name, i, j) ==>
        !IsProtected(server.policy, SourceOf(Resolved(scope[i], scope[i].table.columns[j])))
  }

  /** The select list hides no protected column inside an expression. */
  ghost predicate HidesNothingProtected(server: Server, scope: seq<Binding>, ps: seq<Projection>) {
    forall i :: 0 <= i < |ps| && ps[i].Item? && !ps[i].value.kind.Column? ==>
      Everywhere(ps[i].value, (k: Kind) => NamesNothingProtected(server, scope, k))
  }

  /** A select list with its columns in sight hides nothing. */
  lemma InSightHidesNothing(server: Server, scope: seq<Binding>, q: Query)
    requires ColumnsInSight(q)
    ensures HidesNothingProtected(server, scope, q.expressions)
  {
    forall i | 0 <= i < |q.expressions| && q.expressions[i].Item? && !q.expressions[i].value.kind.Column?
      ensures Everywhere(q.expressions[i].value, (k: Kind) => NamesNothingProtected(server, scope, k))
    {
      var e, free := q.expressions[i].value, (k: Kind) => !k.Column?;
      ColumnFreeEverywhere(e);
      EverywhereImplies(e, free, free, (k: Kind) => NamesNothingProtected(server, scope, k));
    }
  }

  ghost function HidesNothing(server: Server, scope: seq<Binding>): Projection -> bool {
    (p: Projection) => p.Item? && !p.value.kind.Column? ==>
      Everywhere(p.value, (k: Kind) => NamesNothingProtected(server, scope, k))
  }

  /** Analysis leaves what the select list hides as it was. */
  lemma HiddenStays(server: Server, scope: seq<Binding>, ps: seq<Projection>)
    requires ExpandStars(server.fold, scope, ps).Ok? && HidesNothingProtected(server, scope, ps)
    requires AnalyzeProjections(ColumnResolver(server.fold, scope), ExpandStars(server.fold, scope, ps).value, 0).Ok?
    ensures HidesNothingProtected(server, scope,
              AnalyzeProjections(ColumnResolver(server.fold, scope), ExpandStars(server.fold, scope, ps).value,
                                 0).value.items)
  {
    var f, qs := ColumnResolver(server.fold, scope), ExpandStars(server.fold, scope, ps).value;
    var items := AnalyzeProjections(f, qs, 0).value.items;
    ExpandedGood(server.fold, scope, ps, HidesNothing(server, scope));
    ProjectionsPointwise(f, qs, 0);
    forall i | 0 <= i < |items|
      ensures HidesNothing(server, scope)(items[i])
    {
      assert HidesNothing(server, scope)(qs[i]);
      assert AnalyzeItem(f, qs[i], i).value.item == items[i];
    }
    assert forall i :: 0 <= i < |items| ==> HidesNothing(server, scope)(items[i]);
  }

  lemma HiddenIsPublic(server: Server, c: Setting, q: Query)
    requires c.p == server.policy && HidesNothingProtected(server, c.scope, q.expressions)
    ensures HiddenPublic(c, q)
  {
    forall i | 0 <= i < |q.expressions| && q.expressions[i].Item? && !q.expressions[i].value.kind.Column?
      ensures Everywhere(q.expressions[i].value, (k: Kind) => ReadsPublic(c, k))
    {
      var before := (k: Kind) => NamesNothingProtected(server, c.scope, k);
      forall k: Kind | before(k) && k.Column?
        ensures ReadsPublic(c, k)
      {
        forall i: nat, j: nat | NamesOnly(Exact(), c.scope, k.table, k.name, i, j)
          ensures !Secret(c, i, j)
        {
          assert Names(server.fold, c.scope, k.table, k.name, i, j);
        }
      }
      EverywhereImplies(q.expressions[i].value, before, before, (k: Kind) => ReadsPublic(c, k));
    }
  }

  /** The analysed query hides nothing protected if the statement does not. */
  lemma AnalysisHidesNothing(server: Server, r: ResolvedQuery, c: Setting)
    requires AnalyzeStage(server, r).Ok? && c.p == server.policy && c.scope == ScopeOf(server, r)
    requires HidesNothingProtected(server, ScopeOf(server, r), r.query.expressions)
    ensures HiddenPublic(c, AnalyzeStage(server, r).value.query)
  {
    AnalyzeStages(server.fold, server.cross, server.limits, r.query, r.schemas);
    var scope := ScopeOf(server, r);
    var working := r.query.(expressions := ExpandStars(server.fold, scope, r.query.expressions).value);
    ClausesParts(ColumnResolver(server.fold, scope), OrderResolvers(server.fold, scope), working);
    HiddenStays(server, scope, r.query.expressions);
    HiddenIsPublic(server, c, AnalyzeStage(server, r).value.query);
  }

  /** What every accepted analysis and decision have. */
  lemma DecisionSound(server: Server, r: ResolvedQuery, a: AnalyzedQuery, d: PolicyDecision)
    requires NamedTables(r.schemas) && AnalyzeStage(server, r) == Ok(a) && PolicyStage(server, a) == Ok(d)
    ensures SitesExact(server.policy, a.query, d.sites) && d.protected == Flags(server.policy, a.outputs)
    ensures forall i :: 0 <= i < |a.references| && IsProtected(server.policy, a.references[i].source) ==>
              GuardedRef(a.query, a.references[i].node)
  {
    LineageIsCompleteAndSound(server.fold, server.cross, server.limits, r.query, r.schemas);
    AcceptedDecision(server.policy, a);
  }

  lemma AnalysisAccepted(server: Server, r: ResolvedQuery, a: AnalyzedQuery, d: PolicyDecision, codec: Codec,
                         eng: Engine)
    requires Grammatical(r.query) && NamedTables(r.schemas)
    requires AnalyzeStage(server, r) == Ok(a) && PolicyStage(server, a) == Ok(d)
    requires HidesNothingProtected(server, ScopeOf(server, r), r.query.expressions)
    ensures Accepted(SettingOf(server, ScopeOf(server, r), eng, codec, d.sites), a, d.sites)
  {
    AnalyzeStages(server.fold, server.cross, server.limits, r.query, r.schemas);
    LineageIsCompleteAndSound(server.fold, server.cross, server.limits, r.query, r.schemas);
    OutputsMatchItems(server.fold, server.cross, server.limits, r.query, r.schemas);
    DecisionSound(server, r, a, d);
    AnalyzedShape(server, r);
    AnalysisHidesNothing(server, r, SettingOf(server, ScopeOf(server, r), eng, codec, d.sites));
  }

  lemma AnalyzedShape(server: Server, r: ResolvedQuery)
    requires Grammatical(r.query) && AnalyzeStage(server, r).Ok?
    ensures var a, scope := AnalyzeStage(server, r).value, ScopeOf(server, r);
      && Meant(r.query) && Meant(a.query) && |scope| == TableCount(r.query) == TableCount(a.query)
      && a.query.limit == r.query.limit && Allowed(a.query, false)
  {
    var scope := ScopeOf(server, r);
    AnalyzeStages(server.fold, server.cross, server.limits, r.query, r.schemas);
    AnalyzedItemsPlain(server.fold, server.cross, server.limits, r.query, r.schemas);
    var working := r.query.(expressions := ExpandStars(server.fold, scope, r.query.expressions).value);
    ClausesParts(ColumnResolver(server.fold, scope), OrderResolvers(server.fold, scope), working);
    JoinsAnalyzed(ColumnResolver(server.fold, scope), working.joins);
    AnalysisIsMeant(server.fold, server.cross, server.limits, r.query, r.schemas);
  }

  // ----- From the caller's rows to the rows the driver returns

  /** The rows the database returns for the issued text and parameters. */
  ghost function DriverRows(server: Server, v: ValidatedQuery, scope: seq<Binding>, eng: Engine,
                            tables: seq<seq<Row>>): seq<Row>
    requires Meant(v.query) && |scope| == |tables| == TableCount(v.query)
  {
    var names, order := PlaceholderNames(v.query), server.generator(v.query).order;
    var binds := if |order| == |v.parameters| && forall i :: 0 <= i < |order| ==> order[i] < |names|
                 then DriverBinds(names, order, v.parameters, |order|) else map[];
    Meaning(Exact(), scope, eng, BoundConstants(binds), tables, v.query)
  }

  /** The rows the caller asked for: the statement as parsed, read with case folding, stars, labels and
      tokens, under its own limit. */
  ghost function CallerRows(server: Server, scope: seq<Binding>, q: Query, eng: Engine, tables: seq<seq<Row>>): seq<Row>
    requires Meant(q) && |scope| == |tables| == TableCount(q)
  {
    Meaning(server.fold, scope, eng, CallerConstants(server.policy.decrypt), tables, q)
  }

  /** The name a table is read through as the caller wrote it. */
  function WrittenName(t: TableRef): string {
    if t.alias != "" then t.alias else t.name
  }

  /** A query reads its tables through the bindings, whatever the nodes that name them say. */
  lemma TableNamesAreNotRead(fold: Fold, scope: seq<Binding>, eng: Engine, consts: Constants, tables: seq<seq<Row>>,
                             q: Query, q': Query)
    requires SameButTables(q, q') && Meant(q) && |scope| == |tables| == TableCount(q)
    ensures Meant(q') && TableCount(q') == TableCount(q)
    ensures Meaning(fold, scope, eng, consts, tables, q') == Meaning(fold, scope, eng, consts, tables, q)
  {
    var rel: RowRelation := (i: nat, a: Row, b: Row) => a == b;
    var p, p' := PlanOf(fold, scope, eng, consts, q), PlanOf(fold, scope, eng, consts, q');
    forall x, y | EnvRel(rel, x, y)
      ensures x == y
    {
    }
    AnswersAgree(rel, p, p', tables, tables, Widths(scope), (x, y) => x == y);
    assert Answer(p, tables, Widths(scope)) == Answer(p', tables, Widths(scope));
  }

  /** The bindings fold to the names the caller wrote, each for the one reflected table that its name
      and schema can mean. */
  ghost predicate AsWritten(fold: Fold, available: seq<TableName>, q: Query, scope: seq<Binding>) {
    && |scope| == |TableRefs(q)|
    && forall i :: 0 <= i < |scope| ==>
      fold(scope[i].name) == fold(WrittenName(TableRefs(q)[i]))
        && TableMeant(fold, available, TableRefs(q)[i], scope[i].table)
  }

  /** The tables of an accepted query are read as the caller wrote them. */
  lemma ScopeIsAsWritten(server: Server, catalog: Catalog, q: Query, r: ResolvedQuery)
    requires ResolveStage(server, catalog, q) == Ok(r) && AnalyzeStage(server, r).Ok?
    ensures SameButTables(q, r.query) && AsWritten(server.fold, catalog.tables, q, ScopeOf(server, r))
  {
    TablesResolved(server.fold, server.dialect.hasSchema, catalog.tables, catalog.columns, q);
    ScopeIsCollected(server, r);
    BindingsAsWritten(server.fold, catalog.tables, q, r, ScopeOf(server, r));
  }

  lemma ScopeIsCollected(server: Server, r: ResolvedQuery)
    requires AnalyzeStage(server, r).Ok?
    ensures Collected(r, ScopeOf(server, r))
  {
    AnalyzeStages(server.fold, server.cross, server.limits, r.query, r.schemas);
    CollectPairs(server.fold, r.query, r.schemas);
  }

  ghost predicate Collected(r: ResolvedQuery, scope: seq<Binding>) {
    && |scope| == |TableRefs(r.query)| == |r.schemas|
    && forall i :: 0 <= i < |scope| ==>
       scope[i] == Binding(BindingName(TableRefs(r.query)[i], r.schemas[i]), r.schemas[i])
  }

  lemma BindingsAsWritten(fold: Fold, available: seq<TableName>, q: Query, r: ResolvedQuery, scope: seq<Binding>)
    requires Collected(r, scope) && TablesPaired(fold, available, q, r)
    ensures AsWritten(fold, available, q, scope)
  {
    forall i | 0 <= i < |scope|
      ensures fold(scope[i].name) == fold(WrittenName(TableRefs(q)[i]))
          && TableMeant(fold, available, TableRefs(q)[i], scope[i].table)
    {
      assert TableMeant(fold, available, TableRefs(q)[i], r.schemas[i]);
      var k: nat :| NamesTable(fold, available, TableRefs(q)[i], k)
        && available[k] == (r.schemas[i].schema, r.schemas[i].name);
    }
  }

  lemma TakeLess<T>(s: seq<T>, top: Option<nat>, n: nat)
    ensures Take(Take(s, top), Some(n)) == Take(s, Some(if top.Some? && top.value < n then top.value else n))
  {
  }

  /** What is asked of the surroundings: a marker nonce as `token_hex` makes it, a generator that
      delimits its markers, and the codec behind the policy. */
  ghost predicate Surroundings(server: Server, v: ValidatedQuery, codec: Codec, nonce: string) {
    && server.policy.decrypt == DecryptWith(codec)
    && IsNonceText(nonce) && SafeBind(server.dialect)
    && AllDelimit(nonce, server.generator(v.query).texts)
  }

  lemma IssuedParts(server: Server, a: AnalyzedQuery, d: PolicyDecision, maxRows: int, nonce: string)
    requires IssueStage(server, a, d, maxRows, nonce).Ok?
    ensures var v, bound := IssueStage(server, a, d, maxRows, nonce).value, BindTokens(a.query, d.sites);
            var parameters := BindParameters(d.sites, |d.sites|);
      && maxRows >= 1 && v.maxRows == maxRows
      && v.query == CapRows(bound, maxRows) && PlaceholderNames(v.query) == PlaceholderNames(bound)
      && |a.outputs| == |d.protected| && v.outputs == Plans(a.outputs, d.protected)
      && var names, r := PlaceholderNames(bound), server.generator(v.query);
        && Rendered(r, |names|) && AllBound(names, parameters)
        && ToPositional(nonce, r, names, parameters, server.dialect) == Ok((v.sql, v.parameters))
  {
  }

  /** The rows the driver returns are the rows of the analysed query, one more than the cap. */
  lemma IssuedRows(server: Server, scope: seq<Binding>, a: AnalyzedQuery, d: PolicyDecision, maxRows: int,
                   nonce: string, codec: Codec, eng: Engine, tables: seq<seq<Row>>)
    requires IssueStage(server, a, d, maxRows, nonce).Ok?
    requires Surroundings(server, IssueStage(server, a, d, maxRows, nonce).value, codec, nonce)
    requires SitesExact(server.policy, a.query, d.sites) && Allowed(a.query, false)
    requires Meant(a.query) && |scope| == TableCount(a.query) && Populated(scope, tables)
    ensures var v := IssueStage(server, a, d, maxRows, nonce).value;
      && maxRows >= 1 && v.maxRows == maxRows
      && Meant(v.query) && |scope| == TableCount(v.query)
      && DriverRows(server, v, scope, eng, tables)
         == Take(Meaning(Exact(), scope, eng, CallerConstants(server.policy.decrypt), tables, a.query),
                 Some(maxRows + 1))
  {
    var v := IssueStage(server, a, d, maxRows, nonce).value;
    var parameters, bound := BindParameters(d.sites, |d.sites|), BindTokens(a.query, d.sites);
    IssuedParts(server, a, d, maxRows, nonce);
    AllowedHasNoPlaceholders(a.query);
    BindingPreservesMeaning(server.policy, a.query, d.sites, Exact(), scope, eng, tables);
    DriverBindsAreParameters(server.policy, a.query, d.sites, nonce, server.generator(v.query), server.dialect);
    CappedRows(scope, eng, BoundConstants(parameters), tables, bound, maxRows);
  }

  /** The cap keeps one row more than the maximum of the rows of the uncapped query. */
  lemma CappedRows(scope: seq<Binding>, eng: Engine, consts: Constants, tables: seq<seq<Row>>, q: Query, maxRows: nat)
    requires |scope| == |tables| == TableCount(q) && Meant(q)
    ensures Meaning(Exact(), scope, eng, consts, tables, CapRows(q, maxRows))
         == Take(Meaning(Exact(), scope, eng, consts, tables, q), Some(maxRows + 1))
  {
    var capped := CapRows(q, maxRows);
    LimitTakes(Exact(), scope, eng, consts, tables, q);
    LimitTakes(Exact(), scope, eng, consts, tables, capped);
    assert capped.(limit := None) == q.(limit := None);
    TakeLess(Meaning(Exact(), scope, eng, consts, tables, q.(limit := None)), Top(q), maxRows + 1);
  }

  /** What acceptance gives about the products of the stages. */
  lemma RunSettled(server: Server, catalog: Catalog, q: Query, maxRows: int, nonce: string, run: Run)
    requires IsRun(server, catalog, q, maxRows, nonce, run) && Plausible(server, catalog, q)
    ensures SitesExact(server.policy, run.analyzed.query, run.decision.sites)
    ensures run.decision.protected == Flags(server.policy, run.analyzed.outputs)
    ensures Meant(run.resolved.query) && Meant(run.analyzed.query) && Allowed(run.analyzed.query, false)
    ensures |run.scope| == TableCount(run.resolved.query) == TableCount(run.analyzed.query)
  {
    ResolvedPlausible(server, catalog, q);
    AnalyzedShape(server, run.resolved);
    DecisionSound(server, run.resolved, run.analyzed, run.decision);
  }

  lemma RunAccepted(server: Server, catalog: Catalog, q: Query, maxRows: int, nonce: string, run: Run, codec: Codec,
                    eng: Engine)
    requires IsRun(server, catalog, q, maxRows, nonce, run) && Plausible(server, catalog, q)
    requires HidesNothingProtected(server, run.scope, q.expressions)
    ensures Accepted(SettingOf(server, run.scope, eng, codec, run.decision.sites), run.analyzed, run.decision.sites)
  {
    ResolvedPlausible(server, catalog, q);
    AnalysisAccepted(server, run.resolved, run.analyzed, run.decision, codec, eng);
  }

  lemma CallerRowsAreAnalyzedRows(server: Server, catalog: Catalog, q: Query, maxRows: int, nonce: string, run: Run,
                                  eng: Engine, tables: seq<seq<Row>>)
    requires IsRun(server, catalog, q, maxRows, nonce, run) && Plausible(server, catalog, q)
    requires ClearQuery(server.fold, run.scope, q) && Populated(run.scope, tables)
    ensures Meant(q) && Meant(run.analyzed.query)
    ensures |run.scope| == TableCount(q) == TableCount(run.analyzed.query)
    ensures CallerRows(server, run.scope, q, eng, tables)
         == Meaning(Exact(), run.scope, eng, CallerConstants(server.policy.decrypt), tables, run.analyzed.query)
  {
    ResolvedPlausible(server, catalog, q);
    ScopeIsAsWritten(server, catalog, q, run.resolved);
    ClearStays(server.fold, run.scope, q, run.resolved.query);
    ResolvedMeaningKept(server, run.resolved, eng, tables);
    SameTableCount(q, run.resolved.query);
    TableNamesAreNotRead(server.fold, run.scope, eng, CallerConstants(server.policy.decrypt), tables, q,
                         run.resolved.query);
  }

  lemma SameTableCount(q: Query, q': Query)
    requires SameButTables(q, q')
    ensures TableCount(q') == TableCount(q) && (Meant(q') <==> Meant(q))
  {
    forall j | 0 <= j < |q.joins|
      ensures JoinMeant(q'.joins[j]) <==> JoinMeant(q.joins[j])
    {
      assert q'.joins[j] == q.joins[j].(table := q'.joins[j].table);
    }
  }

  lemma ClearStays(fold: Fold, scope: seq<Binding>, q: Query, q': Query)
    requires SameButTables(q, q') && ClearQuery(fold, scope, q)
    ensures ClearQuery(fold, scope, q')
  {
    assert q'.expressions == q.expressions && q'.where_ == q.where_ && q'.order == q.order;
  }

  lemma ResolvedMeaningKept(server: Server, r: ResolvedQuery, eng: Engine, tables: seq<seq<Row>>)
    requires Grammatical(r.query) && NamedTables(r.schemas) && AnalyzeStage(server, r).Ok?
    requires ClearQuery(server.fold, ScopeOf(server, r), r.query) && Populated(ScopeOf(server, r), tables)
    ensures Meant(r.query) && Meant(AnalyzeStage(server, r).value.query)
    ensures var a, scope := AnalyzeStage(server, r).value, ScopeOf(server, r);
      && |scope| == TableCount(r.query) == TableCount(a.query)
      && Meaning(server.fold, scope, eng, CallerConstants(server.policy.decrypt), tables, r.query)
         == Meaning(Exact(), scope, eng, CallerConstants(server.policy.decrypt), tables, a.query)
  {
    AnalyzedShape(server, r);
    AnalyzeStages(server.fold, server.cross, server.limits, r.query, r.schemas);
    AnalysisPreservesMeaning(server.fold, server.cross, server.limits, r.query, r.schemas, eng,
                             CallerConstants(server.policy.decrypt), tables);
  }

  /** The executor turns the first `maxRows + 1` of `rows` into an answer that shows `rows`. */
  lemma AnswerShows(codec: Codec, plans: seq<OutputPlan>, maxRows: nat, nonces: Nonces, rows: seq<Row>)
    requires Ideal(codec.lib) && GoodNonces(nonces)
    ensures Shows(codec, plans, maxRows, rows,
                  Execute(codec, plans, maxRows, nonces, |plans|, Take(rows, Some(maxRows + 1))))
  {
    var available := Take(rows, Some(maxRows + 1));
    var answer := Execute(codec, plans, maxRows, nonces, |plans|, available);
    if answer.Ok? {
      var r, kept := answer.value, KeptRows(available, maxRows);
      AnswerShowsRows(codec, plans, maxRows, nonces, available);
      KeptOfTaken(rows, maxRows);
      forall i: nat, j: nat | i < |r.rows| && j < |plans|
        ensures ShowsAt(codec, rows, r, i, j)
      {
        AnswerCell(codec, plans, maxRows, nonces, available, i, j);
        assert kept[i] == rows[i];
      }
    }
  }

  lemma KeptOfTaken(rows: seq<Row>, maxRows: nat)
    ensures var kept := KeptRows(Take(rows, Some(maxRows + 1)), maxRows);
      && |kept| == (if |rows| <= maxRows then |rows| else maxRows)
      && (forall i :: 0 <= i < |kept| ==> kept[i] == rows[i])
      && (|Take(rows, Some(maxRows + 1))| > maxRows <==> |rows| > maxRows)
  {
  }

  /** The cell of the answer at row `i` and column `j` shows the cell of `rows` at its place. */
  ghost predicate ShowsAt(codec: Codec, rows: seq<Row>, r: ExecutionResult, i: nat, j: nat) {
    && i < |rows| && i < |r.rows| && |rows[i]| == |r.rows[i]| == |r.columns| && j < |r.columns|
    && CellShows(codec, r.columns[j], rows[i][j], r.rows[i][j])
  }

  /** The answer, if there is one, holds exactly the first `maxRows` of `rows`, in order; it is marked
      truncated iff there are more; and every cell shows the cell of `rows` at its place. */
  ghost predicate Shows(codec: Codec, plans: seq<OutputPlan>, maxRows: nat, rows: seq<Row>,
                        answer: Result<ExecutionResult>) {
    answer.Ok? ==>
      && |answer.value.rows| == (if |rows| <= maxRows then |rows| else maxRows)
      && |answer.value.columns| == |plans|
      && (answer.value.truncated <==> |rows| > maxRows)
      && forall i: nat, j: nat :: i < |answer.value.rows| && j < |plans| ==> ShowsAt(codec, rows, answer.value, i, j)
  }

  /** MAIN RESULT. The answer to an accepted query holds exactly the first `maxRows` of the rows the
      caller asked for, in order, with protected cells replaced by tokens that decrypt to them, and it
      is marked truncated iff there are more. */
  lemma EndToEndRefinement(server: Server, catalog: Catalog, q: Query, maxRows: int, nonce: string, run: Run,
                           codec: Codec, nonces: Nonces, eng: Engine, tables: seq<seq<Row>>)
    requires IsRun(server, catalog, q, maxRows, nonce, run) && Plausible(server, catalog, q)
    requires Surroundings(server, run.issued, codec, nonce)
    requires ClearQuery(server.fold, run.scope, q) && Populated(run.scope, tables)
    requires Ideal(codec.lib) && GoodNonces(nonces)
    ensures 1 <= maxRows <= server.hardMaxRows
    ensures Meant(q) && Meant(run.issued.query) && |run.scope| == TableCount(q) == TableCount(run.issued.query)
    ensures Shows(codec, run.issued.outputs, maxRows, CallerRows(server, run.scope, q, eng, tables),
               Execute(codec, run.issued.outputs, maxRows, nonces, |run.issued.outputs|,
                       DriverRows(server, run.issued, run.scope, eng, tables)))
  {
    RunSettled(server, catalog, q, maxRows, nonce, run);
    IssuedRows(server, run.scope, run.analyzed, run.decision, maxRows, nonce, codec, eng, tables);
    CallerRowsAreAnalyzedRows(server, catalog, q, maxRows, nonce, run, eng, tables);
    AnswerShows(codec, run.issued.outputs, maxRows, nonces, CallerRows(server, run.scope, q, eng, tables));
  }

  /** The number of rows asked for is refused exactly where it is no number or over the hard limit, and
      before anything else. */
  lemma RowCountExactly(a: AnalyzedQuery, d: PolicyDecision, maxRows: int, hardMaxRows: nat, limits: Limits,
                        nonce: string, generator: Generator, dialect: Dialect)
    ensures var issued := IssueQuery(a, d, maxRows, hardMaxRows, limits, nonce, generator, dialect);
      && (issued == Rejected(RowCountInvalid) <==> maxRows < 1)
      && (issued == Rejected(RowCountTooLarge) <==> 1 <= maxRows && maxRows > hardMaxRows)
      && (issued.Ok? ==> 1 <= maxRows <= hardMaxRows && issued.value.maxRows == maxRows)
  {
    if 1 <= maxRows <= hardMaxRows {
      var q, parameters := CapRows(BindTokens(a.query, d.sites), maxRows), BindParameters(d.sites, |d.sites|);
      GenerationReason(q, parameters, nonce, generator, dialect);
    }
  }

  lemma GenerationReason(q: Query, parameters: map<string, Value>, nonce: string, generator: Generator,
                         dialect: Dialect)
    ensures var generated := Generate(q, parameters, nonce, generator, dialect);
      generated.Rejected? ==> generated.reason == BindUnsafe
  {
  }

  /** What is sent keeps to the limits of the server. */
  ghost predicate WithinBounds(server: Server, v: ValidatedQuery) {
    && 1 <= v.maxRows <= server.hardMaxRows
    && (exists n: nat :: n <= v.maxRows + 1 && v.query.limit == Some(Rows(n)))
    && NodeCount(v.query) <= server.limits.maxNodes && |v.query.joins| <= server.limits.maxJoins
    && InLists(v.query, server.limits.maxInItems)
    && !Contains(v.sql, PREFIX)
  }

  /** MAIN RESULT. Whatever statement was accepted, what is issued is a sentence of the grammar, within
      every limit of the server, and its text holds no token. */
  lemma IssuedIsASentence(server: Server, catalog: Catalog, q: Query, maxRows: int, nonce: string)
    requires ValidateSql(server, catalog, q, maxRows, nonce).Ok?
    ensures var v := ValidateSql(server, catalog, q, maxRows, nonce).value;
      Grammar.IsSentence(v.query, true) && WithinBounds(server, v) && v.maxRows == maxRows
  {
    var v := ValidateSql(server, catalog, q, maxRows, nonce).value;
    RunsAreAcceptances(server, catalog, q, maxRows, nonce);
    var run :| IsRun(server, catalog, q, maxRows, nonce, run);
    IssuedWithin(server, run.analyzed, run.decision, maxRows, nonce);
    Grammar.AllowedExactly(v.query, true);
  }

  lemma IssuedWithin(server: Server, a: AnalyzedQuery, d: PolicyDecision, maxRows: int, nonce: string)
    requires IssueStage(server, a, d, maxRows, nonce).Ok?
    ensures var v := IssueStage(server, a, d, maxRows, nonce).value;
      WithinBounds(server, v) && v.maxRows == maxRows && Allowed(v.query, true)
  {
    var v := IssueStage(server, a, d, maxRows, nonce).value;
    assert v.query.limit == Some(Rows(v.query.limit.value.count)) && v.query.limit.value.count <= maxRows + 1;
  }

  // ----- Two databases

  /** The tables of the query hold indistinguishable rows. */
  ghost predicate TablesIndistinct(c: Setting, ts: seq<seq<Row>>, us: seq<seq<Row>>) {
    |ts| == |c.scope| && TablesRel(LowRel(c), ts, us)
  }

  lemma TablesPopulated(c: Setting, ts: seq<seq<Row>>, us: seq<seq<Row>>)
    requires TablesIndistinct(c, ts, us)
    ensures Populated(c.scope, ts) && Populated(c.scope, us)
  {
    forall i: nat, k: nat | i < |ts| && k < |ts[i]|
      ensures |ts[i][k]| == |us[i][k]| == |c.scope[i].table.columns|
    {
      assert LowRel(c)(i, ts[i][k], us[i][k]);
    }
  }

  lemma TakenAlike(codec: Codec, plans: seq<OutputPlan>, maxRows: nat, ns: Nonces, ms: Nonces, vs: seq<Row>,
                   ws: seq<Row>)
    requires IdealCipher(codec.lib) && GoodNonces(ns) && GoodNonces(ms)
    requires AnswersRel(LowOut(codec, PlanFlags(plans)), vs, ws)
    ensures AnswersAlike(Execute(codec, plans, maxRows, ns, |plans|, Take(vs, Some(maxRows + 1))),
                         Execute(codec, plans, maxRows, ms, |plans|, Take(ws, Some(maxRows + 1))))
  {
    ExecutionsAlike(codec, plans, maxRows, ns, ms, Take(vs, Some(maxRows + 1)), Take(ws, Some(maxRows + 1)));
  }

  lemma PlanFlagsAre(policy: PiiPolicy, outputs: seq<OutputColumn>, protected: seq<bool>)
    requires |outputs| == |protected| && protected == Flags(policy, outputs)
    ensures PlanFlags(Plans(outputs, protected)) == Flags(policy, outputs)
  {
  }

  lemma IssuedAlike(server: Server, scope: seq<Binding>, a: AnalyzedQuery, d: PolicyDecision, maxRows: int,
                    nonce: string, codec: Codec, eng: Engine,
                    ns: Nonces, ms: Nonces, ts: seq<seq<Row>>, us: seq<seq<Row>>)
    requires IssueStage(server, a, d, maxRows, nonce).Ok?
    requires Surroundings(server, IssueStage(server, a, d, maxRows, nonce).value, codec, nonce)
    requires Accepted(SettingOf(server, scope, eng, codec, d.sites), a, d.sites)
    requires SitesExact(server.policy, a.query, d.sites) && d.protected == Flags(server.policy, a.outputs)
    requires Meant(a.query) && |scope| == TableCount(a.query) && Allowed(a.query, false)
    requires IdealCipher(codec.lib) && GoodNonces(ns) && GoodNonces(ms)
    requires TablesIndistinct(SettingOf(server, scope, eng, codec, d.sites), ts, us)
    ensures var v := IssueStage(server, a, d, maxRows, nonce).value;
      && Meant(v.query) && |scope| == TableCount(v.query)
      && AnswersAlike(Execute(codec, v.outputs, maxRows, ns, |v.outputs|, DriverRows(server, v, scope, eng, ts)),
                      Execute(codec, v.outputs, maxRows, ms, |v.outputs|, DriverRows(server, v, scope, eng, us)))
  {
    var v := IssueStage(server, a, d, maxRows, nonce).value;
    var c := SettingOf(server, scope, eng, codec, d.sites);
    TablesPopulated(c, ts, us);
    IssuedParts(server, a, d, maxRows, nonce);
    IssuedRows(server, scope, a, d, maxRows, nonce, codec, eng, ts);
    IssuedRows(server, scope, a, d, maxRows, nonce, codec, eng, us);
    MeaningsAlike(c, a, d.sites, ts, us);
    PlanFlagsAre(server.policy, a.outputs, d.protected);
    TakenAlike(codec, v.outputs, maxRows, ns, ms,
               Meaning(Exact(), scope, eng, CallerConstants(server.policy.decrypt), ts, a.query),
               Meaning(Exact(), scope, eng, CallerConstants(server.policy.decrypt), us, a.query));
  }

  /** MAIN RESULT. On two databases that differ only in protected cells, where NULLs agree, both cells
      can be tokenised and both compare alike with the values the query binds, an accepted query whose
      select list hides no protected column inside an expression gives the same refusal, or the same
      columns, encodings, truncation and rows but for the tokens in protected cells; whatever the nonces. */
  lemma TwoRunIndistinguishability(server: Server, catalog: Catalog, q: Query, maxRows: int, nonce: string,
                                   run: Run, codec: Codec, eng: Engine,
                                   ns: Nonces, ms: Nonces, ts: seq<seq<Row>>, us: seq<seq<Row>>)
    requires IsRun(server, catalog, q, maxRows, nonce, run) && Plausible(server, catalog, q)
    requires HidesNothingProtected(server, run.scope, q.expressions)
    requires Surroundings(server, run.issued, codec, nonce)
    requires IdealCipher(codec.lib) && GoodNonces(ns) && GoodNonces(ms)
    requires TablesIndistinct(SettingOf(server, run.scope, eng, codec, run.decision.sites), ts, us)
    ensures Meant(run.issued.query) && |run.scope| == TableCount(run.issued.query)
    ensures var plans := run.issued.outputs;
      AnswersAlike(Execute(codec, plans, maxRows, ns, |plans|, DriverRows(server, run.issued, run.scope, eng, ts)),
                   Execute(codec, plans, maxRows, ms, |plans|, DriverRows(server, run.issued, run.scope, eng, us)))
  {
    RunSettled(server, catalog, q, maxRows, nonce, run);
    RunAccepted(server, catalog, q, maxRows, nonce, run, codec, eng);
    IssuedAlike(server, run.scope, run.analyzed, run.decision, maxRows, nonce, codec, eng, ns, ms, ts, us);
  }
}
