/** A protected column inside an aliased expression: `SELECT (ssn) AS x FROM t`. The allowlist does not
    look below the alias, so the analysis records no reference, the policy sees nothing to protect and
    the answer tells the protected cells of two databases apart. */
module HiddenColumn {
  import opened Outcomes
  import opened Ast
  import opened Scope
  import opened Sequences
  import opened Values
  import opened Tokens
  import opened Allowlist
  import opened Schema
  import opened Lineage
  import opened LineageComplete
  import opened Policy
  import opened PolicyFacts
  import opened Semantics
  import opened BindText
  import opened Issue
  import opened BindMeaning
  import opened LimitsKept
  import opened Executor
  import opened Noninterference
  import opened Pipeline
  import opened Example

  function Hidden(): Expr {
    Node(Paren, [Leaf(Column("", "ssn"))])
  }

  function HiddenItems(): seq<Projection> {
    [Item(Hidden(), "x")]
  }

  function HiddenStatement(): Query {
    Query(HiddenItems(), Some(TableRef(true, "", "", "t", "")), [], None, [], None, [])
  }

  function HiddenResolved(limit: Option<Limit>): Query {
    Query(HiddenItems(), Some(TableRef(true, "", "dbo", "t", "")), [], None, [], limit, [])
  }

  // ----- It passes every check

  lemma HiddenIsSmall()
    ensures ExprCount(Hidden()) == 3 && Total(HiddenItems(), ProjectionCount) == 5
    ensures AllowedExpr(Hidden(), false) && AllowedExpr(Hidden(), true) && InListsFit(Hidden(), 10)
        && !HasCount(Hidden())
  {
    var column := Leaf(Column("", "ssn"));
    CountLeaf(Column("", "ssn"));
    assert Hidden().kids[1..] == [];
    assert ExprCounts(Hidden().kids) == ExprCount(column) + ExprCounts([]);
    assert HiddenItems()[1..] == [];
    assert AllowedExpr(column, false) && AllowedExpr(column, true) && InListsFit(column, 10) && !HasCount(column);
  }

  lemma HiddenPasses(db: string, limit: Option<Limit>, binds: bool)
    requires limit.Some? ==> limit.value.Rows?
    ensures var q := Query(HiddenItems(), Some(TableRef(true, "", db, "t", "")), [], None, [], limit, []);
      CheckLimits(q, TheServer().limits) == Ok(()) && ValidateAllowlist(q, binds) == Ok(())
  {
    var q := Query(HiddenItems(), Some(TableRef(true, "", db, "t", "")), [], None, [], limit, []);
    HiddenIsSmall();
    assert NodeCount(q) <= 100;
    assert EveryExpr(q, FitIn(10));
    assert EveryExpr(q, e => InListsFit(e, 10));
    assert EveryExpr(q, AllowedIn(binds));
    assert EveryExpr(q, e => AllowedExpr(e, binds));
  }

  function HiddenOutputs(): seq<OutputColumn> {
    [OutputColumn("x", LiteralOutput, None, None)]
  }

  function HiddenAnalysis(): AnalyzedQuery {
    AnalyzedQuery(HiddenResolved(None), HiddenOutputs(), [])
  }

  lemma HiddenClauses(f: Resolver, g: seq<OutputColumn> -> Resolver)
    ensures AnalyzeClauses(f, g, HiddenResolved(None)) == Ok(HiddenAnalysis())
  {
    var ps := HiddenItems();
    assert AnalyzeItem(f, ps[0], 0) == Ok(ItemAnalysis(ps[0], HiddenOutputs()[0], []));
    assert AnalyzeProjections(f, ps, 1) == Ok(Projected([], [], []));
    assert [ps[0]] + [] == ps && [HiddenOutputs()[0]] + [] == HiddenOutputs();
    var none: seq<ColumnRef> := [];
    assert none + none == none;
    assert AnalyzeProjections(f, ps, 0) == Ok(Projected(ps, HiddenOutputs(), none));
    assert AnalyzeJoins(f, [], 0) == Ok(Edited([], none))
      && AnalyzeOrder(g(HiddenOutputs()), [], 0) == Ok(Edited([], none));
  }

  lemma HiddenAnalyzed()
    ensures AnalyzeStage(TheServer(), ResolvedQuery(HiddenResolved(None), [TheTable()])) == Ok(HiddenAnalysis())
    ensures ScopeOf(TheServer(), ResolvedQuery(HiddenResolved(None), [TheTable()])) == [TheBinding()]
  {
    var scope := [TheBinding()];
    ScopeCollected(HiddenResolved(None));
    var ps := HiddenItems();
    assert ExpandStars(Exact(), scope, []) == Ok([]) && ps[1..] == [] && [ps[0]] + [] == ps;
    assert ExpandStars(Exact(), scope, ps) == Ok(ps);
    HiddenClauses(ColumnResolver(Exact(), scope), OrderResolvers(Exact(), scope));
    HiddenPasses("dbo", None, false);
  }

  function HiddenDecision(): PolicyDecision {
    PolicyDecision([false], [])
  }

  lemma HiddenHasNoToken(position: Position)
    ensures !TokenOf(HiddenResolved(None), position)
  {
    HiddenAt(position.path);
  }

  lemma HiddenAt(path: Path)
    ensures At(Hidden(), path).Some? ==> !IsToken(At(Hidden(), path).value.kind)
  {
    if path != [] && path[0] == 0 {
      assert At(Hidden(), path) == At(Leaf(Column("", "ssn")), path[1..]);
    }
  }

  lemma HiddenDecided()
    ensures PolicyStage(TheServer(), HiddenAnalysis()) == Ok(HiddenDecision())
  {
    var q := HiddenResolved(None);
    var tokens := TokensOf(q, Parts(q));
    TokensOfParts(q, Parts(q));
    forall position {
      HiddenHasNoToken(position);
    }
    NoMembers(tokens, {});
    assert Flags(ThePolicy(), HiddenOutputs()) == [false];
  }

  lemma NoMembers<T>(s: seq<T>, members: set<T>)
    requires forall x :: x in s ==> x in members
    ensures members == {} ==> s == []
  {
    if s != [] {
      var x := s[0];
      assert x in s && x in members;
    }
  }

  // ----- It is issued

  lemma HiddenText(nonce: string, parameters: map<string, Value>)
    requires IsNonceText(nonce)
    ensures Rendered(NoBinds(), 0) && AllBound([], parameters)
    ensures var text := ToPositional(nonce, NoBinds(), [], parameters, SQLSERVER);
      text.Ok? && text.value.1 == [] && !Contains(text.value.0, PREFIX)
  {
    var texts := NoBinds().texts;
    ShortTextHasNoMarker(nonce, texts[0]);
    assert texts[1..] == [] && Stray(nonce, texts) == |FindAll(nonce, texts[0])| + Stray(nonce, []);
    BindSubstitutionIsSimultaneous(nonce, NoBinds(), [], parameters, SQLSERVER);
    var sql := ToPositional(nonce, NoBinds(), [], parameters, SQLSERVER).value.0;
    assert Binds("?", 0) == [] && sql == "SELECT";
  }

  lemma HiddenIssuedWith(nonce: string)
    requires IsNonceText(nonce)
    ensures var v := IssueStage(TheServer(), HiddenAnalysis(), HiddenDecision(), 10, nonce);
      && v.Ok? && v.value.query == HiddenResolved(Some(Rows(11))) && v.value.parameters == []
      && v.value.outputs == [OutputPlan("x", LiteralOutput, None, false)]
  {
    HiddenPasses("dbo", Some(Rows(11)), true);
    HiddenText(nonce, map[]);
    assert Plans(HiddenOutputs(), [false]) == [OutputPlan("x", LiteralOutput, None, false)];
  }

  function HiddenRun(): Run
    requires IssueStage(TheServer(), HiddenAnalysis(), HiddenDecision(), 10, TheNonce()).Ok?
  {
    Run(ResolvedQuery(HiddenResolved(None), [TheTable()]), [TheBinding()], HiddenAnalysis(), HiddenDecision(),
        IssueStage(TheServer(), HiddenAnalysis(), HiddenDecision(), 10, TheNonce()).value)
  }

  lemma HiddenResolves()
    ensures ResolveStage(TheServer(), TheCatalog(), HiddenStatement())
      == Ok(ResolvedQuery(HiddenResolved(None), [TheTable()]))
    ensures Plausible(TheServer(), TheCatalog(), HiddenStatement())
  {
    HiddenPasses("", None, false);
    TableResolves(HiddenStatement());
  }

  lemma HiddenRuns()
    ensures IssueStage(TheServer(), HiddenAnalysis(), HiddenDecision(), 10, TheNonce()).Ok?
    ensures IsRun(TheServer(), TheCatalog(), HiddenStatement(), 10, TheNonce(), HiddenRun())
    ensures Plausible(TheServer(), TheCatalog(), HiddenStatement())
  {
    NonceIsHex();
    HiddenIssuedWith(TheNonce());
    HiddenResolves();
    HiddenAnalyzed();
    HiddenDecided();
  }

  // ----- It tells two databases apart

  /** One row, whose protected cell is the secret. */
  function OneRow(secret: bool): seq<seq<Row>> {
    [[[Int(1), Bool(secret)]]]
  }

  lemma OneRowsAlike()
    ensures TablesIndistinct(SettingOf(TheServer(), [TheBinding()], TheEngine(), TheCodec(), []), OneRow(true),
                             OneRow(false))
  {
    var c := SettingOf(TheServer(), [TheBinding()], TheEngine(), TheCodec(), []);
    assert c.values == {};
    SecretIsTokenisable(true);
    SecretIsTokenisable(false);
    RuleCovers();
    assert Secret(c, 0, 1) && !Secret(c, 0, 0);
    assert LowRel(c)(0, OneRow(true)[0][0], OneRow(false)[0][0]);
  }

  /** The plan of a query of one table without conditions, on one row. */
  lemma OneRowAnswered(plan: Plan, row: Row, widths: seq<nat>)
    requires plan.joins == [] && plan.keep([row]) && !plan.counting && plan.top == Some(11)
    ensures Answer(plan, [[row]], widths) == [plan.row([row], 1)]
  {
    OneRowSelected(plan, row);
    assert Output(plan, [[row]], widths) == [plan.row([row], 1)];
  }

  lemma OneRowSelected(plan: Plan, row: Row)
    requires plan.joins == [] && plan.keep([row])
    ensures Selected(plan, [[row]]) == [[row]]
  {
    assert Joined(plan, [[row]], 0) == [[row]];
    assert Kept([[row]], plan.keep) == [[row]];
    assert [[row]][..0] == [];
    assert Sorted([[row]], plan) == Insert([row], Sorted([], plan), plan);
  }

  lemma HiddenValue(secret: bool, count: Value)
    ensures var env, scope := [OneRow(secret)[0][0]], [TheBinding()];
      Eval(TheEngine(), ReadingOf(Exact(), scope, BoundConstants(map[]), env, count), Hidden()) == Bool(secret)
  {
    var env, scope := [OneRow(secret)[0][0]], [TheBinding()];
    assert InScope(scope, env) == scope;
    assert NamesOnly(Exact(), scope, "", "ssn", 0, 1);
    var r := ReadingOf(Exact(), scope, BoundConstants(map[]), env, count);
    assert Eval(TheEngine(), r, Leaf(Column("", "ssn"))) == Bool(secret);
  }

  lemma HiddenRows(secret: bool)
    ensures Meaning(Exact(), [TheBinding()], TheEngine(), BoundConstants(map[]), OneRow(secret),
                    HiddenResolved(Some(Rows(11)))) == [[Bool(secret)]]
  {
    var scope, q, row := [TheBinding()], HiddenResolved(Some(Rows(11))), OneRow(secret)[0][0];
    var plan := PlanOf(Exact(), scope, TheEngine(), BoundConstants(map[]), q);
    HiddenIsSmall();
    OneRowAnswered(plan, row, Widths(scope));
    assert OneRow(secret) == [[row]];
    HiddenValue(secret, Int(1));
    assert HiddenItems()[1..] == [];
    assert plan.row([row], 1) == [Bool(secret)];
  }

  lemma HiddenDriverRows(v: ValidatedQuery, secret: bool)
    requires v.query == HiddenResolved(Some(Rows(11))) && v.parameters == []
    ensures DriverRows(TheServer(), v, [TheBinding()], TheEngine(), OneRow(secret)) == [[Bool(secret)]]
  {
    HiddenRows(secret);
  }

  /** The raw cell is shown. */
  lemma HiddenShown(nonces: Nonces, secret: bool)
    ensures var plans := [OutputPlan("x", LiteralOutput, None, false)];
      var answer := Execute(TheCodec(), plans, 10, nonces, 1, [[Bool(secret)]]);
      answer.Ok? && answer.value.rows == [[Plain(Bool(secret))]] && PlansOf(answer.value.columns) == plans
  {
    var plans, raw := [OutputPlan("x", LiteralOutput, None, false)], [Bool(secret)];
    var cell := Plain(Bool(secret));
    assert RunCell(TheCodec(), plans[0], nonces(0, 0), raw[0], None) == Ok((cell, Some(InJson)));
    var seen := Unseen(1);
    assert RunRow(TheCodec(), plans, RowNonces(nonces, 0), raw, seen[0 := Some(InJson)], 1)
      == Ok(([], seen[0 := Some(InJson)]));
    assert [cell] + [] == [cell];
    assert RunRow(TheCodec(), plans, RowNonces(nonces, 0), raw, seen, 0) == Ok(([cell], seen[0 := Some(InJson)]));
    assert [[cell]] + [] == [[cell]];
    assert RunRows(TheCodec(), plans, nonces, [raw], seen, 0) == Ok(([[cell]], seen[0 := Some(InJson)]));
  }

  lemma ShownCellsDiffer(a: Result<ExecutionResult>, b: Result<ExecutionResult>)
    requires a.Ok? && b.Ok? && a.value.rows == [[Plain(Bool(true))]] && b.value.rows == [[Plain(Bool(false))]]
    requires PlansOf(a.value.columns) == [OutputPlan("x", LiteralOutput, None, false)]
    ensures !AnswersAlike(a, b)
  {
    var plans := PlansOf(a.value.columns);
    assert a.value.rows[0][0] == Plain(Bool(true)) && b.value.rows[0][0] == Plain(Bool(false));
    assert !AnswerCellsAlike(plans[0].protected, a.value.rows[0][0], b.value.rows[0][0]);
    assert !AnswerRowsAlike(plans, a.value.rows[0], b.value.rows[0]);
  }

  /** MAIN RESULT. The statement is accepted, its two databases differ in nothing but a protected cell
      that compares alike with all that it binds, and its answers give that cell away. It hides a
      protected column, and its references are not all of its columns. */
  lemma HiddenColumnShows(nonces: Nonces)
    ensures IssueStage(TheServer(), HiddenAnalysis(), HiddenDecision(), 10, TheNonce()).Ok?
    ensures IsRun(TheServer(), TheCatalog(), HiddenStatement(), 10, TheNonce(), HiddenRun())
    ensures Plausible(TheServer(), TheCatalog(), HiddenStatement())
    ensures Surroundings(TheServer(), HiddenRun().issued, TheCodec(), TheNonce()) && Ideal(TheCodec().lib)
    ensures TablesIndistinct(SettingOf(TheServer(), [TheBinding()], TheEngine(), TheCodec(), []), OneRow(true),
                             OneRow(false))
    ensures HiddenRun().issued.query == HiddenResolved(Some(Rows(11)))
    ensures var v, scope := HiddenRun().issued, [TheBinding()];
      !AnswersAlike(Execute(TheCodec(), v.outputs, 10, nonces, |v.outputs|,
                            DriverRows(TheServer(), v, scope, TheEngine(), OneRow(true))),
                    Execute(TheCodec(), v.outputs, 10, nonces, |v.outputs|,
                            DriverRows(TheServer(), v, scope, TheEngine(), OneRow(false))))
    ensures !HidesNothingProtected(TheServer(), [TheBinding()], HiddenStatement().expressions)
    ensures !Covers(HiddenAnalysis().references, QueryColumns(HiddenAnalysis().query))
  {
    HiddenRuns();
    NonceIsHex();
    HiddenIssuedWith(TheNonce());
    SurroundingsHold(HiddenRun().issued);
    ExampleIsIdeal();
    OneRowsAlike();
    HiddenAnswersDiffer(HiddenRun().issued, nonces);
    HiddenIsHidden();
  }

  lemma HiddenAnswersDiffer(v: ValidatedQuery, nonces: Nonces)
    requires v.query == HiddenResolved(Some(Rows(11))) && v.parameters == []
    requires v.outputs == [OutputPlan("x", LiteralOutput, None, false)]
    ensures var scope := [TheBinding()];
      !AnswersAlike(Execute(TheCodec(), v.outputs, 10, nonces, |v.outputs|,
                            DriverRows(TheServer(), v, scope, TheEngine(), OneRow(true))),
                    Execute(TheCodec(), v.outputs, 10, nonces, |v.outputs|,
                            DriverRows(TheServer(), v, scope, TheEngine(), OneRow(false))))
  {
    HiddenDriverRows(v, true);
    HiddenDriverRows(v, false);
    HiddenShown(nonces, true);
    HiddenShown(nonces, false);
    ShownCellsDiffer(Execute(TheCodec(), v.outputs, 10, nonces, 1, [[Bool(true)]]),
                     Execute(TheCodec(), v.outputs, 10, nonces, 1, [[Bool(false)]]));
  }

  lemma HiddenIsHidden()
    ensures !HidesNothingProtected(TheServer(), [TheBinding()], HiddenStatement().expressions)
    ensures !Covers(HiddenAnalysis().references, QueryColumns(HiddenAnalysis().query))
  {
    var scope, ps := [TheBinding()], HiddenStatement().expressions;
    RuleCovers();
    assert Names(Exact(), scope, "", "ssn", 0, 1);
    assert !NamesNothingProtected(TheServer(), scope, Column("", "ssn"));
    var hides := (k: Kind) => NamesNothingProtected(TheServer(), scope, k);
    assert ps[0].value.kids[0].kind == Column("", "ssn") && !Everywhere(ps[0].value.kids[0], hides);
    assert !Everywhere(ps[0].value, hides);
    var position := Position(InProjection(0), [0]);
    assert At(Hidden(), [0]) == Some(Leaf(Column("", "ssn")));
    assert QueryColumns(HiddenAnalysis().query)(position);
  }
}
