/** What a restricted SELECT means: tables are sequences of rows, joins nest in FROM order, WHERE is
    three-valued, ORDER BY is a stable sort and the row limit comes last.

    The meaning is stated once, for any way of comparing names. Read with case folding it is the
    meaning of the caller's query, with stars, unqualified names and output labels; read with exact
    names it is the meaning of the query that is sent to the database. */
module Semantics {
  import opened Outcomes
  import opened Ast
  import opened Scope
  import opened Values
  import opened Allowlist

  /** The parts of a database engine the meaning does not depend on. */
  datatype Engine = Engine(
    compare: (CompareOp, Value, Value) -> bool,
    truthy: Value -> bool,
    number: string -> Value,
    negate: Value -> Value,
    precedes: (bool, bool, Value, Value) -> bool)

  // ----- Expressions

  datatype Truth = True | False | Unknown

  function ToTruth(eng: Engine, v: Value): Truth {
    if v == Null then Unknown
    else if (if v.Bool? then v.flag else eng.truthy(v)) then True
    else False
  }

  function FromTruth(t: Truth): Value {
    match t
    case True => Bool(true)
    case False => Bool(false)
    case Unknown => Null
  }

  function Conjunction(a: Truth, b: Truth): Truth {
    if a == False || b == False then False
    else if a == True && b == True then True
    else Unknown
  }

  function Disjunction(a: Truth, b: Truth): Truth {
    if a == True || b == True then True
    else if a == False && b == False then False
    else Unknown
  }

  function Comparison(eng: Engine, op: CompareOp, a: Value, b: Value): Truth {
    if a == Null || b == Null then Unknown
    else if eng.compare(op, a, b) then True
    else False
  }

  function Membership(eng: Engine, v: Value, items: seq<Value>): Truth {
    if items == [] then False
    else Disjunction(Comparison(eng, EQ, v, items[0]), Membership(eng, v, items[1..]))
  }

  /** The value of an inner node from the values of its children. */
  function Apply(eng: Engine, kind: Kind, args: seq<Value>): Value {
    match kind
    case Neg => if |args| == 1 && args[0] != Null then eng.negate(args[0]) else Null
    case Compare(op) => if |args| == 2 then FromTruth(Comparison(eng, op, args[0], args[1])) else Null
    case And =>
      if |args| == 2 then FromTruth(Conjunction(ToTruth(eng, args[0]), ToTruth(eng, args[1]))) else Null
    case Or =>
      if |args| == 2 then FromTruth(Disjunction(ToTruth(eng, args[0]), ToTruth(eng, args[1]))) else Null
    case Paren => if |args| == 1 then args[0] else Null
    case Is => if |args| == 2 then Bool(args[0] == Null) else Null
    case In => if |args| >= 1 then FromTruth(Membership(eng, args[0], args[1..])) else Null
    case _ => Null
  }

  /** What the leaves of an expression stand for. */
  datatype Reading = Reading(
    column: (string, string) -> Value,
    text: string -> Value,
    bind: map<string, Value>,
    count: Value)

  function LeafValue(eng: Engine, r: Reading, kind: Kind): Value {
    match kind
    case Column(table, name) => r.column(table, name)
    case Text(text) => r.text(text)
    case Number(digits) => eng.number(digits)
    case Placeholder(name) => if name in r.bind then r.bind[name] else Null
    case CountStar => r.count
    case _ => Null
  }

  function Eval(eng: Engine, r: Reading, e: Expr): Value {
    if e.kids == [] then LeafValue(eng, r, e.kind)
    else Apply(eng, e.kind, seq(|e.kids|, i requires 0 <= i < |e.kids| => Eval(eng, r, e.kids[i])))
  }

  // ----- Row environments

  /** One row of each table joined so far. */
  type Env = seq<Row>

  /** The tables joined so far. */
  ghost function InScope(scope: seq<Binding>, env: Env): seq<Binding> {
    scope[..if |env| < |scope| then |env| else |scope|]
  }

  /** The value a column reference reads, over the tables joined so far; a reference that no column
      or several columns could answer has no value of its own, and reads NULL here. */
  ghost function ColumnValue(fold: Fold, scope: seq<Binding>, env: Env, table: string, name: string): (v: Value)
    ensures forall i: nat, j: nat ::
              NamesOnly(fold, InScope(scope, env), table, name, i, j) && j < |env[i]| ==> v == env[i][j]
  {
    if exists i: nat, j: nat :: NamesOnly(fold, InScope(scope, env), table, name, i, j) && j < |env[i]| then
      var i: nat, j: nat :| NamesOnly(fold, InScope(scope, env), table, name, i, j) && j < |env[i]|;
      env[i][j]
    else Null
  }

  /** What string literals and placeholders stand for. */
  datatype Constants = Constants(text: string -> Value, bind: map<string, Value>)

  ghost function ReadingOf(fold: Fold, scope: seq<Binding>, consts: Constants, env: Env, count: Value): Reading {
    Reading((table: string, name: string) => ColumnValue(fold, scope, env, table, name),
            consts.text, consts.bind, count)
  }

  // ----- Projections, labels and sort keys

  function Concat<T>(parts: seq<seq<T>>): seq<T> {
    if parts == [] then [] else parts[0] + Concat(parts[1..])
  }

  /** The cells one select-list item contributes; `r` reads the environment `env`. */
  ghost function ItemCells(fold: Fold, scope: seq<Binding>, eng: Engine, r: Reading, env: Env,
                           p: Projection): seq<Value> {
    match p
    case AllColumns => Concat(env)
    case TableColumns(table) =>
      if exists i: nat :: QualifiesOnly(fold, scope, table, i) && i < |env| then
        var i: nat :| QualifiesOnly(fold, scope, table, i) && i < |env|;
        env[i]
      else []
    case Item(value, _) => [Eval(eng, r, value)]
  }

  ghost function RowCells(fold: Fold, scope: seq<Binding>, eng: Engine, r: Reading, env: Env,
                          ps: seq<Projection>): seq<Value> {
    if ps == [] then []
    else ItemCells(fold, scope, eng, r, env, ps[0]) + RowCells(fold, scope, eng, r, env, ps[1..])
  }

  function Labelled(columns: seq<string>): seq<Option<string>> {
    seq(|columns|, i requires 0 <= i < |columns| => Some(columns[i]))
  }

  function TableLabels(scope: seq<Binding>): seq<Option<string>> {
    if scope == [] then [] else Labelled(scope[0].table.columns) + TableLabels(scope[1..])
  }

  /** The output labels of one select-list item; an unaliased literal or count has none. */
  ghost function ItemLabels(fold: Fold, scope: seq<Binding>, p: Projection): seq<Option<string>> {
    match p
    case AllColumns => TableLabels(scope)
    case TableColumns(table) =>
      if exists i: nat :: QualifiesOnly(fold, scope, table, i) then
        var i: nat :| QualifiesOnly(fold, scope, table, i);
        Labelled(scope[i].table.columns)
      else []
    case Item(value, alias) =>
      if alias != "" then [Some(alias)]
      else if value.kind.Column? then [Some(value.kind.name)]
      else [None]
  }

  ghost function RowLabels(fold: Fold, scope: seq<Binding>, ps: seq<Projection>): seq<Option<string>> {
    if ps == [] then [] else ItemLabels(fold, scope, ps[0]) + RowLabels(fold, scope, ps[1..])
  }

  ghost predicate HasLabel(fold: Fold, labels: seq<Option<string>>, name: string, i: nat) {
    i < |labels| && labels[i].Some? && fold(labels[i].value) == fold(name)
  }

  /** An unqualified name is looked up among the output labels before the columns. */
  ghost function KeyValue(fold: Fold, labels: seq<Option<string>>, row: seq<Value>, eng: Engine, r: Reading,
                          e: Expr): Value {
    if && e.kids == [] && e.kind.Column? && e.kind.table == ""
       && exists i: nat :: HasLabel(fold, labels, e.kind.name, i) then
      if exists i: nat :: i < |row| && HasLabel(fold, labels, e.kind.name, i)
                     && forall k: nat :: HasLabel(fold, labels, e.kind.name, k) ==> k == i then
        var i: nat :| i < |row| && HasLabel(fold, labels, e.kind.name, i)
                 && forall k: nat :: HasLabel(fold, labels, e.kind.name, k) ==> k == i;
        row[i]
      else Null
    else Eval(eng, r, e)
  }

  /** Whether key values `a` come strictly before `b`, most significant key first. */
  function Before(eng: Engine, order: seq<OrderKey>, a: seq<Value>, b: seq<Value>): bool {
    if order == [] || a == [] || b == [] then false
    else if eng.precedes(order[0].descending, order[0].nullsFirst, a[0], b[0]) then true
    else if eng.precedes(order[0].descending, order[0].nullsFirst, b[0], a[0]) then false
    else Before(eng, order[1..], a[1..], b[1..])
  }

  // ----- Plans: the relational skeleton over arbitrary row functions

  datatype JoinPlan = JoinPlan(outer: bool, width: nat, on: Env -> bool)

  datatype Plan = Plan(
    joins: seq<JoinPlan>,
    keep: Env -> bool,
    key: Env -> seq<Value>,
    before: (seq<Value>, seq<Value>) -> bool,
    row: (Env, nat) -> seq<Value>,
    counting: bool,
    top: Option<nat>)

  function MatchingRows(env: Env, rows: seq<Row>, on: Env -> bool): seq<Env> {
    if rows == [] then []
    else (if on(env + [rows[0]]) then [env + [rows[0]]] else []) + MatchingRows(env, rows[1..], on)
  }

  function ExtendEnv(env: Env, rows: seq<Row>, j: JoinPlan): seq<Env> {
    var matching := MatchingRows(env, rows, j.on);
    if matching == [] && j.outer then [env + [Nulls(j.width)]] else matching
  }

  function JoinTable(envs: seq<Env>, rows: seq<Row>, j: JoinPlan): seq<Env> {
    if envs == [] then [] else ExtendEnv(envs[0], rows, j) + JoinTable(envs[1..], rows, j)
  }

  /** The rows of FROM and the first `n` joins. */
  function Joined(plan: Plan, tables: seq<seq<Row>>, n: nat): seq<Env>
    requires n <= |plan.joins|
    requires |tables| == |plan.joins| + 1
  {
    if n == 0 then seq(|tables[0]|, i requires 0 <= i < |tables[0]| => [tables[0][i]])
    else JoinTable(Joined(plan, tables, n - 1), tables[n], plan.joins[n - 1])
  }

  function Kept(envs: seq<Env>, keep: Env -> bool): seq<Env> {
    if envs == [] then [] else (if keep(envs[0]) then [envs[0]] else []) + Kept(envs[1..], keep)
  }

  /** Inserts after every row that does not come strictly later. */
  function Insert(x: Env, sorted: seq<Env>, plan: Plan): seq<Env> {
    if sorted == [] || plan.before(plan.key(x), plan.key(sorted[0])) then [x] + sorted
    else [sorted[0]] + Insert(x, sorted[1..], plan)
  }

  function Sorted(envs: seq<Env>, plan: Plan): seq<Env> {
    if envs == [] then [] else Insert(envs[|envs| - 1], Sorted(envs[..|envs| - 1], plan), plan)
  }

  /** The rows that reach the select list, in output order; a query without FROM has one. */
  function Selected(plan: Plan, tables: seq<seq<Row>>): seq<Env>
    requires tables != [] ==> |tables| == |plan.joins| + 1
  {
    var source := if tables == [] then [[]] else Joined(plan, tables, |plan.joins|);
    Sorted(Kept(source, plan.keep), plan)
  }

  /** The row a counting query is evaluated on besides its count. */
  function Representative(envs: seq<Env>, widths: seq<nat>): Env {
    if envs != [] then envs[0] else seq(|widths|, i requires 0 <= i < |widths| => Nulls(widths[i]))
  }

  function Output(plan: Plan, envs: seq<Env>, widths: seq<nat>): seq<seq<Value>> {
    if plan.counting then [plan.row(Representative(envs, widths), |envs|)]
    else seq(|envs|, i requires 0 <= i < |envs| => plan.row(envs[i], |envs|))
  }

  function Take<T>(s: seq<T>, top: Option<nat>): seq<T> {
    if top.Some? && top.value < |s| then s[..top.value] else s
  }

  function Answer(plan: Plan, tables: seq<seq<Row>>, widths: seq<nat>): seq<seq<Value>>
    requires tables != [] ==> |tables| == |plan.joins| + 1
  {
    Take(Output(plan, Selected(plan, tables), widths), plan.top)
  }

  // ----- The meaning of a query

  function Widths(scope: seq<Binding>): seq<nat> {
    seq(|scope|, i requires 0 <= i < |scope| => |scope[i].table.columns|)
  }

  /** COUNT(*) stands somewhere in the expression. */
  predicate HasCount(e: Expr) {
    e.kind.CountStar? || exists i :: 0 <= i < |e.kids| && HasCount(e.kids[i])
  }

  predicate IsCount(p: Projection) {
    p.Item? && HasCount(p.value)
  }

  predicate Counting(ps: seq<Projection>) {
    exists i :: 0 <= i < |ps| && IsCount(ps[i])
  }

  ghost predicate Holds(fold: Fold, scope: seq<Binding>, eng: Engine, consts: Constants, condition: Option<Expr>,
                        env: Env) {
    condition.None?
    || ToTruth(eng, Eval(eng, ReadingOf(fold, scope, consts, env, Null), condition.value)) == True
  }

  ghost function SortKey(fold: Fold, scope: seq<Binding>, eng: Engine, consts: Constants, q: Query,
                         env: Env): seq<Value> {
    var r := ReadingOf(fold, scope, consts, env, Null);
    var labels := RowLabels(fold, scope, q.expressions);
    var row := RowCells(fold, scope, eng, r, env, q.expressions);
    seq(|q.order|, k requires 0 <= k < |q.order| => KeyValue(fold, labels, row, eng, r, q.order[k].target))
  }

  /** The joins that have a meaning here: INNER, and LEFT. */
  predicate JoinMeant(j: Join) {
    (j.side == "" || j.side == "LEFT") && (j.joinKind == "" || j.joinKind == "INNER")
  }

  predicate JoinsMeant(q: Query) {
    forall j :: 0 <= j < |q.joins| ==> JoinMeant(q.joins[j])
  }

  /** The queries that have a meaning here. */
  predicate Meant(q: Query) {
    Grammatical(q) && JoinsMeant(q)
  }

  lemma AllowedIsMeant(q: Query, binds: bool)
    requires Allowed(q, binds)
    ensures JoinsMeant(q)
  {
    forall j | 0 <= j < |q.joins|
      ensures JoinMeant(q.joins[j])
    {
      assert AllowedJoin(q.joins[j]);
    }
  }

  ghost function PlanOf(fold: Fold, scope: seq<Binding>, eng: Engine, consts: Constants, q: Query): Plan
    requires JoinsMeant(q)
    requires |scope| >= |q.joins| + 1 || q.joins == []
  {
    Plan(
      seq(|q.joins|, j requires 0 <= j < |q.joins| =>
        JoinPlan(q.joins[j].side == "LEFT", |scope[j + 1].table.columns|,
                 env => Holds(fold, scope, eng, consts, q.joins[j].on, env))),
      env => Holds(fold, scope, eng, consts, q.where_, env),
      env => SortKey(fold, scope, eng, consts, q, env),
      (a, b) => Before(eng, q.order, a, b),
      (env, n) => RowCells(fold, scope, eng, ReadingOf(fold, scope, consts, env, Int(n)), env, q.expressions),
      Counting(q.expressions),
      if q.limit.Some? && q.limit.value.Rows? then Some(q.limit.value.count) else None)
  }

  /** The number of tables a query reads. */
  function TableCount(q: Query): nat {
    if q.from_.None? then 0 else 1 + |q.joins|
  }

  /** `tables[i]` holds the rows of the table of binding `i`. */
  ghost function Meaning(fold: Fold, scope: seq<Binding>, eng: Engine, consts: Constants, tables: seq<seq<Row>>,
                         q: Query): seq<seq<Value>>
    requires |scope| == |tables| == TableCount(q) && Meant(q)
  {
    Answer(PlanOf(fold, scope, eng, consts, q), tables, Widths(scope))
  }
}
