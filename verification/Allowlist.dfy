/** `security/parser.py`: the size limits and the allowlist that every stage re-checks. */
module Allowlist {
  import opened Outcomes
  import opened Ast
  import opened Sequences

  datatype Limits = Limits(maxNodes: nat, maxJoins: nat, maxInItems: nat)

  // ----- Counting nodes, as `query.walk()` meets them

  function Weight(kind: Kind): nat {
    match kind
    case Column(table, _) => if table == "" then 2 else 3
    case CountStar => 2
    case _ => 1
  }

  function ExprCount(e: Expr): nat
    decreases e, 0
  {
    Weight(e.kind) + ExprCounts(e.kids)
  }

  function ExprCounts(es: seq<Expr>): nat
    decreases es, 1
  {
    if es == [] then 0 else ExprCount(es[0]) + ExprCounts(es[1..])
  }

  function ProjectionCount(p: Projection): nat {
    match p
    case AllColumns => 1
    case TableColumns(_) => 3
    case Item(value, alias) => ExprCount(value) + if alias == "" then 0 else 2
  }

  function TableRefCount(t: TableRef): nat {
    2 + (if t.db == "" then 0 else 1) + (if t.catalog == "" then 0 else 1) + (if t.alias == "" then 0 else 2)
  }

  function JoinCount(j: Join): nat {
    1 + TableRefCount(j.table) + if j.on.None? then 0 else ExprCount(j.on.value)
  }

  function KeyCount(k: OrderKey): nat {
    1 + ExprCount(k.target)
  }

  function NodeCount(q: Query): nat {
    1
    + Total(q.expressions, ProjectionCount)
    + (if q.from_.None? then 0 else 1 + TableRefCount(q.from_.value))
    + Total(q.joins, JoinCount)
    + (if q.where_.None? then 0 else 1 + ExprCount(q.where_.value))
    + (if q.order == [] then 0 else 1 + Total(q.order, KeyCount))
    + (if q.limit.None? then 0 else 2)
  }

  predicate InListsFit(e: Expr, max: nat) {
    && (e.kind.In? ==> |e.kids| <= max + 1)
    && forall i :: 0 <= i < |e.kids| ==> InListsFit(e.kids[i], max)
  }

  /** The expressions of a query, clause by clause. */
  predicate EveryExpr(q: Query, p: Expr -> bool) {
    && (forall i :: 0 <= i < |q.expressions| && q.expressions[i].Item? ==> p(q.expressions[i].value))
    && (forall j :: 0 <= j < |q.joins| && q.joins[j].on.Some? ==> p(q.joins[j].on.value))
    && (q.where_.Some? ==> p(q.where_.value))
    && (forall k :: 0 <= k < |q.order| ==> p(q.order[k].target))
  }

  predicate InLists(q: Query, max: nat) {
    EveryExpr(q, e => InListsFit(e, max))
  }

  function CheckLimits(q: Query, limits: Limits): Result<()> {
    if NodeCount(q) > limits.maxNodes then Rejected(LimitNodes)
    else if |q.joins| > limits.maxJoins then Rejected(LimitJoins)
    else if !InLists(q, limits.maxInItems) then Rejected(LimitInList)
    else Ok(())
  }

  // ----- The allowlist

  predicate ListItem(kind: Kind) {
    kind.Text? || kind.Number? || kind.Neg? || kind.Placeholder?
  }

  predicate AllowedNode(e: Expr, binds: bool) {
    match e.kind
    case Column(_, _) => e.kids == []
    case Text(_) => e.kids == []
    case Number(_) => e.kids == []
    case NullLiteral => e.kids == []
    case CountStar => e.kids == []
    case Neg => |e.kids| == 1 && e.kids[0].kind.Number?
    case Compare(_) => |e.kids| == 2
    case And => |e.kids| == 2
    case Or => |e.kids| == 2
    case Paren => |e.kids| == 1
    case Is => |e.kids| == 2 && e.kids[1].kind.NullLiteral?
    case In => |e.kids| >= 1 && e.kids[0].kind.Column? && forall i :: 1 <= i < |e.kids| ==> ListItem(e.kids[i].kind)
    case Placeholder(_) => binds && e.kids == []
    case Other(_) => false
  }

  predicate AllowedExpr(e: Expr, binds: bool) {
    AllowedNode(e, binds) && forall i :: 0 <= i < |e.kids| ==> AllowedExpr(e.kids[i], binds)
  }

  /** The select-list values that may stand without an alias. */
  predicate Direct(kind: Kind) {
    kind.Column? || kind.Text? || kind.Number? || kind.NullLiteral? || kind.Neg? || kind.CountStar?
  }

  predicate AllowedProjection(p: Projection) {
    p.Item? && p.alias == "" ==> Direct(p.value.kind)
  }

  /** Names of temporary tables and table variables. */
  predicate Reserved(name: string) {
    name != "" && (name[0] == '#' || name[0] == '@')
  }

  predicate AllowedTable(t: TableRef) {
    t.plain && t.catalog == "" && !Reserved(t.name)
  }

  predicate AllowedJoin(j: Join) {
    && AllowedTable(j.table)
    && j.on.Some?
    && (j.side == "" || j.side == "LEFT")
    && (j.joinKind == "" || j.joinKind == "INNER")
  }

  predicate AllowedKey(k: OrderKey) {
    k.target.kind.Column?
  }

  predicate Allowed(q: Query, binds: bool) {
    && q.extras == []
    && EveryExpr(q, e => AllowedExpr(e, binds))
    && (forall i :: 0 <= i < |q.expressions| ==> AllowedProjection(q.expressions[i]))
    && (q.from_.Some? ==> AllowedTable(q.from_.value))
    && (forall j :: 0 <= j < |q.joins| ==> AllowedJoin(q.joins[j]))
    && (forall k :: 0 <= k < |q.order| ==> AllowedKey(q.order[k]))
    && (q.limit.Some? ==> q.limit.value.Rows?)
  }

  function ValidateAllowlist(q: Query, binds: bool): Result<()> {
    if Allowed(q, binds) then Ok(()) else Rejected(NotAllowed)
  }

  /** Joins need a FROM clause; the grammar allows nothing else. */
  predicate Grammatical(q: Query) {
    q.from_.None? ==> q.joins == []
  }

  predicate ColumnFree(e: Expr) {
    !e.kind.Column? && forall i :: 0 <= i < |e.kids| ==> ColumnFree(e.kids[i])
  }

  /** The select-list value is a column or has none below it. */
  predicate InSight(value: Expr) {
    value.kind.Column? || ColumnFree(value)
  }

  /** No column of the select list is hidden inside an aliased expression. The documentation promises
      direct columns and aliases; the allowlist does not look below an alias. */
  predicate ColumnsInSight(q: Query) {
    forall i :: 0 <= i < |q.expressions| && q.expressions[i].Item? ==> InSight(q.expressions[i].value)
  }
}
