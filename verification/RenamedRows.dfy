/** What a consistent renaming of the table aliases leaves as it is after analysis: the decision of the
    policy and the rows of the query. */
module RenamedRows {
  import opened Outcomes
  import opened Ast
  import opened Scope
  import opened Values
  import opened Lineage
  import opened LineageComplete
  import opened Policy
  import opened Semantics
  import opened Simulation
  import opened EvalFacts
  import opened Idempotence
  import opened Renaming

  // ----- The policy

  lemma {:induction false} KidSitesRenamed(p: PiiPolicy, rename: Rename, path: Path, kids: seq<Expr>, kids': seq<Expr>,
                                           from: nat)
    requires from <= |kids| == |kids'| && forall i :: 0 <= i < |kids| ==>
      kids'[i].kind == RenameKind(rename)(kids[i].kind)
    ensures KidSites(p, path, kids', from) == KidSites(p, path, kids, from)
    decreases |kids| - from
  {
    if from < |kids| {
      KidSitesRenamed(p, rename, path, kids, kids', from + 1);
      assert IsToken(kids'[from].kind) <==> IsToken(kids[from].kind);
      assert IsToken(kids[from].kind) ==> kids'[from].kind == kids[from].kind;
    }
  }

  lemma CheckRenamed(p: PiiPolicy, rename: Rename, q: Query, node: Position)
    ensures CheckProtected(p, RenameQuery(rename, q), node) == CheckProtected(p, q, node)
  {
    if node.part.InWhere? && node.path != [] && q.where_.Some? {
      var up := node.path[..|node.path| - 1];
      AtMap(q.where_.value, RenameKind(rename), up);
      var parent := At(q.where_.value, up);
      if parent.Some? {
        KidSitesRenamed(p, rename, up, parent.value.kids, RenameExpr(rename, parent.value).kids,
                        if |parent.value.kids| > 0 then 1 else 0);
      }
    }
  }

  lemma {:induction false} SitesRenamed(p: PiiPolicy, rename: Rename, q: Query, refs: seq<ColumnRef>)
    ensures SitesOf(p, RenameQuery(rename, q), refs) == SitesOf(p, q, refs)
  {
    if refs != [] {
      CheckRenamed(p, rename, q, refs[0].node);
      SitesRenamed(p, rename, q, refs[1..]);
    }
  }

  lemma ClauseRenamed(rename: Rename, q: Query, part: Part)
    ensures ClauseOf(RenameQuery(rename, q), part) == RenameOption(rename, ClauseOf(q, part))
  {
    var q' := RenameQuery(rename, q);
    if part.InProjection? && part.item < |q.expressions| {
      assert q'.expressions[part.item] == RenamedItem(rename, q.expressions[part.item]);
    }
  }

  lemma TokenPathsRenamed(rename: Rename, part: Part, clause: Option<Expr>)
    ensures TokenPaths(part, RenameOption(rename, clause)) == TokenPaths(part, clause)
  {
    if clause.Some? {
      var root: seq<Placed>, f := [([], clause.value)], RenameKind(rename);
      WalkMapped(f, root);
      assert MapPlaced(f, root) == [([], MapKinds(clause.value, f))];
      SelectMapped(f, IsToken, Nodes(clause.value));
    }
  }

  lemma {:induction false} TokensRenamed(rename: Rename, q: Query, parts: seq<Part>)
    ensures TokensOf(RenameQuery(rename, q), parts) == TokensOf(q, parts)
  {
    if parts != [] {
      ClauseRenamed(rename, q, parts[0]);
      TokenPathsRenamed(rename, parts[0], ClauseOf(q, parts[0]));
      TokensRenamed(rename, q, parts[1..]);
    }
  }

  lemma DecisionDependsOn(p: PiiPolicy, a: AnalyzedQuery, b: AnalyzedQuery)
    requires SitesOf(p, b.query, b.references) == SitesOf(p, a.query, a.references)
    requires TokensOf(b.query, Parts(b.query)) == TokensOf(a.query, Parts(a.query))
    requires |b.outputs| == |a.outputs| && forall i :: 0 <= i < |a.outputs| ==>
      b.outputs[i].source == a.outputs[i].source
    ensures Evaluate(p, b) == Evaluate(p, a)
  {
    assert Flags(p, b.outputs) == Flags(p, a.outputs);
  }

  /** MAIN RESULT. The policy decides alike: same refusal, or same protected flags and token sites. */
  lemma DecisionRenamed(p: PiiPolicy, rename: Rename, a: AnalyzedQuery)
    ensures Evaluate(p, RenameAnalyzed(rename)(a)) == Evaluate(p, a)
  {
    var a' := RenameAnalyzed(rename)(a);
    SitesRenamed(p, rename, a.query, a.references);
    assert Parts(a'.query) == Parts(a.query);
    TokensRenamed(rename, a.query, Parts(a.query));
    DecisionDependsOn(p, a, a');
  }

  // ----- The rows

  lemma NamesRenamed(fold: Fold, rename: Rename, names: set<string>, scope: seq<Binding>, table: string, name: string,
                     i: nat, j: nat)
    requires Consistent(fold, rename, names) && ScopeUses(names, scope) && (table == "" || table in names)
    ensures Names(fold, MapSeq(RenameBinding(rename), scope), NameOf(rename, table), name, i, j) <==>
      Names(fold, scope, table, name, i, j)
  {
  }

  lemma NamesOnlyRenamed(fold: Fold, rename: Rename, names: set<string>, scope: seq<Binding>, table: string,
                         name: string)
    requires Consistent(fold, rename, names) && ScopeUses(names, scope) && (table == "" || table in names)
    ensures forall i: nat, j: nat ::
              NamesOnly(fold, MapSeq(RenameBinding(rename), scope), NameOf(rename, table), name, i, j) <==>
                NamesOnly(fold, scope, table, name, i, j)
  {
    forall i: nat, j: nat {
      NamesRenamed(fold, rename, names, scope, table, name, i, j);
    }
  }

  lemma ColumnValueRenamed(fold: Fold, rename: Rename, names: set<string>, scope: seq<Binding>, env: Env,
                           table: string, name: string)
    requires Consistent(fold, rename, names) && ScopeUses(names, scope) && (table == "" || table in names)
    ensures ColumnValue(fold, MapSeq(RenameBinding(rename), scope), env, NameOf(rename, table), name)
      == ColumnValue(fold, scope, env, table, name)
  {
    var part := InScope(scope, env);
    assert InScope(MapSeq(RenameBinding(rename), scope), env) == MapSeq(RenameBinding(rename), part);
    NamesOnlyRenamed(fold, rename, names, part, table, name);
  }

  lemma EvalRenamed(fold: Fold, rename: Rename, names: set<string>, scope: seq<Binding>, eng: Engine,
                    consts: Constants, env: Env, count: Value, e: Expr)
    requires Consistent(fold, rename, names) && ScopeUses(names, scope) && Everywhere(e, Uses(names))
    ensures Eval(eng, ReadingOf(fold, MapSeq(RenameBinding(rename), scope), consts, env, count), RenameExpr(rename, e))
         == Eval(eng, ReadingOf(fold, scope, consts, env, count), e)
  {
    var r, s := ReadingOf(fold, scope, consts, env, count),
        ReadingOf(fold, MapSeq(RenameBinding(rename), scope), consts, env, count);
    forall path | At(e, path).Some?
      ensures SameLeaf(eng, r, s, At(e, path).value.kind, RenameKind(rename)(At(e, path).value.kind))
    {
      EverywhereAt(e, Uses(names), path);
      var k := At(e, path).value.kind;
      if k.Column? {
        ColumnValueRenamed(fold, rename, names, scope, env, k.table, k.name);
      }
    }
    AtEverywhere(e, (k: Kind) => SameLeaf(eng, r, s, k, RenameKind(rename)(k)));
    MapAlike(eng, r, s, e, RenameKind(rename));
    EvalAlike(eng, r, s, e, RenameExpr(rename, e));
  }

  lemma QualifiesRenamed(fold: Fold, rename: Rename, names: set<string>, scope: seq<Binding>, table: string, i: nat)
    requires Consistent(fold, rename, names) && ScopeUses(names, scope) && table in names
    ensures QualifiesOnly(fold, MapSeq(RenameBinding(rename), scope), rename(table), i) <==>
      QualifiesOnly(fold, scope, table, i)
  {
    var scope' := MapSeq(RenameBinding(rename), scope);
    assert forall k :: 0 <= k < |scope| ==>
      (fold(scope'[k].name) == fold(rename(table)) <==> fold(scope[k].name) == fold(table));
  }

  lemma {:induction false} RowRenamed(fold: Fold, rename: Rename, names: set<string>, scope: seq<Binding>, eng: Engine,
                                      consts: Constants, env: Env, count: Value, ps: seq<Projection>)
    requires Consistent(fold, rename, names) && ScopeUses(names, scope) && forall i :: 0 <= i < |ps| ==>
      ItemUses(names, ps[i])
    ensures var scope' := MapSeq(RenameBinding(rename), scope);
      RowCells(fold, scope', eng, ReadingOf(fold, scope', consts, env, count), env, MapSeq(RenameItem(rename), ps))
      == RowCells(fold, scope, eng, ReadingOf(fold, scope, consts, env, count), env, ps)
  {
    if ps != [] {
      assert MapSeq(RenameItem(rename), ps)[1..] == MapSeq(RenameItem(rename), ps[1..]);
      RowRenamed(fold, rename, names, scope, eng, consts, env, count, ps[1..]);
      CellsRenamed(fold, rename, names, scope, eng, consts, env, count, ps[0]);
    }
  }

  lemma CellsRenamed(fold: Fold, rename: Rename, names: set<string>, scope: seq<Binding>, eng: Engine,
                     consts: Constants, env: Env, count: Value, p: Projection)
    requires Consistent(fold, rename, names) && ScopeUses(names, scope) && ItemUses(names, p)
    ensures var scope' := MapSeq(RenameBinding(rename), scope);
      ItemCells(fold, scope', eng, ReadingOf(fold, scope', consts, env, count), env, RenamedItem(rename, p))
      == ItemCells(fold, scope, eng, ReadingOf(fold, scope, consts, env, count), env, p)
  {
    match p
    case AllColumns =>
    case TableColumns(table) =>
      forall i: nat {
        QualifiesRenamed(fold, rename, names, scope, table, i);
      }
    case Item(value, _) =>
      EvalRenamed(fold, rename, names, scope, eng, consts, env, count, value);
  }

  lemma {:induction false} TableLabelsRenamed(rename: Rename, scope: seq<Binding>)
    ensures TableLabels(MapSeq(RenameBinding(rename), scope)) == TableLabels(scope)
  {
    if scope != [] {
      assert MapSeq(RenameBinding(rename), scope)[1..] == MapSeq(RenameBinding(rename), scope[1..]);
      TableLabelsRenamed(rename, scope[1..]);
    }
  }

  lemma {:induction false} LabelsRenamed(fold: Fold, rename: Rename, names: set<string>, scope: seq<Binding>,
                                         ps: seq<Projection>)
    requires Consistent(fold, rename, names) && ScopeUses(names, scope) && forall i :: 0 <= i < |ps| ==>
      ItemUses(names, ps[i])
    ensures RowLabels(fold, MapSeq(RenameBinding(rename), scope), MapSeq(RenameItem(rename), ps))
      == RowLabels(fold, scope, ps)
  {
    if ps != [] {
      assert MapSeq(RenameItem(rename), ps)[1..] == MapSeq(RenameItem(rename), ps[1..]);
      LabelsRenamed(fold, rename, names, scope, ps[1..]);
      assert ItemUses(names, ps[0]);
      TableLabelsRenamed(rename, scope);
      if ps[0].TableColumns? {
        forall i: nat {
          QualifiesRenamed(fold, rename, names, scope, ps[0].table, i);
        }
      }
    }
  }

  lemma KeyRenamed(fold: Fold, rename: Rename, names: set<string>, scope: seq<Binding>, eng: Engine, consts: Constants,
                   q: Query, env: Env)
    requires Consistent(fold, rename, names) && ScopeUses(names, scope) && QueryUses(names, q)
    ensures SortKey(fold, MapSeq(RenameBinding(rename), scope), eng, consts, RenameQuery(rename, q), env)
      == SortKey(fold, scope, eng, consts, q, env)
  {
    LabelsRenamed(fold, rename, names, scope, q.expressions);
    RowRenamed(fold, rename, names, scope, eng, consts, env, Null, q.expressions);
    var x, y := SortKey(fold, MapSeq(RenameBinding(rename), scope), eng, consts, RenameQuery(rename, q), env),
        SortKey(fold, scope, eng, consts, q, env);
    forall k | 0 <= k < |q.order|
      ensures x[k] == y[k]
    {
      EvalRenamed(fold, rename, names, scope, eng, consts, env, Null, q.order[k].target);
    }
  }

  lemma HoldsRenamed(fold: Fold, rename: Rename, names: set<string>, scope: seq<Binding>, eng: Engine,
                     consts: Constants, condition: Option<Expr>, env: Env)
    requires Consistent(fold, rename, names) && ScopeUses(names, scope)
        && (condition.Some? ==> Everywhere(condition.value, Uses(names)))
    ensures Holds(fold, MapSeq(RenameBinding(rename), scope), eng, consts, RenameOption(rename, condition), env)
      == Holds(fold, scope, eng, consts, condition, env)
  {
    if condition.Some? {
      EvalRenamed(fold, rename, names, scope, eng, consts, env, Null, condition.value);
    }
  }

  lemma {:induction false} BeforeRenamed(eng: Engine, order: seq<OrderKey>, order': seq<OrderKey>, a: seq<Value>,
                                         b: seq<Value>)
    requires |order| == |order'|
    requires forall k :: 0 <= k < |order| ==>
      order'[k].descending == order[k].descending && order'[k].nullsFirst == order[k].nullsFirst
    ensures Before(eng, order', a, b) == Before(eng, order, a, b)
  {
    if order != [] && a != [] && b != [] {
      BeforeRenamed(eng, order[1..], order'[1..], a[1..], b[1..]);
    }
  }

  ghost function Same(): RowRelation {
    (i: nat, a: Row, b: Row) => a == b
  }

  lemma SameEnvs()
    ensures forall a, b :: EnvRel(Same(), a, b) ==> a == b
  {
    forall a, b | EnvRel(Same(), a, b)
      ensures a == b
    {
    }
  }

  lemma JoinRenamed(fold: Fold, rename: Rename, names: set<string>, scope: seq<Binding>, eng: Engine,
                    consts: Constants, q: Query, j: nat, env: Env)
    requires Consistent(fold, rename, names) && ScopeUses(names, scope) && QueryUses(names, q) && j < |q.joins|
    ensures RenameQuery(rename, q).joins[j].side == q.joins[j].side
    ensures Holds(fold, MapSeq(RenameBinding(rename), scope), eng, consts, RenameQuery(rename, q).joins[j].on, env)
      == Holds(fold, scope, eng, consts, q.joins[j].on, env)
  {
    var on := q.joins[j].on;
    assert RenameQuery(rename, q).joins[j] == RenameJoin(rename)(q.joins[j]);
    assert on.Some? ==> Everywhere(on.value, Uses(names));
    HoldsRenamed(fold, rename, names, scope, eng, consts, on, env);
  }

  lemma JoinPlanRenamed(fold: Fold, rename: Rename, names: set<string>, scope: seq<Binding>, eng: Engine,
                        consts: Constants, q: Query, j: nat)
    requires Consistent(fold, rename, names) && ScopeUses(names, scope) && QueryUses(names, q)
    requires Meant(q) && |scope| == TableCount(q) && j < |q.joins|
    ensures var p, p' := PlanOf(fold, scope, eng, consts, q),
        PlanOf(fold, MapSeq(RenameBinding(rename), scope), eng, consts, RenameQuery(rename, q));
      && p.joins[j].outer == p'.joins[j].outer && p.joins[j].width == p'.joins[j].width
      && OnAgrees(Same(), j + 2, p.joins[j].on, p'.joins[j].on)
  {
    SameEnvs();
    var p, p' := PlanOf(fold, scope, eng, consts, q),
        PlanOf(fold, MapSeq(RenameBinding(rename), scope), eng, consts, RenameQuery(rename, q));
    JoinRenamed(fold, rename, names, scope, eng, consts, q, j, []);
    forall a, b | EnvRel(Same(), a, b)
      ensures p.joins[j].on(a) == p'.joins[j].on(b)
    {
      JoinRenamed(fold, rename, names, scope, eng, consts, q, j, a);
    }
  }

  lemma SelectionRenamed(fold: Fold, rename: Rename, names: set<string>, scope: seq<Binding>, eng: Engine,
                         consts: Constants, q: Query)
    requires Consistent(fold, rename, names) && ScopeUses(names, scope) && QueryUses(names, q)
    requires Meant(q) && |scope| == TableCount(q)
    ensures var p, p' := PlanOf(fold, scope, eng, consts, q),
        PlanOf(fold, MapSeq(RenameBinding(rename), scope), eng, consts, RenameQuery(rename, q));
      && OnAgrees(Same(), |scope|, p.keep, p'.keep) && KeysAgree(Same(), |scope|, p, p')
      && (forall a, b :: p.before(a, b) == p'.before(a, b))
  {
    SameEnvs();
    var q' := RenameQuery(rename, q);
    var p, p' := PlanOf(fold, scope, eng, consts, q),
        PlanOf(fold, MapSeq(RenameBinding(rename), scope), eng, consts, q');
    forall a, b | EnvRel(Same(), a, b)
      ensures p.keep(a) == p'.keep(b) && p.key(a) == p'.key(b)
    {
      HoldsRenamed(fold, rename, names, scope, eng, consts, q.where_, a);
      KeyRenamed(fold, rename, names, scope, eng, consts, q, a);
    }
    forall a, b
      ensures p.before(a, b) == p'.before(a, b)
    {
      BeforeRenamed(eng, q.order, q'.order, a, b);
    }
  }

  lemma PlansRenamed(fold: Fold, rename: Rename, names: set<string>, scope: seq<Binding>, eng: Engine,
                     consts: Constants, q: Query)
    requires Consistent(fold, rename, names) && ScopeUses(names, scope) && QueryUses(names, q)
    requires Meant(q) && |scope| == TableCount(q)
    ensures var p, p' := PlanOf(fold, scope, eng, consts, q),
        PlanOf(fold, MapSeq(RenameBinding(rename), scope), eng, consts, RenameQuery(rename, q));
      PlansAgree(Same(), |scope|, p, p')
  {
    SelectionRenamed(fold, rename, names, scope, eng, consts, q);
    forall j: nat | j < |q.joins| {
      JoinPlanRenamed(fold, rename, names, scope, eng, consts, q, j);
    }
    CountingRenamed(rename, q.expressions);
  }

  lemma CountingRenamed(rename: Rename, ps: seq<Projection>)
    ensures Counting(MapSeq(RenameItem(rename), ps)) == Counting(ps)
  {
    forall i | 0 <= i < |ps| && ps[i].Item? {
      HasCountRenamed(rename, ps[i].value);
    }
    assert forall i :: 0 <= i < |ps| ==> IsCount(MapSeq(RenameItem(rename), ps)[i]) == IsCount(ps[i]);
  }

  lemma {:induction false} HasCountRenamed(rename: Rename, e: Expr)
    ensures HasCount(RenameExpr(rename, e)) == HasCount(e)
  {
    var e' := RenameExpr(rename, e);
    assert e'.kind.CountStar? <==> e.kind.CountStar?;
    forall i | 0 <= i < |e.kids|
      ensures HasCount(e'.kids[i]) == HasCount(e.kids[i])
    {
      HasCountRenamed(rename, e.kids[i]);
    }
    assert HasCount(e') <==> e'.kind.CountStar? || exists i :: 0 <= i < |e'.kids| && HasCount(e'.kids[i]);
  }

  /** MAIN RESULT. The renamed query has the same rows, in the same order. */
  lemma MeaningRenamed(fold: Fold, rename: Rename, names: set<string>, scope: seq<Binding>, eng: Engine,
                       consts: Constants, tables: seq<seq<Row>>, q: Query)
    requires Consistent(fold, rename, names) && ScopeUses(names, scope) && QueryUses(names, q)
    requires Meant(q) && |scope| == |tables| == TableCount(q)
    ensures var scope', q' := MapSeq(RenameBinding(rename), scope), RenameQuery(rename, q);
      Meaning(fold, scope', eng, consts, tables, q') == Meaning(fold, scope, eng, consts, tables, q)
  {
    var scope', q' := MapSeq(RenameBinding(rename), scope), RenameQuery(rename, q);
    var p, p' := PlanOf(fold, scope, eng, consts, q), PlanOf(fold, scope', eng, consts, q');
    PlansRenamed(fold, rename, names, scope, eng, consts, q);
    SameEnvs();
    forall env, count: nat {
      RowRenamed(fold, rename, names, scope, eng, consts, env, Int(count), q.expressions);
    }
    AnswersAgree(Same(), p, p', tables, tables, Widths(scope), (x, y) => x == y);
    assert Widths(scope') == Widths(scope);
    assert Answer(p, tables, Widths(scope)) == Answer(p', tables, Widths(scope));
  }
}
