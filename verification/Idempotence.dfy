/** Analysis is idempotent: its own output, analysed again, is accepted and comes back unchanged, unless
    it has too many nodes. */
module Idempotence {
  import opened Outcomes
  import opened Ast
  import opened Scope
  import opened Allowlist
  import opened Lineage
  import opened LineageFacts
  import opened LineageComplete
  import opened AnalysisMeaning
  import opened LimitsKept

  // ----- The walk sees the shape only

  function MapPlaced(f: Kind -> Kind, nodes: seq<Placed>): seq<Placed> {
    seq(|nodes|, i requires 0 <= i < |nodes| => (nodes[i].0, MapKinds(nodes[i].1, f)))
  }

  lemma MapPlacedAppend(f: Kind -> Kind, a: seq<Placed>, b: seq<Placed>)
    ensures MapPlaced(f, a + b) == MapPlaced(f, a) + MapPlaced(f, b)
  {
  }

  lemma {:induction false} WalkMapped(f: Kind -> Kind, queue: seq<Placed>)
    ensures Walk(MapPlaced(f, queue)) == MapPlaced(f, Walk(queue))
    decreases QueueSize(queue)
  {
    if queue != [] {
      var kids := PlacedKids(queue[0]);
      QueueSizeKids(queue[0].0, queue[0].1.kids, kids);
      QueueSizeAppend(queue[1..], kids);
      var mapped := MapPlaced(f, queue);
      assert mapped[1..] == MapPlaced(f, queue[1..]);
      assert PlacedKids(mapped[0]) == MapPlaced(f, kids);
      MapPlacedAppend(f, queue[1..], kids);
      WalkMapped(f, queue[1..] + kids);
      MapPlacedAppend(f, [queue[0]], Walk(queue[1..] + kids));
      assert MapPlaced(f, [queue[0]]) == [mapped[0]];
    }
  }

  lemma {:induction false} SelectMapped(f: Kind -> Kind, p: Kind -> bool, nodes: seq<Placed>)
    requires forall k: Kind :: p(f(k)) <==> p(k)
    ensures SelectPaths(MapPlaced(f, nodes), p) == SelectPaths(nodes, p)
  {
    if nodes != [] {
      assert MapPlaced(f, nodes)[1..] == MapPlaced(f, nodes[1..]);
      SelectMapped(f, p, nodes[1..]);
    }
  }

  /** A rewrite of columns to columns leaves them where they were. */
  lemma ColumnPathsMapped(f: Kind -> Kind, e: Expr)
    requires forall k: Kind :: f(k).Column? <==> k.Column?
    ensures ColumnPaths(MapKinds(e, f)) == ColumnPaths(e)
  {
    var root: seq<Placed> := [([], e)];
    WalkMapped(f, root);
    assert MapPlaced(f, root) == [([], MapKinds(e, f))];
    SelectMapped(f, (k: Kind) => k.Column?, Nodes(e));
  }

  // ----- Clause by clause

  /** What `h` resolves a name to, `f` finds again under the canonical name. */
  ghost predicate Refinds(f: Resolver, h: Resolver) {
    forall table, name :: h(table, name).Ok? ==>
      var r := h(table, name).value;
      f(r.binding.name, r.column) == Ok(r)
  }

  function QualifiedBy(f: Resolver): Kind -> Kind {
    (k: Kind) => Qualified(f, k)
  }

  lemma {:induction false} MapAgain(f: Resolver, h: Resolver, e: Expr)
    requires Refinds(f, h) && Everywhere(e, (k: Kind) => Resolves(h, k))
    ensures MapKinds(MapKinds(e, QualifiedBy(h)), QualifiedBy(f)) == MapKinds(e, QualifiedBy(h))
  {
    forall i | 0 <= i < |e.kids| {
      MapAgain(f, h, e.kids[i]);
    }
  }

  lemma {:induction false} TreeRefsAgain(f: Resolver, h: Resolver, part: Part, e: Expr, paths: seq<Path>)
    requires Refinds(f, h) && forall i :: 0 <= i < |paths| ==>
      ColumnAt(e, paths[i]) && ColumnAt(MapKinds(e, QualifiedBy(h)), paths[i])
    requires TreeRefs(h, part, e, paths).Ok?
    ensures TreeRefs(f, part, MapKinds(e, QualifiedBy(h)), paths) == TreeRefs(h, part, e, paths)
  {
    if paths != [] {
      assert ColumnAt(e, paths[0]);
      AtMap(e, QualifiedBy(h), paths[0]);
      TreeRefsAgain(f, h, part, e, paths[1..]);
    }
  }

  lemma TreeAgain(f: Resolver, h: Resolver, part: Part, e: Expr)
    requires Refinds(f, h) && AnalyzeTree(h, part, e).Ok?
    ensures AnalyzeTree(f, part, AnalyzeTree(h, part, e).value.item) == AnalyzeTree(h, part, e)
  {
    var e' := MapKinds(e, QualifiedBy(h));
    assert MapKinds(e, (k: Kind) => Qualified(h, k)) == e' by {
      SameMap(e, (k: Kind) => Qualified(h, k), QualifiedBy(h));
    }
    AnalyzeTreeResolves(h, part, e);
    ColumnPathsComplete(e);
    ColumnPathsComplete(e');
    ColumnPathsMapped(QualifiedBy(h), e);
    assert forall i :: 0 <= i < |ColumnPaths(e)| ==> ColumnPaths(e)[i] in ColumnPaths(e);
    TreeRefsAgain(f, h, part, e, ColumnPaths(e));
    MapAgain(f, h, e);
    SameMap(e', (k: Kind) => Qualified(f, k), QualifiedBy(f));
  }

  lemma {:induction false} SameMap(e: Expr, f: Kind -> Kind, g: Kind -> Kind)
    requires forall k :: f(k) == g(k)
    ensures MapKinds(e, f) == MapKinds(e, g)
  {
    forall i | 0 <= i < |e.kids| {
      SameMap(e.kids[i], f, g);
    }
  }

  lemma {:induction false} ItemsAgain(f: Resolver, ps: seq<Projection>, ps': seq<Projection>, from: nat)
    requires from <= |ps| == |ps'| && Refinds(f, f)
    requires AnalyzeProjections(f, ps, from).Ok? && ps'[from..] == AnalyzeProjections(f, ps, from).value.items
    ensures AnalyzeProjections(f, ps', from) == AnalyzeProjections(f, ps, from)
    decreases |ps| - from
  {
    if from < |ps| {
      var first, rest := AnalyzeItem(f, ps[from], from).value, AnalyzeProjections(f, ps, from + 1).value;
      assert ps'[from] == ps'[from..][0] == first.item;
      assert ps'[from + 1..] == ps'[from..][1..] == rest.items;
      assert AnalyzeItem(f, first.item, from) == Ok(first);
      ItemsAgain(f, ps, ps', from + 1);
    }
  }

  lemma {:induction false} JoinsAgain(f: Resolver, joins: seq<Join>, joins': seq<Join>, from: nat)
    requires from <= |joins| == |joins'| && Refinds(f, f)
    requires AnalyzeJoins(f, joins, from).Ok? && joins'[from..] == AnalyzeJoins(f, joins, from).value.item
    ensures AnalyzeJoins(f, joins', from) == AnalyzeJoins(f, joins, from)
    decreases |joins| - from
  {
    if from < |joins| {
      var first, rest := AnalyzeJoin(f, joins[from], from).value, AnalyzeJoins(f, joins, from + 1).value;
      assert joins'[from] == joins'[from..][0] == first.item;
      assert joins'[from + 1..] == joins'[from..][1..] == rest.item;
      if joins[from].on.Some? {
        TreeAgain(f, f, InOn(from), joins[from].on.value);
      }
      JoinsAgain(f, joins, joins', from + 1);
    }
  }

  lemma {:induction false} OrderAgain(f: Resolver, h: Resolver, keys: seq<OrderKey>, keys': seq<OrderKey>, from: nat)
    requires from <= |keys| == |keys'| && Refinds(f, h)
    requires AnalyzeOrder(h, keys, from).Ok? && keys'[from..] == AnalyzeOrder(h, keys, from).value.item
    ensures AnalyzeOrder(f, keys', from) == AnalyzeOrder(h, keys, from)
    decreases |keys| - from
  {
    if from < |keys| {
      var first, rest := AnalyzeKey(h, keys[from], from).value, AnalyzeOrder(h, keys, from + 1).value;
      assert keys'[from] == keys'[from..][0] == first.item;
      assert keys'[from + 1..] == keys'[from..][1..] == rest.item;
      TreeAgain(f, h, InOrder(from), keys[from].target);
      OrderAgain(f, h, keys, keys', from + 1);
    }
  }

  lemma ClausesAgain(f: Resolver, g: seq<OutputColumn> -> Resolver, q: Query)
    requires AnalyzeClauses(f, g, q).Ok? && Refinds(f, f)
    requires Refinds(g(AnalyzeClauses(f, g, q).value.outputs), g(AnalyzeClauses(f, g, q).value.outputs))
    ensures AnalyzeClauses(f, g, AnalyzeClauses(f, g, q).value.query) == AnalyzeClauses(f, g, q)
  {
    ClausesParts(f, g, q);
    var a := AnalyzeClauses(f, g, q).value;
    var h := g(a.outputs);
    ProjectionsPointwise(f, q.expressions, 0);
    JoinsPointwise(f, q.joins, 0);
    OrderPointwise(h, q.order, 0);
    assert a.query.expressions[0..] == a.query.expressions && a.query.joins[0..] == a.query.joins
      && a.query.order[0..] == a.query.order;
    ItemsAgain(f, q.expressions, a.query.expressions, 0);
    JoinsAgain(f, q.joins, a.query.joins, 0);
    if q.where_.Some? {
      TreeAgain(f, f, InWhere, q.where_.value);
    }
    OrderAgain(h, h, q.order, a.query.order, 0);
  }

  // ----- The whole query

  lemma CanonicalRefinds(fold: Fold, scope: seq<Binding>, outputs: seq<OutputColumn>, h: Resolver)
    requires DistinctBindings(fold, scope) && NamedBindings(scope) && CanonicalResolver(fold, scope, h)
    ensures Refinds(ColumnResolver(fold, scope), h) && Refinds(OrderResolver(fold, scope, outputs), h)
  {
    forall table, name | h(table, name).Ok?
      ensures var r := h(table, name).value;
        r.binding.name != "" && Resolve(fold, scope, r.binding.name, r.column) == Ok(r)
    {
      var r := h(table, name).value;
      assert Canonical(fold, scope, r);
      var i: nat, j: nat :| IsColumn(scope, r, i, j) && ColumnOnly(fold, scope[i].table.columns, r.column, j);
      CanonicalIsExact(fold, scope, i, j);
    }
  }

  lemma {:induction false} NothingToExpand(fold: Fold, scope: seq<Binding>, ps: seq<Projection>)
    requires forall i :: 0 <= i < |ps| ==> ps[i].Item?
    ensures ExpandStars(fold, scope, ps) == Ok(ps)
  {
    if ps != [] {
      NothingToExpand(fold, scope, ps[1..]);
      assert [ps[0]] + ps[1..] == ps;
    }
  }

  lemma SameScope(fold: Fold, q: Query, q': Query, schemas: seq<TableSchema>)
    requires q'.from_ == q.from_ && |q'.joins| == |q.joins| && forall j :: 0 <= j < |q.joins| ==>
      q'.joins[j].table == q.joins[j].table
    ensures Collect(fold, q', schemas) == Collect(fold, q, schemas)
  {
    assert TableRefs(q') == TableRefs(q);
  }

  lemma WorkingRefinds(fold: Fold, scope: seq<Binding>, working: Query)
    requires NamedBindings(scope) && DistinctBindings(fold, scope)
    requires AnalyzeClauses(ColumnResolver(fold, scope), OrderResolvers(fold, scope), working).Ok?
    ensures var f, g := ColumnResolver(fold, scope), OrderResolvers(fold, scope);
      var h := g(AnalyzeClauses(f, g, working).value.outputs);
      Refinds(f, f) && Refinds(h, h)
  {
    var f, g := ColumnResolver(fold, scope), OrderResolvers(fold, scope);
    ClausesParts(f, g, working);
    ColumnResolverCanonical(fold, scope);
    OutputsShown(f, fold, scope, working.expressions);
    var outputs := AnalyzeClauses(f, g, working).value.outputs;
    OrderResolverCanonical(fold, scope, outputs);
    CanonicalRefinds(fold, scope, outputs, f);
    CanonicalRefinds(fold, scope, outputs, g(outputs));
  }

  /** What a second analysis of the query `a` starts from. */
  lemma SecondStart(fold: Fold, scope: seq<Binding>, working: Query, max: nat)
    requires NamedBindings(scope) && DistinctBindings(fold, scope)
    requires forall i :: 0 <= i < |working.expressions| ==>
      working.expressions[i].Item? && AllowedExpr(working.expressions[i].value, false)
    requires AnalyzeClauses(ColumnResolver(fold, scope), OrderResolvers(fold, scope), working).Ok?
        && InLists(working, max)
    ensures var q := AnalyzeClauses(ColumnResolver(fold, scope), OrderResolvers(fold, scope), working).value.query;
      && QueryRewritten(false, working, q) && InLists(q, max)
      && ExpandStars(fold, scope, q.expressions) == Ok(q.expressions)
  {
    var q := AnalyzeClauses(ColumnResolver(fold, scope), OrderResolvers(fold, scope), working).value.query;
    ResolversQualify(fold, scope, working);
    ClausesRewritten(ColumnResolver(fold, scope), OrderResolvers(fold, scope), working);
    RewrittenQueryFits(false, working, q, max);
    forall i | 0 <= i < |q.expressions|
      ensures q.expressions[i].Item?
    {
      assert ItemRewritten(false, working.expressions[i], q.expressions[i]);
    }
    NothingToExpand(fold, scope, q.expressions);
  }

  /** MAIN RESULT. An analysed query, analysed again, gives the same analysis, unless it has more nodes
      than the limit allows, and then it is refused for that. */
  lemma AnalysisIsIdempotent(fold: Fold, cross: CrossCheck, limits: Limits, q: Query, schemas: seq<TableSchema>)
    requires NamedTables(schemas) && Analyze(fold, cross, limits, q, schemas).Ok?
    ensures var a := Analyze(fold, cross, limits, q, schemas).value;
      Analyze(fold, cross, limits, a.query, schemas) == if NodeCount(a.query) <= limits.maxNodes then Ok(a)
        else Rejected(LimitNodes)
  {
    AnalyzeStages(fold, cross, limits, q, schemas);
    AnalyzedItemsPlain(fold, cross, limits, q, schemas);
    var scope, working, a := Collect(fold, q, schemas).value, Working(fold, q, schemas),
        Analyze(fold, cross, limits, q, schemas).value;
    ExpandedItems(fold, scope, q.expressions);
    assert forall i :: 0 <= i < |working.expressions| ==> PlainItem(working.expressions[i]);
    SecondStart(fold, scope, working, limits.maxInItems);
    assert forall j :: 0 <= j < |q.joins| ==> JoinRewritten(false, q.joins[j], a.query.joins[j]);
    SameScope(fold, q, a.query, schemas);
    WorkingRefinds(fold, scope, working);
    ClausesAgain(ColumnResolver(fold, scope), OrderResolvers(fold, scope), working);
    assert a.query.(expressions := a.query.expressions) == a.query;
    SecondRun(fold, cross, limits, a.query, schemas);
  }

  /** An analysis whose steps change nothing. */
  lemma SecondRun(fold: Fold, cross: CrossCheck, limits: Limits, q: Query, schemas: seq<TableSchema>)
    requires Collect(fold, q, schemas).Ok?
    requires ExpandStars(fold, Collect(fold, q, schemas).value, q.expressions) == Ok(q.expressions)
    requires |q.joins| <= limits.maxJoins && InLists(q, limits.maxInItems) && Allowed(q, false) && cross(q, schemas)
    requires var scope := Collect(fold, q, schemas).value;
      var r := AnalyzeClauses(ColumnResolver(fold, scope), OrderResolvers(fold, scope), q);
      r.Ok? && r.value.query == q
    ensures var scope := Collect(fold, q, schemas).value;
      Analyze(fold, cross, limits, q, schemas) ==
      if NodeCount(q) <= limits.maxNodes
        then AnalyzeClauses(ColumnResolver(fold, scope), OrderResolvers(fold, scope), q) else Rejected(LimitNodes)
  {
    assert q.(expressions := q.expressions) == q;
  }
}
