/** How a caller spells the names of columns does not matter: statements whose references fold alike have
    the same analysis, or are refused for the same reason. */
module LineageSpelling {
  import opened Outcomes
  import opened Ast
  import opened Scope
  import opened Sequences
  import opened Allowlist
  import opened Lineage
  import opened LineageFacts

  // ----- Statements that differ in spelling

  ghost predicate SameKind(fold: Fold, k: Kind, k': Kind) {
    if k.Column? then
      && k'.Column? && (k.table == "" <==> k'.table == "")
      && fold(k.table) == fold(k'.table) && fold(k.name) == fold(k'.name)
    else k' == k
  }

  ghost predicate SameTree(fold: Fold, e: Expr, e': Expr) {
    && SameKind(fold, e.kind, e'.kind) && |e.kids| == |e'.kids| && (e.kind.Column? ==> e'.kids == e.kids)
    && forall i :: 0 <= i < |e.kids| ==> SameTree(fold, e.kids[i], e'.kids[i])
  }

  ghost predicate SameOptional(fold: Fold, e: Option<Expr>, e': Option<Expr>) {
    (e.Some? <==> e'.Some?) && (e.Some? ==> SameTree(fold, e.value, e'.value))
  }

  ghost predicate SameItem(fold: Fold, p: Projection, p': Projection) {
    match p
    case AllColumns => p' == p
    case TableColumns(table) => p'.TableColumns? && fold(p'.table) == fold(table)
    case Item(value, alias) => p'.Item? && p'.alias == alias && SameTree(fold, value, p'.value)
  }

  ghost predicate SameItems(fold: Fold, ps: seq<Projection>, ps': seq<Projection>) {
    |ps| == |ps'| && forall i :: 0 <= i < |ps| ==> SameItem(fold, ps[i], ps'[i])
  }

  ghost predicate SameJoin(fold: Fold, j: Join, j': Join) {
    j' == j.(on := j'.on) && SameOptional(fold, j.on, j'.on)
  }

  ghost predicate SameJoins(fold: Fold, js: seq<Join>, js': seq<Join>) {
    |js| == |js'| && forall i :: 0 <= i < |js| ==> SameJoin(fold, js[i], js'[i])
  }

  ghost predicate SameKey(fold: Fold, k: OrderKey, k': OrderKey) {
    k' == k.(target := k'.target) && SameTree(fold, k.target, k'.target)
  }

  ghost predicate SameKeys(fold: Fold, ks: seq<OrderKey>, ks': seq<OrderKey>) {
    |ks| == |ks'| && forall i :: 0 <= i < |ks| ==> SameKey(fold, ks[i], ks'[i])
  }

  /** The same statement but for the spelling of the columns it names. */
  ghost predicate SameStatement(fold: Fold, q: Query, q': Query) {
    && q' == q.(expressions := q'.expressions, joins := q'.joins, where_ := q'.where_, order := q'.order)
    && SameItems(fold, q.expressions, q'.expressions) && SameJoins(fold, q.joins, q'.joins)
    && SameOptional(fold, q.where_, q'.where_) && SameKeys(fold, q.order, q'.order)
  }

  // ----- Resolution

  /** The resolver gives names that fold alike the same outcome. */
  ghost predicate Respects(fold: Fold, f: Resolver) {
    forall k: Kind, k': Kind :: k.Column? && SameKind(fold, k, k') ==> f(k.table, k.name) == f(k'.table, k'.name)
  }

  lemma CanonicalSame(fold: Fold, b: Binding, name: string, name': string)
    requires fold(name) == fold(name')
    ensures CanonicalColumn(fold, b, name) == CanonicalColumn(fold, b, name')
  {
    FilterSame(b.table.columns, ColumnNamed(fold, name), ColumnNamed(fold, name'));
  }

  lemma {:induction false} CandidatesSame(fold: Fold, scope: seq<Binding>, name: string, name': string)
    requires fold(name) == fold(name')
    ensures Candidates(fold, scope, name) == Candidates(fold, scope, name')
  {
    if scope != [] {
      CanonicalSame(fold, scope[0], name, name');
      CandidatesSame(fold, scope[1..], name, name');
    }
  }

  /** Names that fold alike resolve alike. */
  lemma ResolveIgnoresSpelling(fold: Fold, scope: seq<Binding>, k: Kind, k': Kind)
    requires k.Column? && SameKind(fold, k, k')
    ensures Resolve(fold, scope, k.table, k.name) == Resolve(fold, scope, k'.table, k'.name)
  {
    FilterSame(scope, BindingNamed(fold, k.table), BindingNamed(fold, k'.table));
    var matching := Filter(scope, BindingNamed(fold, k.table));
    if |matching| == 1 {
      CanonicalSame(fold, matching[0], k.name, k'.name);
    }
    CandidatesSame(fold, scope, k.name, k'.name);
  }

  /** So do the names in ORDER BY. */
  lemma OrderIgnoresSpelling(fold: Fold, scope: seq<Binding>, outputs: seq<OutputColumn>, k: Kind, k': Kind)
    requires k.Column? && SameKind(fold, k, k')
    ensures ResolveOrder(fold, scope, outputs, k.table, k.name) == ResolveOrder(fold, scope, outputs, k'.table, k'.name)
  {
    ResolveIgnoresSpelling(fold, scope, k, k');
    FilterSame(outputs, OutputNamed(fold, k.name), OutputNamed(fold, k'.name));
  }

  lemma ResolversRespect(fold: Fold, scope: seq<Binding>, outputs: seq<OutputColumn>)
    ensures Respects(fold, ColumnResolver(fold, scope)) && Respects(fold, OrderResolver(fold, scope, outputs))
  {
    forall k: Kind, k': Kind | k.Column? && SameKind(fold, k, k')
      ensures Resolve(fold, scope, k.table, k.name) == Resolve(fold, scope, k'.table, k'.name)
      ensures ResolveOrder(fold, scope, outputs, k.table, k.name)
        == ResolveOrder(fold, scope, outputs, k'.table, k'.name)
    {
      ResolveIgnoresSpelling(fold, scope, k, k');
      OrderIgnoresSpelling(fold, scope, outputs, k, k');
    }
  }

  // ----- The walk

  ghost predicate SameQueue(fold: Fold, a: seq<Placed>, b: seq<Placed>) {
    |a| == |b| && forall i :: 0 <= i < |a| ==> a[i].0 == b[i].0 && SameTree(fold, a[i].1, b[i].1)
  }

  lemma SameQueueStep(fold: Fold, a: seq<Placed>, b: seq<Placed>)
    requires SameQueue(fold, a, b) && a != []
    ensures SameQueue(fold, a[1..] + PlacedKids(a[0]), b[1..] + PlacedKids(b[0]))
  {
    assert SameTree(fold, a[0].1, b[0].1);
  }

  lemma {:induction false} WalkSame(fold: Fold, a: seq<Placed>, b: seq<Placed>)
    requires SameQueue(fold, a, b)
    ensures SameQueue(fold, Walk(a), Walk(b))
    decreases QueueSize(a)
  {
    if a != [] {
      QueueSizeKids(a[0].0, a[0].1.kids, PlacedKids(a[0]));
      QueueSizeAppend(a[1..], PlacedKids(a[0]));
      SameQueueStep(fold, a, b);
      WalkSame(fold, a[1..] + PlacedKids(a[0]), b[1..] + PlacedKids(b[0]));
    }
  }

  lemma {:induction false} SelectSame(fold: Fold, a: seq<Placed>, b: seq<Placed>)
    requires SameQueue(fold, a, b)
    ensures SelectPaths(a, (k: Kind) => k.Column?) == SelectPaths(b, (k: Kind) => k.Column?)
  {
    if a != [] {
      assert SameTree(fold, a[0].1, b[0].1);
      SelectSame(fold, a[1..], b[1..]);
    }
  }

  lemma ColumnPathsSame(fold: Fold, e: Expr, e': Expr)
    requires SameTree(fold, e, e')
    ensures ColumnPaths(e) == ColumnPaths(e')
  {
    WalkSame(fold, [([], e)], [([], e')]);
    SelectSame(fold, Nodes(e), Nodes(e'));
  }

  lemma {:induction false} AtSame(fold: Fold, e: Expr, e': Expr, path: Path)
    requires SameTree(fold, e, e')
    ensures At(e, path).Some? <==> At(e', path).Some?
    ensures At(e, path).Some? ==> SameTree(fold, At(e, path).value, At(e', path).value)
    decreases |path|
  {
    if path != [] && path[0] < |e.kids| {
      AtSame(fold, e.kids[path[0]], e'.kids[path[0]], path[1..]);
    }
  }

  lemma {:induction false} TreeRefsSame(fold: Fold, f: Resolver, part: Part, e: Expr, e': Expr, paths: seq<Path>)
    requires Respects(fold, f) && SameTree(fold, e, e')
    requires forall i :: 0 <= i < |paths| ==> ColumnAt(e, paths[i])
    ensures forall i :: 0 <= i < |paths| ==> ColumnAt(e', paths[i])
    ensures TreeRefs(f, part, e, paths) == TreeRefs(f, part, e', paths)
  {
    forall i | 0 <= i < |paths| {
      AtSame(fold, e, e', paths[i]);
    }
    if paths != [] {
      assert ColumnAt(e, paths[0]);
      TreeRefsSame(fold, f, part, e, e', paths[1..]);
    }
  }

  lemma {:induction false} QualifiedSame(fold: Fold, f: Resolver, e: Expr, e': Expr)
    requires Respects(fold, f) && SameTree(fold, e, e') && Everywhere(e, (k: Kind) => Resolves(f, k))
    ensures MapKinds(e, (k: Kind) => Qualified(f, k)) == MapKinds(e', (k: Kind) => Qualified(f, k))
  {
    forall i | 0 <= i < |e.kids| {
      QualifiedSame(fold, f, e.kids[i], e'.kids[i]);
    }
    assert Resolves(f, e.kind);
  }

  lemma TreeSame(fold: Fold, f: Resolver, part: Part, e: Expr, e': Expr)
    requires Respects(fold, f) && SameTree(fold, e, e')
    ensures AnalyzeTree(f, part, e) == AnalyzeTree(f, part, e')
  {
    ColumnPathsSame(fold, e, e');
    ColumnPathsComplete(e);
    assert forall i :: 0 <= i < |ColumnPaths(e)| ==> ColumnPaths(e)[i] in ColumnPaths(e);
    TreeRefsSame(fold, f, part, e, e', ColumnPaths(e));
    if AnalyzeTree(f, part, e).Ok? {
      AnalyzeTreeResolves(f, part, e);
      QualifiedSame(fold, f, e, e');
    }
  }

  // ----- The clauses

  lemma {:induction false} JoinsSame(fold: Fold, f: Resolver, js: seq<Join>, js': seq<Join>, from: nat)
    requires Respects(fold, f) && SameJoins(fold, js, js') && from <= |js|
    ensures AnalyzeJoins(f, js, from) == AnalyzeJoins(f, js', from)
    decreases |js| - from
  {
    if from < |js| {
      JoinsSame(fold, f, js, js', from + 1);
      assert SameJoin(fold, js[from], js'[from]);
      if js[from].on.Some? {
        TreeSame(fold, f, InOn(from), js[from].on.value, js'[from].on.value);
      }
    }
  }

  lemma {:induction false} KeysSame(fold: Fold, f: Resolver, ks: seq<OrderKey>, ks': seq<OrderKey>, from: nat)
    requires Respects(fold, f) && SameKeys(fold, ks, ks') && from <= |ks|
    ensures AnalyzeOrder(f, ks, from) == AnalyzeOrder(f, ks', from)
    decreases |ks| - from
  {
    if from < |ks| {
      KeysSame(fold, f, ks, ks', from + 1);
      assert SameKey(fold, ks[from], ks'[from]);
      TreeSame(fold, f, InOrder(from), ks[from].target, ks'[from].target);
    }
  }

  lemma {:induction false} ColumnFreeSame(fold: Fold, e: Expr, e': Expr)
    requires SameTree(fold, e, e') && ColumnFree(e)
    ensures e' == e
  {
    forall i | 0 <= i < |e.kids| {
      ColumnFreeSame(fold, e.kids[i], e'.kids[i]);
    }
  }

  /** The outcome for an item: the same, but for the spelling of columns that it hides. */
  ghost predicate SameItemOutcome(fold: Fold, a: Result<ItemAnalysis>, b: Result<ItemAnalysis>) {
    if a.Rejected? then b == a
    else b.Ok? && b.value.output == a.value.output && b.value.refs == a.value.refs
         && SameItem(fold, a.value.item, b.value.item)
  }

  lemma {:induction false} TreeIsSame(fold: Fold, e: Expr)
    ensures SameTree(fold, e, e)
  {
    forall i | 0 <= i < |e.kids| {
      TreeIsSame(fold, e.kids[i]);
    }
  }

  lemma ItemSame(fold: Fold, f: Resolver, p: Projection, p': Projection, index: nat)
    requires Respects(fold, f) && SameItem(fold, p, p')
    ensures SameItemOutcome(fold, AnalyzeItem(f, p, index), AnalyzeItem(f, p', index))
    ensures p.Item? && InSight(p.value) ==> AnalyzeItem(f, p, index) == AnalyzeItem(f, p', index)
  {
    if p.Item? {
      assert SameTree(fold, p.value, p'.value);
      if p.value.kind.Column? {
        assert f(p.value.kind.table, p.value.kind.name) == f(p'.value.kind.table, p'.value.kind.name);
        var a := AnalyzeItem(f, p, index);
        assert AnalyzeItem(f, p', index) == a;
        if a.Ok? {
          TreeIsSame(fold, a.value.item.value);
        }
      } else if InSight(p.value) {
        ColumnFreeSame(fold, p.value, p'.value);
      }
    }
  }

  ghost predicate SameProjected(fold: Fold, a: Result<Projected>, b: Result<Projected>) {
    if a.Rejected? then b == a
    else b.Ok? && b.value.outputs == a.value.outputs && b.value.refs == a.value.refs
         && SameItems(fold, a.value.items, b.value.items)
  }

  /** The values of these items are columns, or have none below them. */
  predicate ItemsInSight(ps: seq<Projection>) {
    forall i :: 0 <= i < |ps| && ps[i].Item? ==> InSight(ps[i].value)
  }

  lemma {:induction false} ProjectionsSame(fold: Fold, f: Resolver, ps: seq<Projection>, ps': seq<Projection>,
                                           from: nat)
    requires Respects(fold, f) && SameItems(fold, ps, ps') && from <= |ps|
    requires forall i :: 0 <= i < |ps| ==> ps[i].Item?
    ensures SameProjected(fold, AnalyzeProjections(f, ps, from), AnalyzeProjections(f, ps', from))
    ensures ItemsInSight(ps) ==> AnalyzeProjections(f, ps, from) == AnalyzeProjections(f, ps', from)
    decreases |ps| - from
  {
    if from < |ps| {
      ProjectionsSame(fold, f, ps, ps', from + 1);
      assert SameItem(fold, ps[from], ps'[from]);
      ItemSame(fold, f, ps[from], ps'[from], from);
      var a, b := AnalyzeItem(f, ps[from], from), AnalyzeItem(f, ps'[from], from);
      var rest, rest' := AnalyzeProjections(f, ps, from + 1), AnalyzeProjections(f, ps', from + 1);
      if a.Ok? && rest.Ok? {
        SameItemsPrepend(fold, a.value.item, b.value.item, rest.value.items, rest'.value.items);
      }
    }
  }

  lemma SameItemsPrepend(fold: Fold, p: Projection, p': Projection, ps: seq<Projection>, ps': seq<Projection>)
    requires SameItem(fold, p, p') && SameItems(fold, ps, ps')
    ensures SameItems(fold, [p] + ps, [p'] + ps')
  {
  }

  ghost predicate SameExpansion(fold: Fold, a: Result<seq<Projection>>, b: Result<seq<Projection>>) {
    if a.Rejected? then b == a else b.Ok? && SameItems(fold, a.value, b.value)
  }

  lemma ItemsAreSame(fold: Fold, ps: seq<Projection>)
    ensures SameItems(fold, ps, ps)
  {
    forall i | 0 <= i < |ps|
      ensures SameItem(fold, ps[i], ps[i])
    {
      if ps[i].Item? {
        TreeIsSame(fold, ps[i].value);
      }
    }
  }

  lemma ExpandItemSame(fold: Fold, scope: seq<Binding>, p: Projection, p': Projection)
    requires SameItem(fold, p, p')
    ensures SameExpansion(fold, ExpandItem(fold, scope, p), ExpandItem(fold, scope, p'))
  {
    if p.TableColumns? {
      FilterSame(scope, BindingNamed(fold, p.table), BindingNamed(fold, p'.table));
    }
    if !p.Item? && ExpandItem(fold, scope, p).Ok? {
      ItemsAreSame(fold, ExpandItem(fold, scope, p).value);
    }
  }

  lemma {:induction false} ExpandSame(fold: Fold, scope: seq<Binding>, ps: seq<Projection>, ps': seq<Projection>)
    requires SameItems(fold, ps, ps')
    ensures SameExpansion(fold, ExpandStars(fold, scope, ps), ExpandStars(fold, scope, ps'))
  {
    if ps != [] {
      assert SameItem(fold, ps[0], ps'[0]);
      ExpandItemSame(fold, scope, ps[0], ps'[0]);
      assert forall i :: 0 <= i < |ps[1..]| ==> ps[1..][i] == ps[i + 1] && ps'[1..][i] == ps'[i + 1];
      ExpandSame(fold, scope, ps[1..], ps'[1..]);
    }
  }

  // ----- Limits and allowlist

  lemma {:induction false} CountSame(fold: Fold, e: Expr, e': Expr)
    requires SameTree(fold, e, e')
    ensures ExprCount(e) == ExprCount(e')
    decreases e, 0
  {
    CountsSame(fold, e.kids, e'.kids);
  }

  lemma {:induction false} CountsSame(fold: Fold, es: seq<Expr>, es': seq<Expr>)
    requires |es| == |es'| && forall i :: 0 <= i < |es| ==> SameTree(fold, es[i], es'[i])
    ensures ExprCounts(es) == ExprCounts(es')
    decreases es, 1
  {
    if es != [] {
      CountSame(fold, es[0], es'[0]);
      CountsSame(fold, es[1..], es'[1..]);
    }
  }

  lemma {:induction false} TotalSame<T>(s: seq<T>, s': seq<T>, f: T -> nat)
    requires |s| == |s'| && forall i :: 0 <= i < |s| ==> f(s[i]) == f(s'[i])
    ensures Total(s, f) == Total(s', f)
  {
    if s != [] {
      TotalSame(s[1..], s'[1..], f);
    }
  }

  lemma NodeCountSame(fold: Fold, q: Query, q': Query)
    requires SameStatement(fold, q, q')
    requires forall i :: 0 <= i < |q.expressions| ==> q.expressions[i].Item?
    ensures NodeCount(q) == NodeCount(q')
  {
    forall i | 0 <= i < |q.expressions|
      ensures ProjectionCount(q.expressions[i]) == ProjectionCount(q'.expressions[i])
    {
      assert SameItem(fold, q.expressions[i], q'.expressions[i]);
      CountSame(fold, q.expressions[i].value, q'.expressions[i].value);
    }
    forall j | 0 <= j < |q.joins|
      ensures JoinCount(q.joins[j]) == JoinCount(q'.joins[j])
    {
      assert SameJoin(fold, q.joins[j], q'.joins[j]);
      if q.joins[j].on.Some? {
        CountSame(fold, q.joins[j].on.value, q'.joins[j].on.value);
      }
    }
    forall k | 0 <= k < |q.order|
      ensures KeyCount(q.order[k]) == KeyCount(q'.order[k])
    {
      assert SameKey(fold, q.order[k], q'.order[k]);
      CountSame(fold, q.order[k].target, q'.order[k].target);
    }
    TotalSame(q.expressions, q'.expressions, ProjectionCount);
    TotalSame(q.joins, q'.joins, JoinCount);
    TotalSame(q.order, q'.order, KeyCount);
    if q.where_.Some? {
      CountSame(fold, q.where_.value, q'.where_.value);
    }
  }

  lemma {:induction false} ShapeSame(fold: Fold, e: Expr, e': Expr, max: nat, binds: bool)
    requires SameTree(fold, e, e')
    ensures InListsFit(e, max) <==> InListsFit(e', max)
    ensures AllowedExpr(e, binds) <==> AllowedExpr(e', binds)
  {
    forall i | 0 <= i < |e.kids| {
      ShapeSame(fold, e.kids[i], e'.kids[i], max, binds);
    }
    NodeSame(fold, e, e', binds);
  }

  lemma NodeSame(fold: Fold, e: Expr, e': Expr, binds: bool)
    requires SameTree(fold, e, e')
    ensures AllowedNode(e, binds) <==> AllowedNode(e', binds)
  {
    forall i | 0 <= i < |e.kids|
      ensures SameKind(fold, e.kids[i].kind, e'.kids[i].kind)
    {
      assert SameTree(fold, e.kids[i], e'.kids[i]);
    }
  }

  lemma EveryExprSame(fold: Fold, q: Query, q': Query, p: Expr -> bool)
    requires SameStatement(fold, q, q')
    requires forall e, e' :: SameTree(fold, e, e') ==> p(e) == p(e')
    ensures EveryExpr(q, p) <==> EveryExpr(q', p)
  {
    forall i | 0 <= i < |q.expressions|
      ensures SameItem(fold, q.expressions[i], q'.expressions[i])
    {
    }
    forall j | 0 <= j < |q.joins|
      ensures SameJoin(fold, q.joins[j], q'.joins[j])
    {
    }
    forall k | 0 <= k < |q.order|
      ensures SameKey(fold, q.order[k], q'.order[k])
    {
    }
  }

  lemma ListsSame(fold: Fold, q: Query, q': Query, max: nat)
    requires SameStatement(fold, q, q')
    ensures InLists(q, max) <==> InLists(q', max)
  {
    forall e, e' | SameTree(fold, e, e')
      ensures InListsFit(e, max) == InListsFit(e', max)
    {
      ShapeSame(fold, e, e', max, false);
    }
    EveryExprSame(fold, q, q', e => InListsFit(e, max));
  }

  lemma LimitsSame(fold: Fold, q: Query, q': Query, limits: Limits)
    requires SameStatement(fold, q, q')
    requires forall i :: 0 <= i < |q.expressions| ==> q.expressions[i].Item?
    ensures CheckLimits(q, limits) == CheckLimits(q', limits)
  {
    NodeCountSame(fold, q, q');
    ListsSame(fold, q, q', limits.maxInItems);
  }

  lemma AllowedSame(fold: Fold, q: Query, q': Query)
    requires SameStatement(fold, q, q')
    ensures Allowed(q, false) <==> Allowed(q', false)
  {
    forall e, e' | SameTree(fold, e, e')
      ensures AllowedExpr(e, false) == AllowedExpr(e', false)
    {
      ShapeSame(fold, e, e', 0, false);
    }
    EveryExprSame(fold, q, q', e => AllowedExpr(e, false));
    forall i | 0 <= i < |q.expressions|
      ensures AllowedProjection(q.expressions[i]) <==> AllowedProjection(q'.expressions[i])
    {
      assert SameItem(fold, q.expressions[i], q'.expressions[i]);
    }
    forall j | 0 <= j < |q.joins|
      ensures AllowedJoin(q.joins[j]) <==> AllowedJoin(q'.joins[j])
    {
      assert SameJoin(fold, q.joins[j], q'.joins[j]);
    }
    forall k | 0 <= k < |q.order|
      ensures AllowedKey(q.order[k]) <==> AllowedKey(q'.order[k])
    {
      assert SameKey(fold, q.order[k], q'.order[k]) && SameKind(fold, q.order[k].target.kind, q'.order[k].target.kind);
    }
  }

  // ----- The whole analysis

  /** The same refusal, or the same outputs and references and statements that differ in the spelling of
      hidden columns. */
  ghost predicate SameAnalysis(fold: Fold, a: Result<AnalyzedQuery>, b: Result<AnalyzedQuery>) {
    if a.Rejected? then b == a
    else b.Ok? && b.value.outputs == a.value.outputs && b.value.references == a.value.references
         && SameStatement(fold, a.value.query, b.value.query)
  }

  lemma ClausesSame(fold: Fold, scope: seq<Binding>, q: Query, q': Query)
    requires SameStatement(fold, q, q') && forall i :: 0 <= i < |q.expressions| ==> q.expressions[i].Item?
    ensures var f, g := ColumnResolver(fold, scope), OrderResolvers(fold, scope);
      && SameAnalysis(fold, AnalyzeClauses(f, g, q), AnalyzeClauses(f, g, q'))
      && (ItemsInSight(q.expressions) ==> AnalyzeClauses(f, g, q) == AnalyzeClauses(f, g, q'))
  {
    var f, g := ColumnResolver(fold, scope), OrderResolvers(fold, scope);
    ResolversRespect(fold, scope, []);
    ProjectionsSame(fold, f, q.expressions, q'.expressions, 0);
    JoinsSame(fold, f, q.joins, q'.joins, 0);
    if q.where_.Some? {
      TreeSame(fold, f, InWhere, q.where_.value, q'.where_.value);
    }
    assert AnalyzeWhere(f, q.where_) == AnalyzeWhere(f, q'.where_);
    var ps := AnalyzeProjections(f, q.expressions, 0);
    if ps.Ok? {
      ResolversRespect(fold, scope, ps.value.outputs);
      KeysSame(fold, g(ps.value.outputs), q.order, q'.order, 0);
    }
    var a := AnalyzeClauses(f, g, q);
    if a.Ok? {
      ClausesParts(f, g, q);
      AnalyzedIsSame(fold, a.value.query, AnalyzeClauses(f, g, q').value.query);
    }
  }

  lemma AnalyzedIsSame(fold: Fold, q: Query, q': Query)
    requires q' == q.(expressions := q'.expressions) && SameItems(fold, q.expressions, q'.expressions)
    ensures SameStatement(fold, q, q')
  {
    forall j | 0 <= j < |q.joins| && q.joins[j].on.Some? {
      TreeIsSame(fold, q.joins[j].on.value);
    }
    if q.where_.Some? {
      TreeIsSame(fold, q.where_.value);
    }
    forall k | 0 <= k < |q.order| {
      TreeIsSame(fold, q.order[k].target);
    }
  }

  /** The cross check does not look at how columns are spelled. */
  ghost predicate BlindToSpelling(fold: Fold, cross: CrossCheck, schemas: seq<TableSchema>) {
    forall q, q' :: SameStatement(fold, q, q') ==> cross(q, schemas) == cross(q', schemas)
  }

  lemma {:induction false} ExpandedInSight(fold: Fold, scope: seq<Binding>, ps: seq<Projection>)
    requires ExpandStars(fold, scope, ps).Ok? && ItemsInSight(ps)
    ensures ItemsInSight(ExpandStars(fold, scope, ps).value)
  {
    if ps != [] {
      assert forall i :: 0 <= i < |ps[1..]| ==> ps[1..][i] == ps[i + 1];
      ExpandedInSight(fold, scope, ps[1..]);
      AllColumnItemsAreItems(scope);
    }
  }

  /** MAIN RESULT. Statements that differ in the spelling of the columns they name have the same analysis:
      the same refusal, or the same rewritten statement, outputs and references. Columns hidden in the
      select list are sent as they are written; but for them the rewritten statements are equal. */
  lemma AnalysisIgnoresSpelling(fold: Fold, cross: CrossCheck, limits: Limits, q: Query, q': Query,
                                schemas: seq<TableSchema>)
    requires SameStatement(fold, q, q') && (ColumnsInSight(q) || BlindToSpelling(fold, cross, schemas))
    ensures SameAnalysis(fold, Analyze(fold, cross, limits, q, schemas), Analyze(fold, cross, limits, q', schemas))
    ensures ColumnsInSight(q) ==>
      Analyze(fold, cross, limits, q, schemas) == Analyze(fold, cross, limits, q', schemas)
  {
    SameTables(fold, q, q');
    if Collect(fold, q, schemas).Ok? {
      var scope := Collect(fold, q, schemas).value;
      ExpandSame(fold, scope, q.expressions, q'.expressions);
      if ExpandStars(fold, scope, q.expressions).Ok? {
        WorkingSame(fold, cross, limits, q, q', scope, schemas);
      }
    }
  }

  lemma SameTables(fold: Fold, q: Query, q': Query)
    requires SameStatement(fold, q, q')
    ensures TableRefs(q) == TableRefs(q')
  {
    forall j | 0 <= j < |q.joins|
      ensures q'.joins[j].table == q.joins[j].table
    {
      assert SameJoin(fold, q.joins[j], q'.joins[j]);
    }
  }

  /** The checks after the stars are expanded. */
  function Checked(cross: CrossCheck, schemas: seq<TableSchema>, limits: Result<()>,
                   analyzed: Result<AnalyzedQuery>): Result<AnalyzedQuery> {
    if limits.Rejected? then Rejected(limits.reason)
    else if analyzed.Rejected? then analyzed
    else if !Allowed(analyzed.value.query, false) then Rejected(NotAllowed)
    else if !cross(analyzed.value.query, schemas) then Rejected(QualifyFailed)
    else analyzed
  }

  lemma AnalyzeIsChecked(fold: Fold, cross: CrossCheck, limits: Limits, q: Query, scope: seq<Binding>,
                         schemas: seq<TableSchema>)
    requires Collect(fold, q, schemas) == Ok(scope) && ExpandStars(fold, scope, q.expressions).Ok?
    ensures var working := q.(expressions := ExpandStars(fold, scope, q.expressions).value);
      Analyze(fold, cross, limits, q, schemas) ==
      Checked(cross, schemas, CheckLimits(working, limits),
              AnalyzeClauses(ColumnResolver(fold, scope), OrderResolvers(fold, scope), working))
  {
  }

  lemma CheckedSame(fold: Fold, cross: CrossCheck, schemas: seq<TableSchema>, limits: Result<()>,
                    a: Result<AnalyzedQuery>, b: Result<AnalyzedQuery>)
    requires SameAnalysis(fold, a, b) && (a == b || BlindToSpelling(fold, cross, schemas))
    ensures SameAnalysis(fold, Checked(cross, schemas, limits, a), Checked(cross, schemas, limits, b))
  {
    if a.Ok? {
      AllowedSame(fold, a.value.query, b.value.query);
    }
  }

  lemma WorkingSame(fold: Fold, cross: CrossCheck, limits: Limits, q: Query, q': Query, scope: seq<Binding>,
                    schemas: seq<TableSchema>)
    requires SameStatement(fold, q, q') && (ColumnsInSight(q) || BlindToSpelling(fold, cross, schemas))
    requires Collect(fold, q, schemas) == Ok(scope) && Collect(fold, q', schemas) == Ok(scope)
    requires ExpandStars(fold, scope, q.expressions).Ok? && ExpandStars(fold, scope, q'.expressions).Ok?
    requires SameItems(fold, ExpandStars(fold, scope, q.expressions).value,
                       ExpandStars(fold, scope, q'.expressions).value)
    ensures SameAnalysis(fold, Analyze(fold, cross, limits, q, schemas), Analyze(fold, cross, limits, q', schemas))
    ensures ColumnsInSight(q) ==>
      Analyze(fold, cross, limits, q, schemas) == Analyze(fold, cross, limits, q', schemas)
  {
    var working := q.(expressions := ExpandStars(fold, scope, q.expressions).value);
    var working' := q'.(expressions := ExpandStars(fold, scope, q'.expressions).value);
    assert SameStatement(fold, working, working');
    ExpandedItems(fold, scope, q.expressions);
    if ColumnsInSight(q) {
      ExpandedInSight(fold, scope, q.expressions);
    }
    LimitsSame(fold, working, working', limits);
    ClausesSame(fold, scope, working, working');
    AnalyzeIsChecked(fold, cross, limits, q, scope, schemas);
    AnalyzeIsChecked(fold, cross, limits, q', scope, schemas);
    CheckedSame(fold, cross, schemas, CheckLimits(working, limits),
                AnalyzeClauses(ColumnResolver(fold, scope), OrderResolvers(fold, scope), working),
                AnalyzeClauses(ColumnResolver(fold, scope), OrderResolvers(fold, scope), working'));
  }
}
