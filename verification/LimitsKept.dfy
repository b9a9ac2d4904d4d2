/** The rewrites stay inside the allowlist, and the limits are accounted for: after the parsed query
    has passed, a later check can refuse it only for its number of nodes, and that number is known. */
module LimitsKept {
  import opened Outcomes
  import opened Ast
  import opened Scope
  import opened Sequences
  import opened Allowlist
  import opened Lineage
  import opened LineageFacts
  import opened LineageComplete
  import opened Policy
  import opened PolicyFacts
  import opened AnalysisMeaning
  import opened BindText
  import opened Issue
  import opened BindFacts

  // ----- What the rewrites do to one node

  /** A column is qualified, or, when binds are made, a text becomes a placeholder. */
  predicate Recast(binds: bool, k: Kind, k': Kind) {
    k' == k || (k.Column? && k'.Column? && k'.table != "") || (binds && k.Text? && k'.Placeholder?)
  }

  ghost predicate Rewritten(binds: bool, e: Expr, e': Expr) {
    && Recast(binds, e.kind, e'.kind)
    && |e'.kids| == |e.kids|
    && forall i :: 0 <= i < |e.kids| ==> Rewritten(binds, e.kids[i], e'.kids[i])
  }

  lemma {:induction false} RewrittenAllowed(binds: bool, e: Expr, e': Expr)
    requires Rewritten(binds, e, e') && AllowedExpr(e, false)
    ensures AllowedExpr(e', binds)
  {
    forall i | 0 <= i < |e.kids|
      ensures AllowedExpr(e'.kids[i], binds) && Recast(binds, e.kids[i].kind, e'.kids[i].kind)
    {
      RewrittenAllowed(binds, e.kids[i], e'.kids[i]);
    }
  }

  lemma {:induction false} RewrittenFits(binds: bool, e: Expr, e': Expr, max: nat)
    requires Rewritten(binds, e, e')
    ensures InListsFit(e, max) <==> InListsFit(e', max)
  {
    forall i | 0 <= i < |e.kids| {
      RewrittenFits(binds, e.kids[i], e'.kids[i], max);
    }
  }

  // ----- Counting

  /** The unqualified columns of an expression. */
  function Unqualified(e: Expr): nat
    decreases e, 0
  {
    (if e.kind.Column? && e.kind.table == "" then 1 else 0) + UnqualifiedIn(e.kids)
  }

  function UnqualifiedIn(es: seq<Expr>): nat
    decreases es, 1
  {
    if es == [] then 0 else Unqualified(es[0]) + UnqualifiedIn(es[1..])
  }

  /** Qualifying a column adds its qualifier, and nothing else changes the count. */
  lemma {:induction false} RewrittenCount(binds: bool, e: Expr, e': Expr)
    requires Rewritten(binds, e, e')
    ensures ExprCount(e') + Unqualified(e') == ExprCount(e) + Unqualified(e)
    ensures Unqualified(e') <= Unqualified(e)
    decreases e, 0
  {
    RewrittenCounts(binds, e.kids, e'.kids);
  }

  lemma {:induction false} RewrittenCounts(binds: bool, es: seq<Expr>, es': seq<Expr>)
    requires |es'| == |es| && forall i :: 0 <= i < |es| ==> Rewritten(binds, es[i], es'[i])
    ensures ExprCounts(es') + UnqualifiedIn(es') == ExprCounts(es) + UnqualifiedIn(es)
    ensures UnqualifiedIn(es') <= UnqualifiedIn(es)
    decreases es, 1
  {
    if es != [] {
      RewrittenCount(binds, es[0], es'[0]);
      RewrittenCounts(binds, es[1..], es'[1..]);
    }
  }

  function UnqualifiedItem(p: Projection): nat {
    if p.Item? then Unqualified(p.value) else 0
  }

  function UnqualifiedJoin(j: Join): nat {
    if j.on.None? then 0 else Unqualified(j.on.value)
  }

  function UnqualifiedKey(k: OrderKey): nat {
    Unqualified(k.target)
  }

  function UnqualifiedColumns(q: Query): nat {
    Total(q.expressions, UnqualifiedItem) + Total(q.joins, UnqualifiedJoin)
    + (if q.where_.None? then 0 else Unqualified(q.where_.value)) + Total(q.order, UnqualifiedKey)
  }

  // ----- Whole queries

  ghost predicate OptionRewritten(binds: bool, e: Option<Expr>, e': Option<Expr>) {
    (e.Some? <==> e'.Some?) && (e.Some? ==> Rewritten(binds, e.value, e'.value))
  }

  ghost predicate ItemRewritten(binds: bool, p: Projection, p': Projection) {
    if p.Item? then p'.Item? && p'.alias == p.alias && Rewritten(binds, p.value, p'.value)
      && (Direct(p.value.kind) ==> Direct(p'.value.kind))
    else p' == p || (p.TableColumns? && p'.TableColumns?)
  }

  ghost predicate JoinRewritten(binds: bool, j: Join, j': Join) {
    j' == j.(on := j'.on) && OptionRewritten(binds, j.on, j'.on)
  }

  ghost predicate KeyRewritten(binds: bool, k: OrderKey, k': OrderKey) {
    k' == k.(target := k'.target) && Rewritten(binds, k.target, k'.target)
  }

  ghost predicate QueryRewritten(binds: bool, q: Query, q': Query) {
    && q' == q.(expressions := q'.expressions, joins := q'.joins, where_ := q'.where_, order := q'.order)
    && |q'.expressions| == |q.expressions|
    && (forall i :: 0 <= i < |q.expressions| ==> ItemRewritten(binds, q.expressions[i], q'.expressions[i]))
    && |q'.joins| == |q.joins| && (forall j :: 0 <= j < |q.joins| ==> JoinRewritten(binds, q.joins[j], q'.joins[j]))
    && OptionRewritten(binds, q.where_, q'.where_)
    && |q'.order| == |q.order| && (forall k :: 0 <= k < |q.order| ==> KeyRewritten(binds, q.order[k], q'.order[k]))
  }

  /** What holds of every expression of the query holds of the rewritten ones, if the rewrite keeps it. */
  lemma RewrittenEvery(binds: bool, q: Query, q': Query, p: Expr -> bool, p': Expr -> bool)
    requires QueryRewritten(binds, q, q') && EveryExpr(q, p)
    requires forall e, e' :: Rewritten(binds, e, e') && p(e) ==> p'(e')
    ensures EveryExpr(q', p')
  {
    forall i | 0 <= i < |q'.expressions| && q'.expressions[i].Item?
      ensures p'(q'.expressions[i].value)
    {
      assert ItemRewritten(binds, q.expressions[i], q'.expressions[i]);
    }
    forall j | 0 <= j < |q'.joins| && q'.joins[j].on.Some?
      ensures p'(q'.joins[j].on.value)
    {
      assert JoinRewritten(binds, q.joins[j], q'.joins[j]);
    }
    forall k | 0 <= k < |q'.order|
      ensures p'(q'.order[k].target)
    {
      assert KeyRewritten(binds, q.order[k], q'.order[k]);
    }
  }

  ghost function AllowedIn(binds: bool): Expr -> bool {
    e => AllowedExpr(e, binds)
  }

  ghost function FitIn(max: nat): Expr -> bool {
    e => InListsFit(e, max)
  }

  /** A rewritten query is allowed, with binds if the rewrite makes them. */
  lemma RewrittenQueryAllowed(binds: bool, q: Query, q': Query)
    requires QueryRewritten(binds, q, q') && Allowed(q, false)
    ensures Allowed(q', binds)
  {
    forall e, e' | Rewritten(binds, e, e') && AllowedExpr(e, false)
      ensures AllowedExpr(e', binds)
    {
      RewrittenAllowed(binds, e, e');
    }
    assert EveryExpr(q, AllowedIn(false));
    RewrittenEvery(binds, q, q', AllowedIn(false), AllowedIn(binds));
    assert EveryExpr(q', e => AllowedExpr(e, binds));
    forall i | 0 <= i < |q'.expressions|
      ensures AllowedProjection(q'.expressions[i])
    {
      assert ItemRewritten(binds, q.expressions[i], q'.expressions[i]) && AllowedProjection(q.expressions[i]);
    }
    forall j | 0 <= j < |q'.joins|
      ensures AllowedJoin(q'.joins[j])
    {
      assert JoinRewritten(binds, q.joins[j], q'.joins[j]) && AllowedJoin(q.joins[j]);
    }
    forall k | 0 <= k < |q'.order|
      ensures AllowedKey(q'.order[k])
    {
      assert KeyRewritten(binds, q.order[k], q'.order[k]) && AllowedKey(q.order[k]);
      assert AllowedExpr(q.order[k].target, false);
    }
  }

  /** The IN lists of a rewritten query are as long as before. */
  lemma RewrittenQueryFits(binds: bool, q: Query, q': Query, max: nat)
    requires QueryRewritten(binds, q, q') && InLists(q, max)
    ensures InLists(q', max)
  {
    forall e, e' | Rewritten(binds, e, e') && InListsFit(e, max)
      ensures InListsFit(e', max)
    {
      RewrittenFits(binds, e, e', max);
    }
    assert EveryExpr(q, FitIn(max));
    RewrittenEvery(binds, q, q', FitIn(max), FitIn(max));
    assert EveryExpr(q', e => InListsFit(e, max));
  }

  lemma {:induction false} TotalsMove<T>(s: seq<T>, s': seq<T>, count: T -> nat, free: T -> nat)
    requires |s'| == |s|
    requires forall i :: 0 <= i < |s| ==>
      count(s'[i]) + free(s'[i]) == count(s[i]) + free(s[i]) && free(s'[i]) <= free(s[i])
    ensures Total(s', count) + Total(s', free) == Total(s, count) + Total(s, free)
    ensures Total(s', free) <= Total(s, free)
  {
    if s != [] {
      TotalsMove(s[1..], s'[1..], count, free);
    }
  }

  lemma RewrittenItemCount(binds: bool, p: Projection, p': Projection)
    requires ItemRewritten(binds, p, p')
    ensures ProjectionCount(p') + UnqualifiedItem(p') == ProjectionCount(p) + UnqualifiedItem(p)
    ensures UnqualifiedItem(p') <= UnqualifiedItem(p)
  {
    if p.Item? {
      RewrittenCount(binds, p.value, p'.value);
    }
  }

  lemma RewrittenJoinCount(binds: bool, j: Join, j': Join)
    requires JoinRewritten(binds, j, j')
    ensures JoinCount(j') + UnqualifiedJoin(j') == JoinCount(j) + UnqualifiedJoin(j)
    ensures UnqualifiedJoin(j') <= UnqualifiedJoin(j)
  {
    if j.on.Some? {
      RewrittenCount(binds, j.on.value, j'.on.value);
    }
  }

  lemma RewrittenKeyCount(binds: bool, k: OrderKey, k': OrderKey)
    requires KeyRewritten(binds, k, k')
    ensures KeyCount(k') + UnqualifiedKey(k') == KeyCount(k) + UnqualifiedKey(k)
    ensures UnqualifiedKey(k') <= UnqualifiedKey(k)
  {
    RewrittenCount(binds, k.target, k'.target);
  }

  /** MAIN RESULT. A rewrite moves the node count by exactly the columns it qualifies. */
  lemma RewrittenQueryCount(binds: bool, q: Query, q': Query)
    requires QueryRewritten(binds, q, q')
    ensures NodeCount(q') + UnqualifiedColumns(q') == NodeCount(q) + UnqualifiedColumns(q)
    ensures UnqualifiedColumns(q') <= UnqualifiedColumns(q)
  {
    forall i | 0 <= i < |q.expressions|
      ensures ProjectionCount(q'.expressions[i]) + UnqualifiedItem(q'.expressions[i])
        == ProjectionCount(q.expressions[i]) + UnqualifiedItem(q.expressions[i])
      ensures UnqualifiedItem(q'.expressions[i]) <= UnqualifiedItem(q.expressions[i])
    {
      RewrittenItemCount(binds, q.expressions[i], q'.expressions[i]);
    }
    TotalsMove(q.expressions, q'.expressions, ProjectionCount, UnqualifiedItem);
    forall j | 0 <= j < |q.joins|
      ensures JoinCount(q'.joins[j]) + UnqualifiedJoin(q'.joins[j])
        == JoinCount(q.joins[j]) + UnqualifiedJoin(q.joins[j])
      ensures UnqualifiedJoin(q'.joins[j]) <= UnqualifiedJoin(q.joins[j])
    {
      RewrittenJoinCount(binds, q.joins[j], q'.joins[j]);
    }
    TotalsMove(q.joins, q'.joins, JoinCount, UnqualifiedJoin);
    if q.where_.Some? {
      RewrittenCount(binds, q.where_.value, q'.where_.value);
    }
    forall k | 0 <= k < |q.order|
      ensures KeyCount(q'.order[k]) + UnqualifiedKey(q'.order[k]) == KeyCount(q.order[k]) + UnqualifiedKey(q.order[k])
      ensures UnqualifiedKey(q'.order[k]) <= UnqualifiedKey(q.order[k])
    {
      RewrittenKeyCount(binds, q.order[k], q'.order[k]);
    }
    TotalsMove(q.order, q'.order, KeyCount, UnqualifiedKey);
  }

  // ----- Analysis is such a rewrite

  /** Every name the resolver gives is qualified. */
  ghost predicate Qualifies(f: Resolver) {
    forall table, name :: f(table, name).Ok? ==> f(table, name).value.binding.name != ""
  }

  lemma CanonicalQualifies(fold: Fold, scope: seq<Binding>, f: Resolver)
    requires NamedBindings(scope) && CanonicalResolver(fold, scope, f)
    ensures Qualifies(f)
  {
    forall table, name | f(table, name).Ok?
      ensures f(table, name).value.binding.name != ""
    {
      var r := f(table, name).value;
      assert Canonical(fold, scope, r);
    }
  }

  lemma {:induction false} MappedIsRewritten(f: Resolver, e: Expr)
    requires Qualifies(f)
    ensures Rewritten(false, e, MapKinds(e, (k: Kind) => Qualified(f, k)))
  {
    forall i | 0 <= i < |e.kids| {
      MappedIsRewritten(f, e.kids[i]);
    }
  }

  lemma {:induction false} ColumnFree(e: Expr)
    requires Everywhere(e, (k: Kind) => k.Column? ==> k.table != "")
    ensures Unqualified(e) == 0
    decreases e, 0
  {
    ColumnsFree(e.kids);
  }

  lemma {:induction false} ColumnsFree(es: seq<Expr>)
    requires forall i :: 0 <= i < |es| ==> Everywhere(es[i], (k: Kind) => k.Column? ==> k.table != "")
    ensures UnqualifiedIn(es) == 0
    decreases es, 1
  {
    if es != [] {
      ColumnFree(es[0]);
      ColumnsFree(es[1..]);
    }
  }

  lemma {:induction false} MappedEverywhere(f: Resolver, e: Expr)
    requires Qualifies(f) && Everywhere(e, (k: Kind) => Resolves(f, k))
    ensures Everywhere(MapKinds(e, (k: Kind) => Qualified(f, k)), (k: Kind) => k.Column? ==> k.table != "")
  {
    forall i | 0 <= i < |e.kids| {
      MappedEverywhere(f, e.kids[i]);
    }
  }

  lemma TreeRewritten(f: Resolver, part: Part, e: Expr)
    requires Qualifies(f) && AnalyzeTree(f, part, e).Ok?
    ensures Rewritten(false, e, AnalyzeTree(f, part, e).value.item)
    ensures Unqualified(AnalyzeTree(f, part, e).value.item) == 0
  {
    MappedIsRewritten(f, e);
    AnalyzeTreeResolves(f, part, e);
    MappedEverywhere(f, e);
    ColumnFree(AnalyzeTree(f, part, e).value.item);
  }

  lemma {:induction false} SameIsRewritten(binds: bool, e: Expr)
    ensures Rewritten(binds, e, e)
  {
    forall i | 0 <= i < |e.kids| {
      SameIsRewritten(binds, e.kids[i]);
    }
  }

  /** The unqualified columns that a select-list expression hides. */
  function HiddenItem(p: Projection): nat {
    if p.Item? && !p.value.kind.Column? then Unqualified(p.value) else 0
  }

  function HiddenUnqualified(q: Query): nat {
    Total(q.expressions, HiddenItem)
  }

  lemma AnalyzedItem(f: Resolver, p: Projection, index: nat)
    requires Qualifies(f) && AnalyzeItem(f, p, index).Ok?
    requires p.Item? ==> AllowedExpr(p.value, false)
    ensures ItemRewritten(false, p, AnalyzeItem(f, p, index).value.item)
    ensures UnqualifiedItem(AnalyzeItem(f, p, index).value.item) == HiddenItem(p)
  {
    if p.Item? {
      SameIsRewritten(false, p.value);
      if p.value.kind.Column? {
        assert p.value.kids == [] && UnqualifiedIn(p.value.kids) == 0;
      }
    }
  }

  lemma {:induction false} TotalsMatch<T>(s: seq<T>, s': seq<T>, f: T -> nat, g: T -> nat)
    requires |s'| == |s| && forall i :: 0 <= i < |s| ==> f(s'[i]) == g(s[i])
    ensures Total(s', f) == Total(s, g)
  {
    if s != [] {
      TotalsMatch(s[1..], s'[1..], f, g);
    }
  }

  lemma {:induction false} NoneUnqualified<T>(s: seq<T>, free: T -> nat)
    requires forall i :: 0 <= i < |s| ==> free(s[i]) == 0
    ensures Total(s, free) == 0
  {
    if s != [] {
      NoneUnqualified(s[1..], free);
    }
  }

  /** Analysing the clauses is a rewrite. */
  lemma ClausesRewritten(f: Resolver, g: seq<OutputColumn> -> Resolver, q: Query)
    requires AnalyzeClauses(f, g, q).Ok? && Qualifies(f) && Qualifies(g(AnalyzeClauses(f, g, q).value.outputs))
    requires forall i :: 0 <= i < |q.expressions| && q.expressions[i].Item? ==>
      AllowedExpr(q.expressions[i].value, false)
    ensures QueryRewritten(false, q, AnalyzeClauses(f, g, q).value.query)
  {
    ClausesParts(f, g, q);
    var a := AnalyzeClauses(f, g, q).value;
    ProjectionsPointwise(f, q.expressions, 0);
    forall i | 0 <= i < |q.expressions|
      ensures ItemRewritten(false, q.expressions[i], a.query.expressions[i])
    {
      AnalyzedItem(f, q.expressions[i], i);
    }
    JoinsAnalyzed(f, q.joins);
    forall j | 0 <= j < |q.joins|
      ensures JoinRewritten(false, q.joins[j], a.query.joins[j])
    {
      assert JoinAnalyzed(f, j, q.joins[j], a.query.joins[j]);
      if q.joins[j].on.Some? {
        TreeRewritten(f, InOn(j), q.joins[j].on.value);
      }
    }
    if q.where_.Some? {
      TreeRewritten(f, InWhere, q.where_.value);
    }
    OrderAnalyzed(g(a.outputs), q.order);
    forall k | 0 <= k < |q.order|
      ensures KeyRewritten(false, q.order[k], a.query.order[k])
    {
      assert KeyAnalyzed(g(a.outputs), k, q.order[k], a.query.order[k]);
      TreeRewritten(g(a.outputs), InOrder(k), q.order[k].target);
    }
  }

  /** Nothing is left unqualified but what the select list hides. */
  lemma ClausesQualified(f: Resolver, g: seq<OutputColumn> -> Resolver, q: Query)
    requires AnalyzeClauses(f, g, q).Ok? && Qualifies(f) && Qualifies(g(AnalyzeClauses(f, g, q).value.outputs))
    requires forall i :: 0 <= i < |q.expressions| && q.expressions[i].Item? ==>
      AllowedExpr(q.expressions[i].value, false)
    ensures var a := AnalyzeClauses(f, g, q).value;
      && UnqualifiedColumns(a.query) == HiddenUnqualified(q)
      && (a.query.where_.Some? ==> Unqualified(a.query.where_.value) == 0)
  {
    ClausesParts(f, g, q);
    var a := AnalyzeClauses(f, g, q).value;
    ProjectionsPointwise(f, q.expressions, 0);
    forall i | 0 <= i < |q.expressions|
      ensures UnqualifiedItem(a.query.expressions[i]) == HiddenItem(q.expressions[i])
    {
      AnalyzedItem(f, q.expressions[i], i);
    }
    TotalsMatch(q.expressions, a.query.expressions, UnqualifiedItem, HiddenItem);
    JoinsAnalyzed(f, q.joins);
    forall j | 0 <= j < |q.joins|
      ensures UnqualifiedJoin(a.query.joins[j]) == 0
    {
      assert JoinAnalyzed(f, j, q.joins[j], a.query.joins[j]);
      if q.joins[j].on.Some? {
        TreeRewritten(f, InOn(j), q.joins[j].on.value);
      }
    }
    NoneUnqualified(a.query.joins, UnqualifiedJoin);
    if q.where_.Some? {
      TreeRewritten(f, InWhere, q.where_.value);
    }
    OrderAnalyzed(g(a.outputs), q.order);
    forall k | 0 <= k < |q.order|
      ensures UnqualifiedKey(a.query.order[k]) == 0
    {
      assert KeyAnalyzed(g(a.outputs), k, q.order[k], a.query.order[k]);
      TreeRewritten(g(a.outputs), InOrder(k), q.order[k].target);
    }
    NoneUnqualified(a.query.order, UnqualifiedKey);
  }

  // ----- Expanding stars

  ghost function AllowedItem(max: nat): Projection -> bool {
    (p: Projection) => p.Item? ==> AllowedExpr(p.value, false) && AllowedProjection(p) && InListsFit(p.value, max)
  }

  /** Expanding stars adds plain columns only. */
  lemma ExpansionAllowed(fold: Fold, scope: seq<Binding>, q: Query, max: nat)
    requires Allowed(q, false) && InLists(q, max) && ExpandStars(fold, scope, q.expressions).Ok?
    ensures var working := q.(expressions := ExpandStars(fold, scope, q.expressions).value);
      Allowed(working, false) && InLists(working, max)
  {
    ExpandedGood(fold, scope, q.expressions, AllowedItem(max));
    var ps := ExpandStars(fold, scope, q.expressions).value;
    assert forall i :: 0 <= i < |ps| ==> AllowedItem(max)(ps[i]);
  }

  // ----- Binding tokens is such a rewrite, and so is the cap but for its own nodes

  lemma {:induction false} PatchedIsRewritten(e: Expr, here: Path, edits: map<Path, Kind>)
    requires forall path :: At(e, path).Some? && here + path in edits ==>
      At(e, path).value.kind.Text? && edits[here + path].Placeholder?
    ensures Rewritten(true, e, Patch(e, here, edits))
  {
    assert At(e, []) == Some(e) && here + [] == here;
    forall i | 0 <= i < |e.kids|
      ensures Rewritten(true, e.kids[i], Patch(e.kids[i], here + [i], edits))
    {
      forall path | At(e.kids[i], path).Some? && here + [i] + path in edits
        ensures At(e.kids[i], path).value.kind.Text? && edits[here + [i] + path].Placeholder?
      {
        assert At(e, [i] + path) == At(e.kids[i], path);
        assert here + ([i] + path) == here + [i] + path;
      }
      PatchedIsRewritten(e.kids[i], here + [i], edits);
    }
  }

  lemma BoundIsRewritten(p: PiiPolicy, q: Query, sites: seq<TokenSite>)
    requires SitesExact(p, q, sites)
    ensures QueryRewritten(true, q, BindTokens(q, sites))
  {
    var bound := BindTokens(q, sites);
    if q.where_.Some? {
      var e, edits := q.where_.value, BindEdits(sites, |sites|);
      SitesLocated(p, q, sites);
      BindEditsHold(sites, |sites|);
      forall path | At(e, path).Some? && [] + path in edits
        ensures At(e, path).value.kind.Text? && edits[[] + path].Placeholder?
      {
        assert [] + path == path;
        var k: nat :| k < |sites| && sites[k].literal.path == path;
        assert SiteReads(p, q, sites[k]);
      }
      PatchedIsRewritten(e, [], edits);
    }
    forall i | 0 <= i < |q.expressions| && q.expressions[i].Item? {
      SameIsRewritten(true, q.expressions[i].value);
    }
    forall j | 0 <= j < |q.joins| && q.joins[j].on.Some? {
      SameIsRewritten(true, q.joins[j].on.value);
    }
    forall k | 0 <= k < |q.order| {
      SameIsRewritten(true, q.order[k].target);
    }
  }

  /** The nodes that the row cap adds. */
  function CapNodes(q: Query): nat {
    if q.limit.None? then 2 else 0
  }

  lemma CapKeeps(q: Query, maxRows: nat, max: nat)
    ensures Allowed(q, true) ==> Allowed(CapRows(q, maxRows), true)
    ensures InLists(q, max) ==> InLists(CapRows(q, maxRows), max)
    ensures NodeCount(CapRows(q, maxRows)) == NodeCount(q) + CapNodes(q)
    ensures CapRows(q, maxRows).joins == q.joins
  {
    var capped := CapRows(q, maxRows);
    if Allowed(q, true) {
      assert EveryExpr(q, AllowedIn(true));
      assert EveryExpr(capped, AllowedIn(true));
      assert EveryExpr(capped, e => AllowedExpr(e, true));
    }
    if InLists(q, max) {
      assert EveryExpr(q, FitIn(max));
      assert EveryExpr(capped, FitIn(max));
      assert EveryExpr(capped, e => InListsFit(e, max));
    }
  }

  // ----- The checks after the first

  /** The refusals that a re-validation could give but never does. */
  predicate Repeated(reason: Reason) {
    reason == NotAllowed || reason == LimitJoins || reason == LimitInList
  }

  predicate Repeats<T>(r: Result<T>) {
    r.Rejected? && Repeated(r.reason)
  }

  lemma {:induction false} CollectRepeatsNone(fold: Fold, nodes: seq<TableRef>, schemas: seq<TableSchema>,
                                              seen: set<string>)
    requires |nodes| == |schemas|
    ensures !Repeats(CollectFrom(fold, nodes, schemas, seen))
  {
    if nodes != [] {
      CollectRepeatsNone(fold, nodes[1..], schemas[1..], seen + {fold(BindingName(nodes[0], schemas[0]))});
    }
  }

  lemma {:induction false} ExpansionRepeatsNone(fold: Fold, scope: seq<Binding>, ps: seq<Projection>)
    ensures !Repeats(ExpandStars(fold, scope, ps))
  {
    if ps != [] {
      ExpansionRepeatsNone(fold, scope, ps[1..]);
    }
  }

  ghost predicate NeverRepeats(f: Resolver) {
    forall table, name :: !Repeats(f(table, name))
  }

  lemma {:induction false} TreeRepeatsNone(f: Resolver, part: Part, e: Expr, paths: seq<Path>)
    requires NeverRepeats(f) && forall i :: 0 <= i < |paths| ==> ColumnAt(e, paths[i])
    ensures !Repeats(TreeRefs(f, part, e, paths))
  {
    if paths != [] {
      assert ColumnAt(e, paths[0]);
      TreeRepeatsNone(f, part, e, paths[1..]);
    }
  }

  lemma AnalyzeTreeRepeatsNone(f: Resolver, part: Part, e: Expr)
    requires NeverRepeats(f)
    ensures !Repeats(AnalyzeTree(f, part, e))
  {
    ColumnPathsComplete(e);
    assert forall i :: 0 <= i < |ColumnPaths(e)| ==> ColumnPaths(e)[i] in ColumnPaths(e);
    TreeRepeatsNone(f, part, e, ColumnPaths(e));
  }

  lemma {:induction false} ItemsRepeatNone(f: Resolver, ps: seq<Projection>, from: nat)
    requires NeverRepeats(f) && from <= |ps|
    ensures !Repeats(AnalyzeProjections(f, ps, from))
    decreases |ps| - from
  {
    if from < |ps| {
      ItemsRepeatNone(f, ps, from + 1);
    }
  }

  lemma {:induction false} JoinsRepeatNone(f: Resolver, joins: seq<Join>, from: nat)
    requires NeverRepeats(f) && from <= |joins|
    ensures !Repeats(AnalyzeJoins(f, joins, from))
    decreases |joins| - from
  {
    if from < |joins| {
      JoinsRepeatNone(f, joins, from + 1);
      if joins[from].on.Some? {
        AnalyzeTreeRepeatsNone(f, InOn(from), joins[from].on.value);
      }
    }
  }

  lemma {:induction false} OrderRepeatsNone(f: Resolver, keys: seq<OrderKey>, from: nat)
    requires NeverRepeats(f) && from <= |keys|
    ensures !Repeats(AnalyzeOrder(f, keys, from))
    decreases |keys| - from
  {
    if from < |keys| {
      OrderRepeatsNone(f, keys, from + 1);
      AnalyzeTreeRepeatsNone(f, InOrder(from), keys[from].target);
    }
  }

  lemma ClausesRepeatNone(f: Resolver, g: seq<OutputColumn> -> Resolver, q: Query)
    requires NeverRepeats(f) && forall outputs :: NeverRepeats(g(outputs))
    ensures !Repeats(AnalyzeClauses(f, g, q))
  {
    ItemsRepeatNone(f, q.expressions, 0);
    JoinsRepeatNone(f, q.joins, 0);
    if q.where_.Some? {
      AnalyzeTreeRepeatsNone(f, InWhere, q.where_.value);
    }
    if AnalyzeProjections(f, q.expressions, 0).Ok? {
      OrderRepeatsNone(g(AnalyzeProjections(f, q.expressions, 0).value.outputs), q.order, 0);
    }
  }

  /** The query as analysis measures it: with its stars expanded. */
  function Working(fold: Fold, q: Query, schemas: seq<TableSchema>): Query
    requires Collect(fold, q, schemas).Ok? && ExpandStars(fold, Collect(fold, q, schemas).value, q.expressions).Ok?
  {
    q.(expressions := ExpandStars(fold, Collect(fold, q, schemas).value, q.expressions).value)
  }

  lemma ScopeNamed(fold: Fold, q: Query, schemas: seq<TableSchema>)
    requires Collect(fold, q, schemas).Ok? && NamedTables(schemas)
    ensures NamedBindings(Collect(fold, q, schemas).value) && DistinctBindings(fold, Collect(fold, q, schemas).value)
  {
    CollectPairs(fold, q, schemas);
  }

  /** The resolvers of a query qualify every name. */
  lemma ResolversQualify(fold: Fold, scope: seq<Binding>, working: Query)
    requires NamedBindings(scope) && DistinctBindings(fold, scope)
    requires AnalyzeClauses(ColumnResolver(fold, scope), OrderResolvers(fold, scope), working).Ok?
    ensures var a := AnalyzeClauses(ColumnResolver(fold, scope), OrderResolvers(fold, scope), working).value;
      Qualifies(ColumnResolver(fold, scope)) && Qualifies(OrderResolvers(fold, scope)(a.outputs))
  {
    var f, g := ColumnResolver(fold, scope), OrderResolvers(fold, scope);
    ClausesParts(f, g, working);
    ColumnResolverCanonical(fold, scope);
    OutputsShown(f, fold, scope, working.expressions);
    var a := AnalyzeClauses(f, g, working).value;
    OrderResolverCanonical(fold, scope, a.outputs);
    CanonicalQualifies(fold, scope, f);
    CanonicalQualifies(fold, scope, g(a.outputs));
  }

  lemma ClausesStay(fold: Fold, scope: seq<Binding>, working: Query, max: nat)
    requires NamedBindings(scope) && DistinctBindings(fold, scope) && Allowed(working, false) && InLists(working, max)
    requires AnalyzeClauses(ColumnResolver(fold, scope), OrderResolvers(fold, scope), working).Ok?
    ensures var q := AnalyzeClauses(ColumnResolver(fold, scope), OrderResolvers(fold, scope), working).value.query;
      QueryRewritten(false, working, q) && Allowed(q, false) && InLists(q, max)
  {
    var q := AnalyzeClauses(ColumnResolver(fold, scope), OrderResolvers(fold, scope), working).value.query;
    ResolversQualify(fold, scope, working);
    ClausesRewritten(ColumnResolver(fold, scope), OrderResolvers(fold, scope), working);
    RewrittenQueryAllowed(false, working, q);
    RewrittenQueryFits(false, working, q, max);
  }

  lemma ResolversRepeatNone(fold: Fold, scope: seq<Binding>)
    ensures NeverRepeats(ColumnResolver(fold, scope))
    ensures forall outputs :: NeverRepeats(OrderResolvers(fold, scope)(outputs))
  {
  }

  /** MAIN RESULT. Once the parsed query has passed, the checks of analysis never refuse it for a
      construct, its joins or its IN lists. */
  lemma AnalysisRepeatsNone(fold: Fold, cross: CrossCheck, limits: Limits, q: Query, schemas: seq<TableSchema>)
    requires Allowed(q, false) && |q.joins| <= limits.maxJoins && InLists(q, limits.maxInItems) && NamedTables(schemas)
    ensures !Repeats(Analyze(fold, cross, limits, q, schemas))
  {
    if |TableRefs(q)| == |schemas| {
      CollectRepeatsNone(fold, TableRefs(q), schemas, {});
    }
    if Collect(fold, q, schemas).Ok? {
      var scope := Collect(fold, q, schemas).value;
      ExpansionRepeatsNone(fold, scope, q.expressions);
      if ExpandStars(fold, scope, q.expressions).Ok? {
        var working := Working(fold, q, schemas);
        var clauses := AnalyzeClauses(ColumnResolver(fold, scope), OrderResolvers(fold, scope), working);
        ScopeNamed(fold, q, schemas);
        ExpansionAllowed(fold, scope, q, limits.maxInItems);
        ResolversRepeatNone(fold, scope);
        ClausesRepeatNone(ColumnResolver(fold, scope), OrderResolvers(fold, scope), working);
        if clauses.Ok? {
          ClausesStay(fold, scope, working, limits.maxInItems);
        }
      }
    }
  }

  /** What analysis keeps of the query that passed. */
  lemma AnalysisStaysAllowed(fold: Fold, cross: CrossCheck, limits: Limits, q: Query, schemas: seq<TableSchema>)
    requires Allowed(q, false) && InLists(q, limits.maxInItems) && NamedTables(schemas)
    requires Analyze(fold, cross, limits, q, schemas).Ok?
    ensures var a := Analyze(fold, cross, limits, q, schemas).value;
      && Collect(fold, q, schemas).Ok? && ExpandStars(fold, Collect(fold, q, schemas).value, q.expressions).Ok?
      && QueryRewritten(false, Working(fold, q, schemas), a.query)
      && Allowed(a.query, false) && |a.query.joins| == |q.joins| && InLists(a.query, limits.maxInItems)
      && a.query.limit == q.limit
  {
    AnalyzeStages(fold, cross, limits, q, schemas);
    var scope := Collect(fold, q, schemas).value;
    ScopeNamed(fold, q, schemas);
    ExpansionAllowed(fold, scope, q, limits.maxInItems);
    ClausesStay(fold, scope, Working(fold, q, schemas), limits.maxInItems);
  }

  lemma AnalyzedCount(fold: Fold, cross: CrossCheck, limits: Limits, q: Query, schemas: seq<TableSchema>)
    requires NamedTables(schemas) && Analyze(fold, cross, limits, q, schemas).Ok?
    requires Collect(fold, q, schemas).Ok? && ExpandStars(fold, Collect(fold, q, schemas).value, q.expressions).Ok?
    requires QueryRewritten(false, Working(fold, q, schemas), Analyze(fold, cross, limits, q, schemas).value.query)
    ensures var a, working := Analyze(fold, cross, limits, q, schemas).value, Working(fold, q, schemas);
      && NodeCount(a.query) + HiddenUnqualified(working) == NodeCount(working) + UnqualifiedColumns(working)
      && (a.query.where_.Some? ==> Unqualified(a.query.where_.value) == 0)
  {
    var scope, working := Collect(fold, q, schemas).value, Working(fold, q, schemas);
    AnalyzeStages(fold, cross, limits, q, schemas);
    AnalyzedItemsPlain(fold, cross, limits, q, schemas);
    ResolversQualify(fold, scope, working);
    ClausesQualified(ColumnResolver(fold, scope), OrderResolvers(fold, scope), working);
    RewrittenQueryCount(false, working, Analyze(fold, cross, limits, q, schemas).value.query);
  }

  /** Analysis qualifies the unqualified columns that it sees. */
  function Qualifiable(q: Query): int {
    UnqualifiedColumns(q) - HiddenUnqualified(q)
  }

  /** Binding tokens changes WHERE only, where nothing is unqualified after analysis. */
  lemma BoundCount(p: PiiPolicy, q: Query, sites: seq<TokenSite>)
    requires SitesExact(p, q, sites) && (q.where_.Some? ==> Unqualified(q.where_.value) == 0)
    ensures NodeCount(BindTokens(q, sites)) == NodeCount(q)
  {
    BoundIsRewritten(p, q, sites);
    if q.where_.Some? {
      RewrittenCount(true, q.where_.value, BindTokens(q, sites).where_.value);
    }
  }

  // ----- What is counted

  function PlacedWeight(): Placed -> nat {
    (x: Placed) => Weight(x.1.kind)
  }

  function PlacedCount(): Placed -> nat {
    (x: Placed) => ExprCount(x.1)
  }

  lemma {:induction false} CountsOfKids(kids: seq<Expr>, placed: seq<Placed>)
    requires |placed| == |kids| && forall i :: 0 <= i < |kids| ==> placed[i].1 == kids[i]
    ensures Total(placed, PlacedCount()) == ExprCounts(kids)
  {
    if kids != [] {
      CountsOfKids(kids[1..], placed[1..]);
    }
  }

  lemma {:induction false} WalkCounts(queue: seq<Placed>)
    ensures Total(Walk(queue), PlacedWeight()) == Total(queue, PlacedCount())
    decreases QueueSize(queue)
  {
    if queue != [] {
      var kids := PlacedKids(queue[0]);
      QueueSizeKids(queue[0].0, queue[0].1.kids, kids);
      QueueSizeAppend(queue[1..], kids);
      WalkCounts(queue[1..] + kids);
      TotalAppend(queue[1..], kids, PlacedCount());
      CountsOfKids(queue[0].1.kids, kids);
      assert Walk(queue)[1..] == Walk(queue[1..] + kids);
    }
  }

  /** The size of an expression is the number of nodes that walking it meets, names included. */
  lemma CountIsOverNodes(e: Expr)
    ensures ExprCount(e) == Total(Nodes(e), PlacedWeight())
  {
    var root: seq<Placed> := [([], e)];
    WalkCounts(root);
    assert root[1..] == [];
  }

  lemma IssueReasons(a: AnalyzedQuery, d: PolicyDecision, maxRows: int, hardMaxRows: nat, limits: Limits,
                     nonce: string, generator: Generator, dialect: Dialect)
    requires 1 <= maxRows <= hardMaxRows
    requires var q := CapRows(BindTokens(a.query, d.sites), maxRows);
      Allowed(q, true) && |q.joins| <= limits.maxJoins && InLists(q, limits.maxInItems)
    ensures var issued := IssueQuery(a, d, maxRows, hardMaxRows, limits, nonce, generator, dialect);
      && !Repeats(issued)
      && (issued == Rejected(LimitNodes) <==>
          NodeCount(CapRows(BindTokens(a.query, d.sites), maxRows)) > limits.maxNodes)
  {
    var q, parameters := CapRows(BindTokens(a.query, d.sites), maxRows), BindParameters(d.sites, |d.sites|);
    var generated := Generate(q, parameters, nonce, generator, dialect);
    assert generated.Rejected? ==> generated.reason == BindUnsafe;
  }

  /** MAIN RESULT. From there to the issued query the same holds, and the number of nodes is known: that
      of the parsed query with its stars expanded, one for each unqualified column but those hidden in the
      select list, and two for a limit that it did not have. The last check refuses exactly when that
      is over the limit. */
  lemma IssueStaysAllowed(fold: Fold, cross: CrossCheck, limits: Limits, q: Query, schemas: seq<TableSchema>,
                          p: PiiPolicy, maxRows: int, hardMaxRows: nat, nonce: string, generator: Generator,
                          dialect: Dialect)
    requires Allowed(q, false) && |q.joins| <= limits.maxJoins && InLists(q, limits.maxInItems) && NamedTables(schemas)
    requires Analyze(fold, cross, limits, q, schemas).Ok?
        && Evaluate(p, Analyze(fold, cross, limits, q, schemas).value).Ok?
    requires 1 <= maxRows <= hardMaxRows
    ensures var a := Analyze(fold, cross, limits, q, schemas).value;
      var d := Evaluate(p, a).value;
      var issued := IssueQuery(a, d, maxRows, hardMaxRows, limits, nonce, generator, dialect);
      && Collect(fold, q, schemas).Ok? && ExpandStars(fold, Collect(fold, q, schemas).value, q.expressions).Ok?
      && !Repeats(issued)
      && var working := Working(fold, q, schemas);
        && NodeCount(CapRows(BindTokens(a.query, d.sites), maxRows))
           == NodeCount(working) + Qualifiable(working) + CapNodes(q)
        && (issued == Rejected(LimitNodes) <==>
            NodeCount(working) + Qualifiable(working) + CapNodes(q) > limits.maxNodes)
  {
    var a := Analyze(fold, cross, limits, q, schemas).value;
    var d := Evaluate(p, a).value;
    AnalysisStaysAllowed(fold, cross, limits, q, schemas);
    AnalyzedCount(fold, cross, limits, q, schemas);
    LineageIsCompleteAndSound(fold, cross, limits, q, schemas);
    AcceptedDecision(p, a);
    var bound := BindTokens(a.query, d.sites);
    BoundIsRewritten(p, a.query, d.sites);
    RewrittenQueryAllowed(true, a.query, bound);
    RewrittenQueryFits(true, a.query, bound, limits.maxInItems);
    BoundCount(p, a.query, d.sites);
    CapKeeps(bound, maxRows, limits.maxInItems);
    IssueReasons(a, d, maxRows, hardMaxRows, limits, nonce, generator, dialect);
  }
}
