/** Two databases that differ only in protected cells, and only in ways the query's own tokens cannot
    tell apart, give the same answer but for the tokens in protected cells. */
module Noninterference {
  import opened Outcomes
  import opened Ast
  import opened Scope
  import opened Values
  import opened Tokens
  import opened Allowlist
  import opened Lineage
  import opened LineageComplete
  import opened Policy
  import opened PolicyFacts
  import opened Semantics
  import opened EvalFacts
  import opened Simulation
  import opened AnalysisMeaning
  import opened BindMeaning
  import opened Issue
  import opened Executor
  import opened ExecutorFacts

  // ----- Expressions that see protected values only through token comparisons

  ghost predicate Public(eng: Engine, r: Reading, s: Reading, kind: Kind) {
    LeafValue(eng, r, kind) == LeafValue(eng, s, kind)
  }

  /** The two values compare alike with each of `values`. */
  ghost predicate Veiled(eng: Engine, values: set<Value>, a: Value, b: Value) {
    forall v :: v in values ==> Comparison(eng, EQ, a, v) == Comparison(eng, EQ, b, v)
  }

  /** The node at `path` is the same in both readings, or is hidden behind a token comparison. */
  ghost predicate Guarded(eng: Engine, r: Reading, s: Reading, values: set<Value>, e: Expr, path: Path)
    requires At(e, path).Some?
  {
    var node := At(e, path).value;
    && (IsToken(node.kind) ==>
          node.kids == [] && Public(eng, r, s, node.kind) && LeafValue(eng, r, node.kind) in values)
    && (Public(eng, r, s, node.kind) ||
        (node.kids == [] && path != [] && GuardedAt(e, path)
         && Veiled(eng, values, LeafValue(eng, r, node.kind), LeafValue(eng, s, node.kind))))
  }

  ghost predicate AllGuarded(eng: Engine, r: Reading, s: Reading, values: set<Value>, e: Expr) {
    forall path :: At(e, path).Some? ==> Guarded(eng, r, s, values, e, path)
  }

  lemma AtUnder(e: Expr, i: nat, path: Path)
    requires i < |e.kids|
    ensures At(e, [i] + path) == At(e.kids[i], path)
    ensures path != [] ==> At(e, ([i] + path)[..|path|]) == At(e.kids[i], path[..|path| - 1])
  {
    assert ([i] + path)[1..] == path;
    if path != [] {
      assert ([i] + path)[..|path|] == [i] + path[..|path| - 1];
      assert ([i] + path[..|path| - 1])[1..] == path[..|path| - 1];
    }
  }

  /** A child that is public at its root is guarded throughout when its parent is. */
  lemma GuardedChild(eng: Engine, r: Reading, s: Reading, values: set<Value>, e: Expr, i: nat)
    requires AllGuarded(eng, r, s, values, e) && i < |e.kids| && Public(eng, r, s, e.kids[i].kind)
    ensures AllGuarded(eng, r, s, values, e.kids[i])
  {
    forall path | At(e.kids[i], path).Some?
      ensures Guarded(eng, r, s, values, e.kids[i], path)
    {
      AtUnder(e, i, path);
      assert Guarded(eng, r, s, values, e, [i] + path);
      if path != [] {
        assert ([i] + path)[|path|] == path[|path| - 1];
        assert GuardedAt(e, [i] + path) == GuardedAt(e.kids[i], path);
      }
    }
  }

  lemma {:induction false} MembershipVeiled(eng: Engine, values: set<Value>, a: Value, b: Value, items: seq<Value>)
    requires Veiled(eng, values, a, b) && forall k :: 0 <= k < |items| ==> items[k] in values
    ensures Membership(eng, a, items) == Membership(eng, b, items)
  {
    if items != [] {
      MembershipVeiled(eng, values, a, b, items[1..]);
    }
  }

  function KidValues(eng: Engine, r: Reading, e: Expr): seq<Value> {
    seq(|e.kids|, i requires 0 <= i < |e.kids| => Eval(eng, r, e.kids[i]))
  }

  /** Comparing a veiled value with tokens gives the same truth value. */
  lemma VeiledComparison(eng: Engine, r: Reading, s: Reading, values: set<Value>, e: Expr)
    requires AllGuarded(eng, r, s, values, e) && |e.kids| > 0 && !Public(eng, r, s, e.kids[0].kind)
    ensures Eval(eng, r, e) == Eval(eng, s, e)
  {
    var xs, ys := KidValues(eng, r, e), KidValues(eng, s, e);
    AtUnder(e, 0, []);
    assert [0] + [] == [0];
    assert Guarded(eng, r, s, values, e, [0]);
    assert GuardedAt(e, [0]) && At(e, [0][..0]) == Some(e) by {
      assert [0][..0] == [];
    }
    forall k | 1 <= k < |e.kids|
      ensures xs[k] == ys[k] && xs[k] in values
    {
      AtUnder(e, k, []);
      assert [k] + [] == [k];
      assert Guarded(eng, r, s, values, e, [k]);
    }
    if e.kind.In? {
      assert xs[1..] == ys[1..];
      MembershipVeiled(eng, values, xs[0], ys[0], xs[1..]);
    }
  }

  lemma {:induction false} GuardedEval(eng: Engine, r: Reading, s: Reading, values: set<Value>, e: Expr)
    requires AllGuarded(eng, r, s, values, e)
    ensures Eval(eng, r, e) == Eval(eng, s, e)
  {
    assert At(e, []) == Some(e) && Guarded(eng, r, s, values, e, []);
    if e.kids == [] {
    } else if !Public(eng, r, s, e.kids[0].kind) {
      VeiledComparison(eng, r, s, values, e);
    } else {
      forall i | 0 <= i < |e.kids|
        ensures Eval(eng, r, e.kids[i]) == Eval(eng, s, e.kids[i])
      {
        PublicChild(eng, r, s, values, e, i);
        GuardedChild(eng, r, s, values, e, i);
        GuardedEval(eng, r, s, values, e.kids[i]);
      }
      assert KidValues(eng, r, e) == KidValues(eng, s, e);
    }
  }

  /** Only a first child can be veiled. */
  lemma PublicChild(eng: Engine, r: Reading, s: Reading, values: set<Value>, e: Expr, i: nat)
    requires AllGuarded(eng, r, s, values, e) && i < |e.kids| && Public(eng, r, s, e.kids[0].kind)
    ensures Public(eng, r, s, e.kids[i].kind)
  {
    AtUnder(e, i, []);
    assert [i] + [] == [i];
    assert Guarded(eng, r, s, values, e, [i]);
    assert [i][|[i]| - 1] == i;
  }

  // ----- Two databases

  /** A policy, the tables of a query, an engine, a codec, and the values the query compares with. */
  datatype Setting = Setting(p: PiiPolicy, scope: seq<Binding>, eng: Engine, codec: Codec, values: set<Value>)

  ghost predicate Secret(c: Setting, i: nat, j: nat)
    requires i < |c.scope| && j < |c.scope[i].table.columns|
  {
    IsProtected(c.p, SourceOf(Resolved(c.scope[i], c.scope[i].table.columns[j])))
  }

  /** Protected cells that the query cannot tell apart: both NULL, or both tokenisable and alike in
      every comparison it makes. */
  ghost predicate Indistinct(c: Setting, a: Value, b: Value) {
    && (a == Null <==> b == Null)
    && (a != Null ==> Tokenisable(c.codec, a) && Tokenisable(c.codec, b))
    && Veiled(c.eng, c.values, a, b)
  }

  ghost predicate RowsIndistinct(c: Setting, i: nat, a: Row, b: Row) {
    && i < |c.scope| && |a| == |b| == |c.scope[i].table.columns|
    && forall j: nat :: j < |a| ==> if Secret(c, i, j) then Indistinct(c, a[j], b[j]) else a[j] == b[j]
  }

  ghost function LowRel(c: Setting): RowRelation {
    (i: nat, a: Row, b: Row) => RowsIndistinct(c, i, a, b)
  }

  lemma LowShaped(c: Setting, a: Env, b: Env)
    requires EnvRel(LowRel(c), a, b) && |a| <= |c.scope|
    ensures Shaped(c.scope, a) && Shaped(c.scope, b)
    ensures forall i: nat :: i < |a| ==> RowsIndistinct(c, i, a[i], b[i])
  {
    assert forall i: nat :: i < |a| ==> LowRel(c)(i, a[i], b[i]);
  }

  ghost function Reads(c: Setting, env: Env, count: Value): Reading {
    ReadingOf(Exact(), c.scope, CallerConstants(c.p.decrypt), env, count)
  }

  /** A column reads the same in both databases if it is unprotected, and indistinct values if not. */
  lemma ColumnLow(c: Setting, a: Env, b: Env, count: Value, kind: Kind, source: SourceColumn)
    requires EnvRel(LowRel(c), a, b) && |a| <= |c.scope| && ReadsSource(c.scope, kind, source)
    ensures var x, y := LeafValue(c.eng, Reads(c, a, count), kind), LeafValue(c.eng, Reads(c, b, count), kind);
      if IsProtected(c.p, source) then Indistinct(c, x, y) else x == y
  {
    LowShaped(c, a, b);
    var i: nat, j: nat :| i < |c.scope| && j < |c.scope[i].table.columns|
      && kind == KindOf(Resolved(c.scope[i], c.scope[i].table.columns[j]))
      && source == SourceOf(Resolved(c.scope[i], c.scope[i].table.columns[j]))
      && ReadsCell(c.scope, kind, i, j);
    if i < |a| {
      assert RowsIndistinct(c, i, a[i], b[i]);
      assert Secret(c, i, j) == IsProtected(c.p, source);
    }
  }

  /** No protected column is what the reference means. */
  ghost predicate ReadsPublic(c: Setting, kind: Kind) {
    kind.Column? ==>
      forall i: nat, j: nat :: NamesOnly(Exact(), c.scope, kind.table, kind.name, i, j) ==> !Secret(c, i, j)
  }

  /** What the select list hides inside expressions is unprotected. */
  ghost predicate HiddenPublic(c: Setting, q: Query) {
    forall k :: 0 <= k < |q.expressions| && q.expressions[k].Item? && !q.expressions[k].value.kind.Column? ==>
      Everywhere(q.expressions[k].value, (kind: Kind) => ReadsPublic(c, kind))
  }

  /** A hidden column that is unprotected reads the same in both databases. */
  lemma HiddenLow(c: Setting, a: Env, b: Env, count: Value, kind: Kind)
    requires EnvRel(LowRel(c), a, b) && |a| == |c.scope| && ReadsPublic(c, kind)
    ensures LeafValue(c.eng, Reads(c, a, count), kind) == LeafValue(c.eng, Reads(c, b, count), kind)
  {
    LowShaped(c, a, b);
    if kind.Column? {
      assert InScope(c.scope, a) == c.scope && InScope(c.scope, b) == c.scope;
      if i: nat, j: nat :| NamesOnly(Exact(), c.scope, kind.table, kind.name, i, j) {
        assert RowsIndistinct(c, i, a[i], b[i]) && !Secret(c, i, j);
        ColumnValueIs(Exact(), c.scope, a, kind.table, kind.name, i, j);
        ColumnValueIs(Exact(), c.scope, b, kind.table, kind.name, i, j);
      }
    }
  }

  /** What the earlier stages establish about an accepted query. */
  ghost predicate Accepted(c: Setting, a: AnalyzedQuery, sites: seq<TokenSite>) {
    && Covers(a.references, ShownColumns(a.query)) && HiddenPublic(c, a.query)
    && (forall i :: 0 <= i < |a.references| ==>
        ReadsSource(c.scope, KindAt(a.query, a.references[i].node), a.references[i].source))
    && (forall i :: 0 <= i < |a.references| && IsProtected(c.p, a.references[i].source) ==>
        GuardedRef(a.query, a.references[i].node))
    && OutputsMatch(c.scope, a)
    && SitesExact(c.p, a.query, sites)
    && (forall s :: 0 <= s < |sites| ==> sites[s].value in c.values)
    && Allowed(a.query, false) && Grammatical(a.query) && |c.scope| == TableCount(a.query)
  }

  /** The reference recorded for a column of the query. */
  lemma ReferenceOf(c: Setting, a: AnalyzedQuery, sites: seq<TokenSite>,
                    position: Position) returns (source: SourceColumn)
    requires Accepted(c, a, sites) && Shown(a.query, position)
    ensures ReadsSource(c.scope, KindAt(a.query, position), source)
    ensures IsProtected(c.p, source) ==> GuardedRef(a.query, position)
  {
    assert ShownColumns(a.query)(position);
    var i :| 0 <= i < |a.references| && a.references[i].node == position;
    source := a.references[i].source;
  }

  /** ON conditions and sort keys see no protected column. */
  lemma ClauseLow(c: Setting, a: AnalyzedQuery, sites: seq<TokenSite>, part: Part, x: Env, y: Env)
    requires Accepted(c, a, sites) && EnvRel(LowRel(c), x, y) && |x| <= |c.scope|
    requires (part.InOn? || part.InOrder?) && ClauseOf(a.query, part).Some?
    ensures Eval(c.eng, Reads(c, x, Null), ClauseOf(a.query, part).value)
      == Eval(c.eng, Reads(c, y, Null), ClauseOf(a.query, part).value)
  {
    var e, r, s := ClauseOf(a.query, part).value, Reads(c, x, Null), Reads(c, y, Null);
    forall path | At(e, path).Some?
      ensures LeafValue(c.eng, r, At(e, path).value.kind) == LeafValue(c.eng, s, At(e, path).value.kind)
    {
      if At(e, path).value.kind.Column? {
        var source := ReferenceOf(c, a, sites, Position(part, path));
        ColumnLow(c, x, y, Null, At(e, path).value.kind, source);
      }
    }
    AtEverywhere(e, (k: Kind) => LeafValue(c.eng, r, k) == LeafValue(c.eng, s, k));
    SelfAlike(c.eng, r, s, e);
    EvalAlike(c.eng, r, s, e, e);
  }

  lemma WhereLow(c: Setting, a: AnalyzedQuery, sites: seq<TokenSite>, x: Env, y: Env)
    requires Accepted(c, a, sites) && EnvRel(LowRel(c), x, y) && |x| <= |c.scope|
    requires a.query.where_.Some?
    ensures Eval(c.eng, Reads(c, x, Null), a.query.where_.value) == Eval(c.eng, Reads(c, y, Null), a.query.where_.value)
  {
    var e, r, s := a.query.where_.value, Reads(c, x, Null), Reads(c, y, Null);
    forall path | At(e, path).Some?
      ensures Guarded(c.eng, r, s, c.values, e, path)
    {
      WhereNodeLow(c, a, sites, x, y, path);
    }
    GuardedEval(c.eng, r, s, c.values, e);
  }

  lemma WhereNodeLow(c: Setting, a: AnalyzedQuery, sites: seq<TokenSite>, x: Env, y: Env, path: Path)
    requires Accepted(c, a, sites) && EnvRel(LowRel(c), x, y) && |x| <= |c.scope|
    requires a.query.where_.Some? && At(a.query.where_.value, path).Some?
    ensures Guarded(c.eng, Reads(c, x, Null), Reads(c, y, Null), c.values, a.query.where_.value, path)
  {
    var e := a.query.where_.value;
    var position, node := Position(InWhere, path), At(e, path).value;
    AllowedAt(e, false, path);
    if node.kind.Column? {
      var source := ReferenceOf(c, a, sites, position);
      ColumnLow(c, x, y, Null, node.kind, source);
    } else if IsToken(node.kind) {
      assert TokenOf(a.query, position);
      var k :| 0 <= k < |sites| && sites[k].literal == position;
      assert SiteReads(c.p, a.query, sites[k]);
    }
  }

  // ----- Rows of the answer

  /** Output cells that tell nothing: equal, or in a protected column both NULL or both tokenisable. */
  ghost predicate CellsAlike(codec: Codec, protected: bool, a: Value, b: Value) {
    if protected then (a == Null <==> b == Null) && (a != Null ==> Tokenisable(codec, a) && Tokenisable(codec, b))
    else a == b
  }

  ghost predicate RowsAlike(codec: Codec, flags: seq<bool>, a: seq<Value>, b: seq<Value>) {
    |a| == |b| == |flags| && forall k :: 0 <= k < |flags| ==> CellsAlike(codec, flags[k], a[k], b[k])
  }

  ghost function LowOut(codec: Codec, flags: seq<bool>): (seq<Value>, seq<Value>) -> bool {
    (a: seq<Value>, b: seq<Value>) => RowsAlike(codec, flags, a, b)
  }

  lemma ItemLow(c: Setting, a: AnalyzedQuery, sites: seq<TokenSite>, x: Env, y: Env, count: Value, k: nat)
    requires Accepted(c, a, sites) && EnvRel(LowRel(c), x, y) && |x| == |c.scope| && k < |a.outputs|
    ensures a.query.expressions[k].Item?
    ensures var e := a.query.expressions[k].value;
      CellsAlike(c.codec, Flags(c.p, a.outputs)[k], Eval(c.eng, Reads(c, x, count), e),
                 Eval(c.eng, Reads(c, y, count), e))
  {
    assert OutputMatches(c.scope, a.query.expressions[k], a.outputs[k]);
    var e, r, s := a.query.expressions[k].value, Reads(c, x, count), Reads(c, y, count);
    assert AllowedExpr(e, false);
    if e.kind.Column? {
      ColumnLow(c, x, y, count, e.kind, a.outputs[k].source.value);
    } else {
      forall path | At(e, path).Some?
        ensures LeafValue(c.eng, r, At(e, path).value.kind) == LeafValue(c.eng, s, At(e, path).value.kind)
      {
        EverywhereAt(e, (kind: Kind) => ReadsPublic(c, kind), path);
        HiddenLow(c, x, y, count, At(e, path).value.kind);
      }
      AtEverywhere(e, (kind: Kind) => LeafValue(c.eng, r, kind) == LeafValue(c.eng, s, kind));
      SelfAlike(c.eng, r, s, e);
      EvalAlike(c.eng, r, s, e, e);
    }
  }

  lemma RowLow(c: Setting, a: AnalyzedQuery, sites: seq<TokenSite>, x: Env, y: Env, count: Value)
    requires Accepted(c, a, sites) && EnvRel(LowRel(c), x, y) && |x| == |c.scope|
    ensures RowsAlike(c.codec, Flags(c.p, a.outputs),
                      RowCells(Exact(), c.scope, c.eng, Reads(c, x, count), x, a.query.expressions),
                      RowCells(Exact(), c.scope, c.eng, Reads(c, y, count), y, a.query.expressions))
  {
    var ps := a.query.expressions;
    forall k | 0 <= k < |ps|
      ensures ps[k].Item?
    {
      assert OutputMatches(c.scope, ps[k], a.outputs[k]);
    }
    RowCellsOfItems(Exact(), c.scope, c.eng, Reads(c, x, count), x, ps);
    RowCellsOfItems(Exact(), c.scope, c.eng, Reads(c, y, count), y, ps);
    forall k | 0 <= k < |ps| {
      ItemLow(c, a, sites, x, y, count, k);
    }
  }

  lemma KeysLow(c: Setting, a: AnalyzedQuery, sites: seq<TokenSite>, x: Env, y: Env)
    requires Accepted(c, a, sites) && EnvRel(LowRel(c), x, y) && |x| <= |c.scope|
    ensures SortKey(Exact(), c.scope, c.eng, CallerConstants(c.p.decrypt), a.query, x)
         == SortKey(Exact(), c.scope, c.eng, CallerConstants(c.p.decrypt), a.query, y)
  {
    forall k | 0 <= k < |a.query.order|
      ensures Eval(c.eng, Reads(c, x, Null), a.query.order[k].target)
        == Eval(c.eng, Reads(c, y, Null), a.query.order[k].target)
      ensures a.query.order[k].target.kind.Column? && a.query.order[k].target.kind.table != ""
    {
      ClauseLow(c, a, sites, InOrder(k), x, y);
      var e := a.query.order[k].target;
      assert AllowedKey(a.query.order[k]) && At(e, []) == Some(e);
      var source := ReferenceOf(c, a, sites, Position(InOrder(k), []));
    }
  }

  lemma ConditionsLow(c: Setting, a: AnalyzedQuery, sites: seq<TokenSite>, x: Env, y: Env)
    requires Accepted(c, a, sites) && EnvRel(LowRel(c), x, y) && |x| <= |c.scope|
    ensures var consts := CallerConstants(c.p.decrypt);
      && Holds(Exact(), c.scope, c.eng, consts, a.query.where_, x)
         == Holds(Exact(), c.scope, c.eng, consts, a.query.where_, y)
      && forall j :: 0 <= j < |a.query.joins| ==>
        Holds(Exact(), c.scope, c.eng, consts, a.query.joins[j].on, x)
          == Holds(Exact(), c.scope, c.eng, consts, a.query.joins[j].on, y)
  {
    if a.query.where_.Some? {
      WhereLow(c, a, sites, x, y);
    }
    forall j | 0 <= j < |a.query.joins| && a.query.joins[j].on.Some?
      ensures Eval(c.eng, Reads(c, x, Null), a.query.joins[j].on.value)
        == Eval(c.eng, Reads(c, y, Null), a.query.joins[j].on.value)
    {
      ClauseLow(c, a, sites, InOn(j), x, y);
    }
  }

  lemma NullsIndistinct(c: Setting, i: nat)
    requires i < |c.scope|
    ensures RowsIndistinct(c, i, Nulls(|c.scope[i].table.columns|), Nulls(|c.scope[i].table.columns|))
  {
  }

  lemma PlansLow(c: Setting, a: AnalyzedQuery, sites: seq<TokenSite>)
    requires Accepted(c, a, sites)
    ensures var p := PlanOf(Exact(), c.scope, c.eng, CallerConstants(c.p.decrypt), a.query);
      PlansAgree(LowRel(c), |c.scope|, p, p)
        && RowsAgree(LowRel(c), |c.scope|, p, p, LowOut(c.codec, Flags(c.p, a.outputs)))
  {
    var rel, p := LowRel(c), PlanOf(Exact(), c.scope, c.eng, CallerConstants(c.p.decrypt), a.query);
    forall x, y | EnvRel(rel, x, y) && |x| <= |c.scope|
      ensures p.keep(x) == p.keep(y) && p.key(x) == p.key(y)
      ensures forall j :: 0 <= j < |p.joins| ==> p.joins[j].on(x) == p.joins[j].on(y)
    {
      ConditionsLow(c, a, sites, x, y);
      KeysLow(c, a, sites, x, y);
    }
    forall j: nat | j < |p.joins|
      ensures rel(j + 1, Nulls(p.joins[j].width), Nulls(p.joins[j].width))
    {
      NullsIndistinct(c, j + 1);
    }
    forall x, y, count: nat | EnvRel(rel, x, y) && |x| == |c.scope|
      ensures LowOut(c.codec, Flags(c.p, a.outputs))(p.row(x, count), p.row(y, count))
    {
      RowLow(c, a, sites, x, y, Int(count));
    }
  }

  /** The rows of an accepted query on two indistinguishable databases: as many, in the same order,
      and alike. */
  lemma MeaningsAlike(c: Setting, a: AnalyzedQuery, sites: seq<TokenSite>, ts: seq<seq<Row>>, us: seq<seq<Row>>)
    requires Accepted(c, a, sites) && TablesRel(LowRel(c), ts, us) && |ts| == |c.scope|
    ensures AnswersRel(LowOut(c.codec, Flags(c.p, a.outputs)),
                       Meaning(Exact(), c.scope, c.eng, CallerConstants(c.p.decrypt), ts, a.query),
                       Meaning(Exact(), c.scope, c.eng, CallerConstants(c.p.decrypt), us, a.query))
  {
    var p := PlanOf(Exact(), c.scope, c.eng, CallerConstants(c.p.decrypt), a.query);
    PlansLow(c, a, sites);
    forall i: nat | i < |c.scope| {
      NullsIndistinct(c, i);
    }
    AnswersAgree(LowRel(c), p, p, ts, us, Widths(c.scope), LowOut(c.codec, Flags(c.p, a.outputs)));
  }

  // ----- The row loop

  /** Cells of two answers: equal, or in a protected column both NULL or both tokens. */
  ghost predicate AnswerCellsAlike(protected: bool, a: Cell, b: Cell) {
    if protected then (a.NullCell? && b.NullCell?) || (a.TokenCell? && b.TokenCell?) else a == b
  }

  ghost predicate AnswerRowsAlike(plans: seq<OutputPlan>, a: seq<Cell>, b: seq<Cell>) {
    |a| == |b| == |plans| && forall j :: 0 <= j < |plans| ==> AnswerCellsAlike(plans[j].protected, a[j], b[j])
  }

  function PlanFlags(plans: seq<OutputPlan>): seq<bool> {
    seq(|plans|, i requires 0 <= i < |plans| => plans[i].protected)
  }

  lemma CellRunsAlike(codec: Codec, plan: OutputPlan, n: seq<byte>, m: seq<byte>, v: Value, w: Value,
                      seen: Option<Encoding>)
    requires IdealCipher(codec.lib) && IsNonce(n) && IsNonce(m) && CellsAlike(codec, plan.protected, v, w)
    ensures var x, y := RunCell(codec, plan, n, v, seen), RunCell(codec, plan, m, w, seen);
      || (x.Rejected? && x == y)
      || (x.Ok? && y.Ok? && x.value.1 == y.value.1 && AnswerCellsAlike(plan.protected, x.value.0, y.value.0))
  {
    if plan.protected && v != Null {
      TokenSizeThreshold(codec, n, v);
      TokenSizeThreshold(codec, m, w);
    }
  }

  lemma AnswerRowExtends(plans: seq<OutputPlan>, c: Cell, d: Cell, xs: seq<Cell>, ys: seq<Cell>)
    requires plans != [] && AnswerCellsAlike(plans[0].protected, c, d) && AnswerRowsAlike(plans[1..], xs, ys)
    ensures AnswerRowsAlike(plans, [c] + xs, [d] + ys)
  {
    forall j | 0 <= j < |plans|
      ensures AnswerCellsAlike(plans[j].protected, ([c] + xs)[j], ([d] + ys)[j])
    {
      if j > 0 {
        assert plans[1..][j - 1] == plans[j];
      }
    }
  }

  lemma {:induction false} RowRunsAlike(codec: Codec, plans: seq<OutputPlan>, ns: nat -> seq<byte>,
                                        ms: nat -> seq<byte>, v: Row, w: Row, seen: seq<Option<Encoding>>, from: nat)
    requires IdealCipher(codec.lib) && (forall j: nat :: IsNonce(ns(j)) && IsNonce(ms(j)))
    requires |seen| == |plans| && from <= |plans| && RowsAlike(codec, PlanFlags(plans), v, w)
    ensures var x, y := RunRow(codec, plans, ns, v, seen, from), RunRow(codec, plans, ms, w, seen, from);
      || (x.Rejected? && x == y)
      || (x.Ok? && y.Ok? && x.value.1 == y.value.1 && AnswerRowsAlike(plans[from..], x.value.0, y.value.0))
    decreases |plans| - from
  {
    if from < |plans| {
      CellRunsAlike(codec, plans[from], ns(from), ms(from), v[from], w[from], seen[from]);
      var x := RunCell(codec, plans[from], ns(from), v[from], seen[from]);
      if x.Ok? {
        var after := seen[from := x.value.1];
        RowRunsAlike(codec, plans, ns, ms, v, w, after, from + 1);
        var xs, ys := RunRow(codec, plans, ns, v, after, from + 1), RunRow(codec, plans, ms, w, after, from + 1);
        assert plans[from..][1..] == plans[from + 1..];
        if xs.Ok? {
          var y := RunCell(codec, plans[from], ms(from), w[from], seen[from]);
          AnswerRowExtends(plans[from..], x.value.0, y.value.0, xs.value.0, ys.value.0);
        }
      }
    }
  }

  lemma {:induction false} RowsRunAlike(codec: Codec, plans: seq<OutputPlan>, ns: Nonces, ms: Nonces, vs: seq<Row>,
                                        ws: seq<Row>, seen: seq<Option<Encoding>>, from: nat)
    requires IdealCipher(codec.lib) && GoodNonces(ns) && GoodNonces(ms)
    requires |seen| == |plans| && from <= |vs| && AnswersRel(LowOut(codec, PlanFlags(plans)), vs, ws)
    ensures var x, y := RunRows(codec, plans, ns, vs, seen, from), RunRows(codec, plans, ms, ws, seen, from);
      || (x.Rejected? && x == y)
      || (x.Ok? && y.Ok? && x.value.1 == y.value.1 && |x.value.0| == |y.value.0|
          && forall i :: 0 <= i < |x.value.0| ==> AnswerRowsAlike(plans, x.value.0[i], y.value.0[i]))
    decreases |vs| - from
  {
    if from < |vs| {
      assert LowOut(codec, PlanFlags(plans))(vs[from], ws[from]);
      RowRunsAlike(codec, plans, RowNonces(ns, from), RowNonces(ms, from), vs[from], ws[from], seen, 0);
      assert plans[0..] == plans;
      var x := RunRow(codec, plans, RowNonces(ns, from), vs[from], seen, 0);
      if x.Ok? {
        RowsRunAlike(codec, plans, ns, ms, vs, ws, x.value.1, from + 1);
      }
    }
  }

  /** Two answers that differ only in the tokens of protected cells. */
  ghost predicate AnswersAlike(a: Result<ExecutionResult>, b: Result<ExecutionResult>) {
    || (a.Rejected? && a == b)
    || (a.Ok? && b.Ok?
        && a.value.columns == b.value.columns && a.value.truncated == b.value.truncated
        && |a.value.rows| == |b.value.rows|
        && forall i :: 0 <= i < |a.value.rows| ==>
          AnswerRowsAlike(PlansOf(a.value.columns), a.value.rows[i], b.value.rows[i]))
  }

  function PlansOf(columns: seq<ResultColumn>): seq<OutputPlan> {
    seq(|columns|, i requires 0 <= i < |columns| => columns[i].plan)
  }

  lemma ExecutionsAlike(codec: Codec, plans: seq<OutputPlan>, maxRows: nat, ns: Nonces, ms: Nonces, vs: seq<Row>,
                        ws: seq<Row>)
    requires IdealCipher(codec.lib) && GoodNonces(ns) && GoodNonces(ms)
    requires AnswersRel(LowOut(codec, PlanFlags(plans)), vs, ws)
    ensures AnswersAlike(Execute(codec, plans, maxRows, ns, |plans|, vs),
                         Execute(codec, plans, maxRows, ms, |plans|, ws))
  {
    ExecuteKeeps(codec, plans, maxRows, ns, vs);
    ExecuteKeeps(codec, plans, maxRows, ms, ws);
    RowsRunAlike(codec, plans, ns, ms, KeptRows(vs, maxRows), KeptRows(ws, maxRows), Unseen(|plans|), 0);
    var x := Execute(codec, plans, maxRows, ns, |plans|, vs);
    if x.Ok? {
      assert PlansOf(x.value.columns) == plans;
    }
  }
}
