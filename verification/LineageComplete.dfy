/** Lineage is complete and sound: after analysis every column reference is qualified, appears in
    the references exactly once, and reads the source column recorded for it on every row. */
module LineageComplete {
  import opened Outcomes
  import opened Ast
  import opened Scope
  import opened Sequences
  import opened Values
  import opened Allowlist
  import opened Lineage
  import opened LineageFacts
  import opened Semantics
  import opened AnalysisMeaning

  function ClauseOf(q: Query, part: Part): Option<Expr> {
    match part
    case InProjection(i) => if i < |q.expressions| && q.expressions[i].Item? then Some(q.expressions[i].value) else None
    case InOn(j) => if j < |q.joins| then q.joins[j].on else None
    case InWhere => q.where_
    case InOrder(k) => if k < |q.order| then Some(q.order[k].target) else None
  }

  /** `position` holds a column reference. */
  predicate ColumnOf(q: Query, position: Position) {
    var clause := ClauseOf(q, position.part);
    clause.Some? && ColumnAt(clause.value, position.path)
  }

  function KindAt(q: Query, position: Position): Kind
    requires ColumnOf(q, position)
  {
    At(ClauseOf(q, position.part).value, position.path).value.kind
  }

  // ----- Positions covered by a list of references

  ghost predicate Covers(refs: seq<ColumnRef>, p: Position -> bool) {
    && (forall i, j :: 0 <= i < j < |refs| ==> refs[i].node != refs[j].node)
    && (forall i :: 0 <= i < |refs| ==> p(refs[i].node))
    && (forall position :: p(position) ==> exists i :: 0 <= i < |refs| && refs[i].node == position)
  }

  lemma CoversBoth(xs: seq<ColumnRef>, p: Position -> bool, ys: seq<ColumnRef>, q: Position -> bool,
                   r: Position -> bool)
    requires Covers(xs, p) && Covers(ys, q)
    requires forall position :: !(p(position) && q(position))
    requires forall position :: r(position) <==> p(position) || q(position)
    ensures Covers(xs + ys, r)
  {
    var zs := xs + ys;
    forall position | r(position)
      ensures exists i :: 0 <= i < |zs| && zs[i].node == position
    {
      if p(position) {
        var i :| 0 <= i < |xs| && xs[i].node == position;
        assert zs[i].node == position;
      } else {
        var i :| 0 <= i < |ys| && ys[i].node == position;
        assert zs[|xs| + i].node == position;
      }
    }
  }

  ghost function TreeColumns(part: Part, e: Expr): Position -> bool {
    (position: Position) => position.part == part && ColumnAt(e, position.path)
  }

  lemma TreeCovers(f: Resolver, part: Part, e: Expr)
    requires AnalyzeTree(f, part, e).Ok?
    ensures Covers(AnalyzeTree(f, part, e).value.refs, TreeColumns(part, e))
  {
    var refs, paths := AnalyzeTree(f, part, e).value.refs, ColumnPaths(e);
    AnalyzeTreeResolves(f, part, e);
    ColumnPathsComplete(e);
    assert forall i :: 0 <= i < |refs| ==> RefFor(f, part, e, paths[i], refs[i]);
    forall position | TreeColumns(part, e)(position)
      ensures exists i :: 0 <= i < |refs| && refs[i].node == position
    {
      var i :| 0 <= i < |paths| && paths[i] == position.path;
      assert refs[i].node == position;
    }
  }

  ghost function JoinColumns(joins: seq<Join>, from: nat): Position -> bool {
    (position: Position) =>
      && position.part.InOn? && from <= position.part.join < |joins|
      && joins[position.part.join].on.Some? && ColumnAt(joins[position.part.join].on.value, position.path)
  }

  lemma {:induction false} JoinsCover(f: Resolver, joins: seq<Join>, from: nat)
    requires from <= |joins| && AnalyzeJoins(f, joins, from).Ok?
    ensures Covers(AnalyzeJoins(f, joins, from).value.refs, JoinColumns(joins, from))
    decreases |joins| - from
  {
    if from < |joins| {
      JoinsCover(f, joins, from + 1);
      var here := (position: Position) => joins[from].on.Some?
        && TreeColumns(InOn(from), joins[from].on.value)(position);
      if joins[from].on.Some? {
        TreeCovers(f, InOn(from), joins[from].on.value);
      }
      CoversBoth(AnalyzeJoin(f, joins[from], from).value.refs, here,
                 AnalyzeJoins(f, joins, from + 1).value.refs, JoinColumns(joins, from + 1), JoinColumns(joins, from));
    }
  }

  ghost function OrderColumns(keys: seq<OrderKey>, from: nat): Position -> bool {
    (position: Position) =>
      position.part.InOrder? && from <= position.part.key < |keys|
        && ColumnAt(keys[position.part.key].target, position.path)
  }

  lemma {:induction false} OrderCovers(f: Resolver, keys: seq<OrderKey>, from: nat)
    requires from <= |keys| && AnalyzeOrder(f, keys, from).Ok?
    ensures Covers(AnalyzeOrder(f, keys, from).value.refs, OrderColumns(keys, from))
    decreases |keys| - from
  {
    if from < |keys| {
      OrderCovers(f, keys, from + 1);
      TreeCovers(f, InOrder(from), keys[from].target);
      CoversBoth(AnalyzeKey(f, keys[from], from).value.refs, TreeColumns(InOrder(from), keys[from].target),
                 AnalyzeOrder(f, keys, from + 1).value.refs, OrderColumns(keys, from + 1), OrderColumns(keys, from));
    }
  }

  /** The select-list items from `from` on that are columns. */
  ghost function ItemColumns(ps: seq<Projection>, from: nat): Position -> bool {
    (position: Position) =>
      && position.part.InProjection? && position.path == []
      && from <= position.part.item < |ps| && ps[position.part.item].Item? && ps[position.part.item].value.kind.Column?
  }

  lemma {:induction false} ItemsCover(f: Resolver, ps: seq<Projection>, from: nat)
    requires from <= |ps| && AnalyzeProjections(f, ps, from).Ok?
    ensures Covers(AnalyzeProjections(f, ps, from).value.refs, ItemColumns(ps, from))
    decreases |ps| - from
  {
    if from < |ps| {
      ItemsCover(f, ps, from + 1);
      var here := (position: Position) => position == Position(InProjection(from), []) && ps[from].Item?
        && ps[from].value.kind.Column?;
      var refs := AnalyzeItem(f, ps[from], from).value.refs;
      assert Covers(refs, here) by {
        assert ps[from].Item? && ps[from].value.kind.Column? ==> refs[0].node == Position(InProjection(from), []);
      }
      CoversBoth(refs, here, AnalyzeProjections(f, ps, from + 1).value.refs, ItemColumns(ps, from + 1),
                 ItemColumns(ps, from));
    }
  }

  ghost function QueryColumns(q: Query): Position -> bool {
    (position: Position) => ColumnOf(q, position)
  }

  /** The columns that analysis looks at: all but those hidden inside a select-list expression. */
  ghost function ShownColumns(q: Query): Position -> bool {
    (position: Position) => Shown(q, position)
  }

  predicate Shown(q: Query, position: Position) {
    ColumnOf(q, position) && (position.part.InProjection? ==> position.path == [])
  }

  ghost function WhereColumns(condition: Option<Expr>): Position -> bool {
    (position: Position) => condition.Some? && position.part == InWhere && ColumnAt(condition.value, position.path)
  }

  lemma WhereCovers(f: Resolver, condition: Option<Expr>)
    requires AnalyzeWhere(f, condition).Ok?
    ensures Covers(AnalyzeWhere(f, condition).value.refs, WhereColumns(condition))
  {
    if condition.Some? {
      TreeCovers(f, InWhere, condition.value);
      assert forall p :: TreeColumns(InWhere, condition.value)(p) <==> WhereColumns(condition)(p);
    }
  }

  lemma PartsCover(q: Query, rp: seq<ColumnRef>, rj: seq<ColumnRef>, rw: seq<ColumnRef>, ro: seq<ColumnRef>)
    requires Covers(rp, ItemColumns(q.expressions, 0)) && Covers(rj, JoinColumns(q.joins, 0))
    requires Covers(rw, WhereColumns(q.where_)) && Covers(ro, OrderColumns(q.order, 0))
    ensures Covers(rp + rj + rw + ro, ShownColumns(q))
  {
    var pj := (position: Position) => !position.part.InWhere? && !position.part.InOrder? && Shown(q, position);
    var pjw := (position: Position) => !position.part.InOrder? && Shown(q, position);
    CoversBoth(rp, ItemColumns(q.expressions, 0), rj, JoinColumns(q.joins, 0), pj);
    CoversBoth(rp + rj, pj, rw, WhereColumns(q.where_), pjw);
    CoversBoth(rp + rj + rw, pjw, ro, OrderColumns(q.order, 0), ShownColumns(q));
  }

  /** The references are the shown column nodes of the query, each once. */
  lemma ClausesCover(f: Resolver, g: seq<OutputColumn> -> Resolver, q: Query)
    requires AnalyzeClauses(f, g, q).Ok?
    ensures Covers(AnalyzeClauses(f, g, q).value.references, ShownColumns(q))
  {
    ClausesParts(f, g, q);
    var h := g(AnalyzeClauses(f, g, q).value.outputs);
    ItemsCover(f, q.expressions, 0);
    JoinsCover(f, q.joins, 0);
    WhereCovers(f, q.where_);
    OrderCovers(h, q.order, 0);
    PartsCover(q, AnalyzeProjections(f, q.expressions, 0).value.refs, AnalyzeJoins(f, q.joins, 0).value.refs,
               AnalyzeWhere(f, q.where_).value.refs, AnalyzeOrder(h, q.order, 0).value.refs);
  }

  // ----- What each reference reads

  /** `r` is a column of the query's tables that its canonical name picks out. */
  ghost predicate Canonical(fold: Fold, scope: seq<Binding>, r: Resolved) {
    exists i: nat, j: nat :: IsColumn(scope, r, i, j) && ColumnOnly(fold, scope[i].table.columns, r.column, j)
  }

  ghost predicate CanonicalResolver(fold: Fold, scope: seq<Binding>, f: Resolver) {
    forall table, name :: f(table, name).Ok? ==> Canonical(fold, scope, f(table, name).value)
  }

  lemma ColumnResolverCanonical(fold: Fold, scope: seq<Binding>)
    ensures CanonicalResolver(fold, scope, ColumnResolver(fold, scope))
  {
    forall table, name | Resolve(fold, scope, table, name).Ok?
      ensures Canonical(fold, scope, Resolve(fold, scope, table, name).value)
    {
      var i, j := ResolveFinds(fold, scope, table, name);
    }
  }

  /** `output` records the column `r` it shows. */
  ghost predicate Shows(output: OutputColumn, r: Resolved) {
    output.source == Some(SourceOf(r)) && output.binding == Some(r.binding.name)
  }

  ghost predicate OutputsCanonical(fold: Fold, scope: seq<Binding>, outputs: seq<OutputColumn>) {
    forall k :: 0 <= k < |outputs| && outputs[k].source.Some? ==>
      exists r: Resolved :: Canonical(fold, scope, r) && Shows(outputs[k], r)
  }

  lemma OrderResolverCanonical(fold: Fold, scope: seq<Binding>, outputs: seq<OutputColumn>)
    requires DistinctBindings(fold, scope) && OutputsCanonical(fold, scope, outputs)
    ensures CanonicalResolver(fold, scope, OrderResolver(fold, scope, outputs))
  {
    ColumnResolverCanonical(fold, scope);
    forall table, name | ResolveOrder(fold, scope, outputs, table, name).Ok?
      ensures Canonical(fold, scope, ResolveOrder(fold, scope, outputs, table, name).value)
    {
      var named := OutputNamed(fold, name);
      if table != "" || Filter(outputs, named) == [] {
        assert ResolveOrder(fold, scope, outputs, table, name) == ColumnResolver(fold, scope)(table, name);
      } else {
        FilterOne(outputs, named);
        var k: nat :| OnlyAt(outputs, named, k);
        OwnerIsShown(fold, scope, outputs[k]);
      }
    }
  }

  lemma OwnerIsShown(fold: Fold, scope: seq<Binding>, output: OutputColumn)
    requires DistinctBindings(fold, scope) && output.source.Some?
    requires exists r: Resolved :: Canonical(fold, scope, r) && Shows(output, r)
    ensures var owners := Filter(scope, OwnerOf(output));
      |owners| == 1 && Canonical(fold, scope, Resolved(owners[0], output.source.value.column))
  {
    var r: Resolved :| Canonical(fold, scope, r) && Shows(output, r);
    var i: nat, j: nat :| IsColumn(scope, r, i, j) && ColumnOnly(fold, scope[i].table.columns, r.column, j);
    assert OnlyAt(scope, OwnerOf(output), i);
    FilterOne(scope, OwnerOf(output));
  }

  lemma OutputsShown(f: Resolver, fold: Fold, scope: seq<Binding>, ps: seq<Projection>)
    requires AnalyzeProjections(f, ps, 0).Ok? && CanonicalResolver(fold, scope, f)
    ensures OutputsCanonical(fold, scope, AnalyzeProjections(f, ps, 0).value.outputs)
  {
    ProjectionsPointwise(f, ps, 0);
    var outputs := AnalyzeProjections(f, ps, 0).value.outputs;
    forall k | 0 <= k < |outputs| && outputs[k].source.Some?
      ensures exists r: Resolved :: Canonical(fold, scope, r) && Shows(outputs[k], r)
    {
      assert AnalyzeItem(f, ps[k], k).value.output == outputs[k];
      assert Shows(outputs[k], f(ps[k].value.kind.table, ps[k].value.kind.name).value);
    }
  }

  /** The node of the reference holds the canonical name of the recorded source. */
  ghost predicate RefSound(fold: Fold, scope: seq<Binding>, clause: Expr, ref: ColumnRef) {
    && ColumnAt(clause, ref.node.path)
    && (exists r: Resolved ::
          Canonical(fold, scope, r) && At(clause, ref.node.path).value.kind == KindOf(r) && ref.source == SourceOf(r))
  }

  ghost predicate RefsSound(fold: Fold, scope: seq<Binding>, q: Query, refs: seq<ColumnRef>) {
    forall i :: 0 <= i < |refs| ==>
      ClauseOf(q, refs[i].node.part).Some? && RefSound(fold, scope, ClauseOf(q, refs[i].node.part).value, refs[i])
  }

  lemma TreeSound(f: Resolver, fold: Fold, scope: seq<Binding>, part: Part, e: Expr)
    requires AnalyzeTree(f, part, e).Ok? && CanonicalResolver(fold, scope, f)
    ensures var a := AnalyzeTree(f, part, e).value;
      forall i :: 0 <= i < |a.refs| ==> a.refs[i].node.part == part && RefSound(fold, scope, a.item, a.refs[i])
    ensures forall path :: ColumnAt(AnalyzeTree(f, part, e).value.item, path) <==> ColumnAt(e, path)
  {
    var a, paths := AnalyzeTree(f, part, e).value, ColumnPaths(e);
    AnalyzeTreeResolves(f, part, e);
    var g := (k: Kind) => Qualified(f, k);
    forall path {
      AtMap(e, g, path);
    }
    forall i | 0 <= i < |a.refs|
      ensures a.refs[i].node.part == part && RefSound(fold, scope, a.item, a.refs[i])
    {
      assert RefFor(f, part, e, paths[i], a.refs[i]);
      var kind := At(e, paths[i]).value.kind;
      assert At(a.item, paths[i]).value.kind == KindOf(f(kind.table, kind.name).value);
    }
  }

  lemma {:induction false} JoinsSound(f: Resolver, fold: Fold, scope: seq<Binding>, joins: seq<Join>, from: nat,
                                      q: Query)
    requires from <= |joins| && AnalyzeJoins(f, joins, from).Ok? && CanonicalResolver(fold, scope, f)
    requires |q.joins| == |joins| && q.joins[from..] == AnalyzeJoins(f, joins, from).value.item
    ensures RefsSound(fold, scope, q, AnalyzeJoins(f, joins, from).value.refs)
    decreases |joins| - from
  {
    if from < |joins| {
      var first, rest := AnalyzeJoin(f, joins[from], from).value, AnalyzeJoins(f, joins, from + 1).value;
      assert q.joins[from] == q.joins[from..][0] == first.item;
      assert q.joins[from + 1..] == q.joins[from..][1..] == rest.item;
      JoinsSound(f, fold, scope, joins, from + 1, q);
      if joins[from].on.Some? {
        TreeSound(f, fold, scope, InOn(from), joins[from].on.value);
      }
      assert RefsSound(fold, scope, q, first.refs);
    }
  }

  lemma {:induction false} OrderSound(f: Resolver, fold: Fold, scope: seq<Binding>, keys: seq<OrderKey>, from: nat,
                                      q: Query)
    requires from <= |keys| && AnalyzeOrder(f, keys, from).Ok? && CanonicalResolver(fold, scope, f)
    requires |q.order| == |keys| && q.order[from..] == AnalyzeOrder(f, keys, from).value.item
    ensures RefsSound(fold, scope, q, AnalyzeOrder(f, keys, from).value.refs)
    decreases |keys| - from
  {
    if from < |keys| {
      var first, rest := AnalyzeKey(f, keys[from], from).value, AnalyzeOrder(f, keys, from + 1).value;
      assert q.order[from] == q.order[from..][0] == first.item;
      assert q.order[from + 1..] == q.order[from..][1..] == rest.item;
      OrderSound(f, fold, scope, keys, from + 1, q);
      TreeSound(f, fold, scope, InOrder(from), keys[from].target);
      assert RefsSound(fold, scope, q, first.refs);
    }
  }

  lemma {:induction false} ItemsSound(f: Resolver, fold: Fold, scope: seq<Binding>, ps: seq<Projection>, from: nat,
                                      q: Query)
    requires from <= |ps| && AnalyzeProjections(f, ps, from).Ok? && CanonicalResolver(fold, scope, f)
    requires |q.expressions| == |ps| && q.expressions[from..] == AnalyzeProjections(f, ps, from).value.items
    ensures RefsSound(fold, scope, q, AnalyzeProjections(f, ps, from).value.refs)
    decreases |ps| - from
  {
    if from < |ps| {
      var first, rest := AnalyzeItem(f, ps[from], from).value, AnalyzeProjections(f, ps, from + 1).value;
      assert q.expressions[from] == q.expressions[from..][0] == first.item;
      assert q.expressions[from + 1..] == q.expressions[from..][1..] == rest.items;
      ItemsSound(f, fold, scope, ps, from + 1, q);
      assert RefsSound(fold, scope, q, first.refs);
    }
  }

  lemma ClausesSound(f: Resolver, g: seq<OutputColumn> -> Resolver, fold: Fold, scope: seq<Binding>, q: Query)
    requires AnalyzeClauses(f, g, q).Ok? && CanonicalResolver(fold, scope, f)
    requires CanonicalResolver(fold, scope, g(AnalyzeClauses(f, g, q).value.outputs))
    ensures RefsSound(fold, scope, AnalyzeClauses(f, g, q).value.query, AnalyzeClauses(f, g, q).value.references)
  {
    ClausesParts(f, g, q);
    var a := AnalyzeClauses(f, g, q).value;
    ProjectionsPointwise(f, q.expressions, 0);
    JoinsPointwise(f, q.joins, 0);
    OrderPointwise(g(a.outputs), q.order, 0);
    assert a.query.expressions[0..] == a.query.expressions && a.query.joins[0..] == a.query.joins
      && a.query.order[0..] == a.query.order;
    ItemsSound(f, fold, scope, q.expressions, 0, a.query);
    JoinsSound(f, fold, scope, q.joins, 0, a.query);
    WhereSound(f, fold, scope, q.where_, a.query);
    OrderSound(g(a.outputs), fold, scope, q.order, 0, a.query);
    var rp, rj := AnalyzeProjections(f, q.expressions, 0).value.refs, AnalyzeJoins(f, q.joins, 0).value.refs;
    var rw := AnalyzeWhere(f, q.where_).value.refs;
    BothSound(fold, scope, a.query, rp, rj);
    BothSound(fold, scope, a.query, rp + rj, rw);
    BothSound(fold, scope, a.query, rp + rj + rw, AnalyzeOrder(g(a.outputs), q.order, 0).value.refs);
  }

  lemma WhereSound(f: Resolver, fold: Fold, scope: seq<Binding>, condition: Option<Expr>, q: Query)
    requires AnalyzeWhere(f, condition).Ok? && CanonicalResolver(fold, scope, f)
        && q.where_ == AnalyzeWhere(f, condition).value.item
    ensures RefsSound(fold, scope, q, AnalyzeWhere(f, condition).value.refs)
  {
    if condition.Some? {
      TreeSound(f, fold, scope, InWhere, condition.value);
    }
  }

  lemma BothSound(fold: Fold, scope: seq<Binding>, q: Query, xs: seq<ColumnRef>, ys: seq<ColumnRef>)
    requires RefsSound(fold, scope, q, xs) && RefsSound(fold, scope, q, ys)
    ensures RefsSound(fold, scope, q, xs + ys)
  {
  }

  // ----- The whole query

  lemma ItemColumnsKept(f: Resolver, ps: seq<Projection>, i: nat, path: Path)
    requires AnalyzeProjections(f, ps, 0).Ok? && i < |ps|
    ensures var items := AnalyzeProjections(f, ps, 0).value.items;
      && |items| == |ps| && (items[i].Item? <==> ps[i].Item?)
      && (ps[i].Item? ==> (ColumnAt(items[i].value, path) <==> ColumnAt(ps[i].value, path)))
  {
    ProjectionsPointwise(f, ps, 0);
    assert AnalyzeItem(f, ps[i], i).value.item == AnalyzeProjections(f, ps, 0).value.items[i];
  }

  lemma JoinColumnsKept(f: Resolver, fold: Fold, scope: seq<Binding>, joins: seq<Join>, j: nat, path: Path)
    requires AnalyzeJoins(f, joins, 0).Ok? && j < |joins| && CanonicalResolver(fold, scope, f)
    ensures var joins' := AnalyzeJoins(f, joins, 0).value.item;
      && |joins'| == |joins| && (joins'[j].on.Some? <==> joins[j].on.Some?)
      && (joins[j].on.Some? ==> (ColumnAt(joins'[j].on.value, path) <==> ColumnAt(joins[j].on.value, path)))
  {
    JoinsAnalyzed(f, joins);
    assert JoinAnalyzed(f, j, joins[j], AnalyzeJoins(f, joins, 0).value.item[j]);
    if joins[j].on.Some? {
      TreeSound(f, fold, scope, InOn(j), joins[j].on.value);
    }
  }

  lemma OrderColumnsKept(f: Resolver, fold: Fold, scope: seq<Binding>, keys: seq<OrderKey>, k: nat, path: Path)
    requires AnalyzeOrder(f, keys, 0).Ok? && k < |keys| && CanonicalResolver(fold, scope, f)
    ensures var keys' := AnalyzeOrder(f, keys, 0).value.item;
      |keys'| == |keys| && (ColumnAt(keys'[k].target, path) <==> ColumnAt(keys[k].target, path))
  {
    OrderAnalyzed(f, keys);
    assert KeyAnalyzed(f, k, keys[k], AnalyzeOrder(f, keys, 0).value.item[k]);
    TreeSound(f, fold, scope, InOrder(k), keys[k].target);
  }

  /** Analysis renames columns; it neither adds nor removes any. */
  lemma ColumnsKept(f: Resolver, g: seq<OutputColumn> -> Resolver, fold: Fold, scope: seq<Binding>, q: Query,
                    position: Position)
    requires AnalyzeClauses(f, g, q).Ok? && CanonicalResolver(fold, scope, f)
    requires CanonicalResolver(fold, scope, g(AnalyzeClauses(f, g, q).value.outputs))
    ensures ColumnOf(AnalyzeClauses(f, g, q).value.query, position) <==> ColumnOf(q, position)
  {
    ClausesParts(f, g, q);
    var outputs := AnalyzeClauses(f, g, q).value.outputs;
    match position.part {
      case InProjection(i) =>
        ProjectionsPointwise(f, q.expressions, 0);
        if i < |q.expressions| {
          ItemColumnsKept(f, q.expressions, i, position.path);
        }
      case InOn(j) =>
        JoinsAnalyzed(f, q.joins);
        if j < |q.joins| {
          JoinColumnsKept(f, fold, scope, q.joins, j, position.path);
        }
      case InWhere =>
        if q.where_.Some? {
          TreeSound(f, fold, scope, InWhere, q.where_.value);
        }
      case InOrder(k) =>
        OrderAnalyzed(g(outputs), q.order);
        if k < |q.order| {
          OrderColumnsKept(g(outputs), fold, scope, q.order, k, position.path);
        }
    }
  }

  lemma ClausesLineage(f: Resolver, g: seq<OutputColumn> -> Resolver, fold: Fold, scope: seq<Binding>, q: Query)
    requires AnalyzeClauses(f, g, q).Ok? && CanonicalResolver(fold, scope, f)
    requires CanonicalResolver(fold, scope, g(AnalyzeClauses(f, g, q).value.outputs))
    requires DistinctBindings(fold, scope) && NamedBindings(scope)
    ensures var a := AnalyzeClauses(f, g, q).value;
      && Covers(a.references, ShownColumns(a.query))
      && (forall i :: 0 <= i < |a.references| ==>
            ReadsSource(scope, KindAt(a.query, a.references[i].node), a.references[i].source))
  {
    var a := AnalyzeClauses(f, g, q).value;
    ClausesCover(f, g, q);
    ClausesSound(f, g, fold, scope, q);
    forall position
      ensures ShownColumns(a.query)(position) <==> ShownColumns(q)(position)
    {
      ColumnsKept(f, g, fold, scope, q, position);
    }
    forall i | 0 <= i < |a.references|
      ensures ReadsSource(scope, KindAt(a.query, a.references[i].node), a.references[i].source)
    {
      var ref := a.references[i];
      assert RefSound(fold, scope, ClauseOf(a.query, ref.node.part).value, ref);
      var r: Resolved :| Canonical(fold, scope, r) && KindAt(a.query, ref.node) == KindOf(r)
        && ref.source == SourceOf(r);
      CanonicalReads(fold, scope, r);
    }
  }

  /** On every row, a column reference of this kind reads column `source` of one of the tables. */
  ghost predicate ReadsSource(scope: seq<Binding>, kind: Kind, source: SourceColumn) {
    && kind.Column? && kind.table != ""
    && exists i: nat, j: nat ::
      && i < |scope| && j < |scope[i].table.columns|
      && kind == KindOf(Resolved(scope[i], scope[i].table.columns[j]))
      && source == SourceOf(Resolved(scope[i], scope[i].table.columns[j]))
      && ReadsCell(scope, kind, i, j)
  }

  /** The cell of a row environment; a table that is not joined yet has none. */
  function CellOf(env: Env, i: nat, j: nat): Value {
    if i < |env| && j < |env[i]| then env[i][j] else Null
  }

  ghost predicate ReadsCell(scope: seq<Binding>, kind: Kind, i: nat, j: nat)
    requires kind.Column?
  {
    forall env :: Shaped(scope, env) ==>
      ColumnValue(Exact(), scope, env, kind.table, kind.name) == CellOf(env, i, j)
  }

  lemma CanonicalReads(fold: Fold, scope: seq<Binding>, r: Resolved)
    requires Canonical(fold, scope, r) && DistinctBindings(fold, scope) && NamedBindings(scope)
    ensures ReadsSource(scope, KindOf(r), SourceOf(r))
  {
    var i: nat, j: nat :| IsColumn(scope, r, i, j) && ColumnOnly(fold, scope[i].table.columns, r.column, j);
    CanonicalIsExact(fold, scope, i, j);
    forall env | Shaped(scope, env)
      ensures ColumnValue(Exact(), scope, env, r.binding.name, r.column) == CellOf(env, i, j)
    {
      ColumnValueIs(Exact(), scope, env, r.binding.name, r.column, i, j);
    }
    assert ReadsCell(scope, KindOf(r), i, j);
  }

  // ----- Columns that analysis does not see

  lemma {:induction false} ColumnFreeEverywhere(e: Expr)
    ensures ColumnFree(e) <==> Everywhere(e, (k: Kind) => !k.Column?)
  {
    forall i | 0 <= i < |e.kids| {
      ColumnFreeEverywhere(e.kids[i]);
    }
  }

  lemma ColumnFreeAt(e: Expr)
    ensures ColumnFree(e) <==> forall path :: !ColumnAt(e, path)
  {
    var p := (k: Kind) => !k.Column?;
    ColumnFreeEverywhere(e);
    if ColumnFree(e) {
      forall path | At(e, path).Some?
        ensures !ColumnAt(e, path)
      {
        EverywhereAt(e, p, path);
      }
    } else if forall path :: !ColumnAt(e, path) {
      forall path | At(e, path).Some?
        ensures p(At(e, path).value.kind)
      {
        assert !ColumnAt(e, path);
      }
      AtEverywhere(e, p);
    }
  }

  /** An allowed value hides no column iff every column of it is its root. */
  lemma InSightAt(e: Expr)
    requires AllowedExpr(e, false)
    ensures InSight(e) <==> forall path :: ColumnAt(e, path) ==> path == []
  {
    ColumnFreeAt(e);
    assert At(e, []) == Some(e);
    if e.kind.Column? {
      assert e.kids == [];
    }
  }

  lemma ShownIsAll(q: Query)
    requires Allowed(q, false)
    ensures ColumnsInSight(q) <==> forall position :: QueryColumns(q)(position) ==> ShownColumns(q)(position)
  {
    forall i | 0 <= i < |q.expressions| && q.expressions[i].Item? {
      InSightAt(q.expressions[i].value);
    }
    if !ColumnsInSight(q) {
      var i :| 0 <= i < |q.expressions| && q.expressions[i].Item? && !InSight(q.expressions[i].value);
      InSightAt(q.expressions[i].value);
      var path :| ColumnAt(q.expressions[i].value, path) && path != [];
      var position := Position(InProjection(i), path);
      assert QueryColumns(q)(position) && !ShownColumns(q)(position);
    }
  }

  lemma {:induction false} ItemsStay(fold: Fold, scope: seq<Binding>, ps: seq<Projection>, i: nat)
    requires ExpandStars(fold, scope, ps).Ok? && i < |ps| && ps[i].Item?
    ensures ps[i] in ExpandStars(fold, scope, ps).value
  {
    if i > 0 {
      ItemsStay(fold, scope, ps[1..], i - 1);
    }
  }

  ghost predicate ItemsInSight(ps: seq<Projection>) {
    forall i :: 0 <= i < |ps| && ps[i].Item? ==> InSight(ps[i].value)
  }

  /** Expanding stars hides no column and shows none. */
  lemma ExpansionSight(fold: Fold, scope: seq<Binding>, ps: seq<Projection>)
    requires ExpandStars(fold, scope, ps).Ok?
    ensures ItemsInSight(ExpandStars(fold, scope, ps).value) <==> ItemsInSight(ps)
  {
    var qs := ExpandStars(fold, scope, ps).value;
    var good := (p: Projection) => p.Item? ==> InSight(p.value);
    if ItemsInSight(ps) {
      ExpandedGood(fold, scope, ps, good);
      assert forall k :: 0 <= k < |qs| ==> good(qs[k]);
    }
    if ItemsInSight(qs) {
      forall i | 0 <= i < |ps| && ps[i].Item?
        ensures InSight(ps[i].value)
      {
        ItemsStay(fold, scope, ps, i);
        var k :| 0 <= k < |qs| && qs[k] == ps[i];
      }
    }
  }

  lemma AnalysisSight(f: Resolver, ps: seq<Projection>)
    requires AnalyzeProjections(f, ps, 0).Ok?
    ensures ItemsInSight(AnalyzeProjections(f, ps, 0).value.items) <==> ItemsInSight(ps)
  {
    var items := AnalyzeProjections(f, ps, 0).value.items;
    ProjectionsPointwise(f, ps, 0);
    forall i | 0 <= i < |ps|
      ensures (items[i].Item? <==> ps[i].Item?) && (ps[i].Item? ==> (InSight(items[i].value) <==> InSight(ps[i].value)))
    {
      assert AnalyzeItem(f, ps[i], i).value.item == items[i];
    }
  }

  lemma CoversSame(refs: seq<ColumnRef>, p: Position -> bool, q: Position -> bool)
    requires Covers(refs, p)
    ensures Covers(refs, q) <==> forall position :: p(position) <==> q(position)
  {
    if Covers(refs, q) {
      forall position
        ensures p(position) <==> q(position)
      {
      }
    }
  }

  /** MAIN RESULT. In every accepted analysis the references are its shown columns, each exactly once;
      each is qualified and on every row reads the source recorded for it. They are all of its columns
      iff the caller's select list hides none. */
  lemma LineageIsCompleteAndSound(fold: Fold, cross: CrossCheck, limits: Limits, q: Query, schemas: seq<TableSchema>)
    requires NamedTables(schemas) && Analyze(fold, cross, limits, q, schemas).Ok?
    ensures var scope, a := Collect(fold, q, schemas).value, Analyze(fold, cross, limits, q, schemas).value;
      && Covers(a.references, ShownColumns(a.query))
      && (forall i :: 0 <= i < |a.references| ==>
            ReadsSource(scope, KindAt(a.query, a.references[i].node), a.references[i].source))
      && (Covers(a.references, QueryColumns(a.query)) <==> ColumnsInSight(q))
  {
    AnalyzeStages(fold, cross, limits, q, schemas);
    CollectPairs(fold, q, schemas);
    var scope, a := Collect(fold, q, schemas).value, Analyze(fold, cross, limits, q, schemas).value;
    var working := q.(expressions := ExpandStars(fold, scope, q.expressions).value);
    var f, g := ColumnResolver(fold, scope), OrderResolvers(fold, scope);
    ClausesParts(f, g, working);
    ColumnResolverCanonical(fold, scope);
    OutputsShown(f, fold, scope, working.expressions);
    OrderResolverCanonical(fold, scope, a.outputs);
    ClausesLineage(f, g, fold, scope, working);
    ExpansionSight(fold, scope, q.expressions);
    AnalysisSight(f, working.expressions);
    SightIsCoverage(a, q);
  }

  lemma SightIsCoverage(a: AnalyzedQuery, q: Query)
    requires Covers(a.references, ShownColumns(a.query)) && Allowed(a.query, false)
    requires ItemsInSight(a.query.expressions) <==> ItemsInSight(q.expressions)
    ensures Covers(a.references, QueryColumns(a.query)) <==> ColumnsInSight(q)
  {
    ShownIsAll(a.query);
    CoversSame(a.references, ShownColumns(a.query), QueryColumns(a.query));
  }

  /** An output has a source iff its item is a column, and then it is the source that column reads. */
  ghost predicate OutputMatches(scope: seq<Binding>, p: Projection, output: OutputColumn) {
    && p.Item?
    && (output.source.Some? <==> p.value.kind.Column?)
    && (output.source.Some? ==> ReadsSource(scope, p.value.kind, output.source.value))
  }

  ghost predicate OutputsMatch(scope: seq<Binding>, a: AnalyzedQuery) {
    |a.outputs| == |a.query.expressions|
    && forall i :: 0 <= i < |a.outputs| ==> OutputMatches(scope, a.query.expressions[i], a.outputs[i])
  }

  lemma ItemsMatch(f: Resolver, fold: Fold, scope: seq<Binding>, ps: seq<Projection>)
    requires AnalyzeProjections(f, ps, 0).Ok? && CanonicalResolver(fold, scope, f)
    requires forall i :: 0 <= i < |ps| ==> ps[i].Item?
    requires DistinctBindings(fold, scope) && NamedBindings(scope)
    ensures var r := AnalyzeProjections(f, ps, 0).value;
      |r.items| == |r.outputs| && forall i :: 0 <= i < |r.items| ==> OutputMatches(scope, r.items[i], r.outputs[i])
  {
    ProjectionsPointwise(f, ps, 0);
    var r := AnalyzeProjections(f, ps, 0).value;
    forall i | 0 <= i < |r.items|
      ensures OutputMatches(scope, r.items[i], r.outputs[i])
    {
      assert AnalyzeItem(f, ps[i], i).value.item == r.items[i];
      if ps[i].value.kind.Column? {
        CanonicalReads(fold, scope, f(ps[i].value.kind.table, ps[i].value.kind.name).value);
      }
    }
  }

  lemma OutputsMatchItems(fold: Fold, cross: CrossCheck, limits: Limits, q: Query, schemas: seq<TableSchema>)
    requires NamedTables(schemas) && Analyze(fold, cross, limits, q, schemas).Ok?
    ensures OutputsMatch(Collect(fold, q, schemas).value, Analyze(fold, cross, limits, q, schemas).value)
  {
    AnalyzeStages(fold, cross, limits, q, schemas);
    CollectPairs(fold, q, schemas);
    var scope := Collect(fold, q, schemas).value;
    var working := q.(expressions := ExpandStars(fold, scope, q.expressions).value);
    ExpandedItems(fold, scope, q.expressions);
    ClausesParts(ColumnResolver(fold, scope), OrderResolvers(fold, scope), working);
    ColumnResolverCanonical(fold, scope);
    ItemsMatch(ColumnResolver(fold, scope), fold, scope, working.expressions);
  }
}
