/** Table aliases are arbitrary: renaming them consistently changes neither what is accepted, nor the
    sources of the outputs, the decision of the policy, or the rows. */
module Renaming {
  import opened Outcomes
  import opened Ast
  import opened Scope
  import opened Sequences
  import opened Allowlist
  import opened Lineage
  import opened LineageFacts
  import opened AnalysisMeaning
  import opened LimitsKept
  import opened Idempotence

  // ----- Renaming

  type Rename = string -> string

  function MapSeq<S, T>(m: S -> T, s: seq<S>): seq<T> {
    seq(|s|, i requires 0 <= i < |s| => m(s[i]))
  }

  function MapResult<S, T>(m: S -> T, r: Result<S>): Result<T> {
    if r.Ok? then Ok(m(r.value)) else Rejected(r.reason)
  }

  function NameOf(rename: Rename, name: string): string {
    if name == "" then "" else rename(name)
  }

  function RenameKind(rename: Rename): Kind -> Kind {
    (k: Kind) => if k.Column? then Column(NameOf(rename, k.table), k.name) else k
  }

  function RenameExpr(rename: Rename, e: Expr): Expr {
    MapKinds(e, RenameKind(rename))
  }

  function RenamedItem(rename: Rename, p: Projection): Projection {
    match p
    case AllColumns => p
    case TableColumns(table) => TableColumns(rename(table))
    case Item(value, alias) => Item(RenameExpr(rename, value), alias)
  }

  function RenameItem(rename: Rename): Projection -> Projection {
    (p: Projection) => RenamedItem(rename, p)
  }

  function RenameTable(rename: Rename, t: TableRef): TableRef {
    t.(alias := NameOf(rename, t.alias))
  }

  function RenameOption(rename: Rename, e: Option<Expr>): Option<Expr> {
    if e.None? then None else Some(RenameExpr(rename, e.value))
  }

  function RenameJoin(rename: Rename): Join -> Join {
    (j: Join) => j.(table := RenameTable(rename, j.table), on := RenameOption(rename, j.on))
  }

  function RenameKey(rename: Rename): OrderKey -> OrderKey {
    (k: OrderKey) => k.(target := RenameExpr(rename, k.target))
  }

  function RenameQuery(rename: Rename, q: Query): Query {
    q.(expressions := MapSeq(RenameItem(rename), q.expressions),
       from_ := if q.from_.None? then None else Some(RenameTable(rename, q.from_.value)),
       joins := MapSeq(RenameJoin(rename), q.joins),
       where_ := RenameOption(rename, q.where_),
       order := MapSeq(RenameKey(rename), q.order))
  }

  function RenameBinding(rename: Rename): Binding -> Binding {
    (b: Binding) => Binding(rename(b.name), b.table)
  }

  function RenameResolved(rename: Rename): Resolved -> Resolved {
    (r: Resolved) => Resolved(Binding(rename(r.binding.name), r.binding.table), r.column)
  }

  function RenamedOutput(rename: Rename, o: OutputColumn): OutputColumn {
    o.(binding := if o.binding.None? then None else Some(rename(o.binding.value)))
  }

  function RenameOutput(rename: Rename): OutputColumn -> OutputColumn {
    (o: OutputColumn) => RenamedOutput(rename, o)
  }

  function RenameAnalyzed(rename: Rename): AnalyzedQuery -> AnalyzedQuery {
    (a: AnalyzedQuery) => AnalyzedQuery(RenameQuery(rename, a.query), MapSeq(RenameOutput(rename), a.outputs),
                                        a.references)
  }

  // ----- Consistent renamings

  /** The new names are equal under case folding exactly where the old ones were. */
  ghost predicate Consistent(fold: Fold, rename: Rename, names: set<string>) {
    && "" !in names
    && (forall a :: a != "" ==> rename(a) != "")
    && (forall a, b :: a in names && b in names ==> (fold(rename(a)) == fold(rename(b)) <==> fold(a) == fold(b)))
  }

  function Uses(names: set<string>): Kind -> bool {
    (k: Kind) => k.Column? && k.table != "" ==> k.table in names
  }

  ghost predicate ItemUses(names: set<string>, p: Projection) {
    match p
    case AllColumns => true
    case TableColumns(table) => table in names
    case Item(value, _) => Everywhere(value, Uses(names))
  }

  /** `names` has every qualifier of the query. */
  ghost predicate QueryUses(names: set<string>, q: Query) {
    && (forall i :: 0 <= i < |q.expressions| ==> ItemUses(names, q.expressions[i]))
    && (forall j :: 0 <= j < |q.joins| && q.joins[j].on.Some? ==> Everywhere(q.joins[j].on.value, Uses(names)))
    && (q.where_.Some? ==> Everywhere(q.where_.value, Uses(names)))
    && (forall k :: 0 <= k < |q.order| ==> Everywhere(q.order[k].target, Uses(names)))
  }

  ghost predicate ScopeUses(names: set<string>, scope: seq<Binding>) {
    forall i :: 0 <= i < |scope| ==> scope[i].name in names
  }

  /** `names` has the name of every table of the query, and one without an alias keeps it. */
  ghost predicate TablesUse(rename: Rename, names: set<string>, nodes: seq<TableRef>, schemas: seq<TableSchema>) {
    |nodes| == |schemas| ==>
      forall i :: 0 <= i < |nodes| ==>
        && BindingName(nodes[i], schemas[i]) in names
        && (nodes[i].alias == "" ==> rename(schemas[i].name) == schemas[i].name)
  }

  ghost predicate RenamesConsistently(fold: Fold, rename: Rename, names: set<string>, q: Query,
                                      schemas: seq<TableSchema>) {
    Consistent(fold, rename, names) && QueryUses(names, q) && TablesUse(rename, names, TableRefs(q), schemas)
  }

  // ----- Resolution

  lemma {:induction false} FilterMapped<S, T>(m: S -> T, s: seq<S>, p: S -> bool, p': T -> bool)
    requires forall i :: 0 <= i < |s| ==> p'(m(s[i])) == p(s[i])
    ensures Filter(MapSeq(m, s), p') == MapSeq(m, Filter(s, p))
  {
    if s != [] {
      assert MapSeq(m, s)[1..] == MapSeq(m, s[1..]);
      FilterMapped(m, s[1..], p, p');
    }
  }

  lemma {:induction false} CandidatesRenamed(fold: Fold, rename: Rename, scope: seq<Binding>, name: string)
    ensures Candidates(fold, MapSeq(RenameBinding(rename), scope), name)
      == MapSeq(RenameResolved(rename), Candidates(fold, scope, name))
  {
    if scope != [] {
      assert MapSeq(RenameBinding(rename), scope)[1..] == MapSeq(RenameBinding(rename), scope[1..]);
      CandidatesRenamed(fold, rename, scope[1..], name);
    }
  }

  /** `g` resolves a renamed name to the renamed result of `f`. */
  ghost predicate Follows(rename: Rename, names: set<string>, f: Resolver, g: Resolver) {
    forall table, name :: table == "" || table in names ==>
      && g(NameOf(rename, table), name) == MapResult(RenameResolved(rename), f(table, name))
      && (f(table, name).Ok? ==> f(table, name).value.binding.name in names)
  }

  lemma QualifierRenamed(fold: Fold, rename: Rename, names: set<string>, scope: seq<Binding>, table: string)
    requires Consistent(fold, rename, names) && ScopeUses(names, scope) && table in names
    ensures Filter(MapSeq(RenameBinding(rename), scope), BindingNamed(fold, rename(table)))
         == MapSeq(RenameBinding(rename), Filter(scope, BindingNamed(fold, table)))
  {
    FilterMapped(RenameBinding(rename), scope, BindingNamed(fold, table), BindingNamed(fold, rename(table)));
  }

  lemma ResolveRenamed(fold: Fold, rename: Rename, names: set<string>, scope: seq<Binding>)
    requires Consistent(fold, rename, names) && ScopeUses(names, scope)
    ensures Follows(rename, names, ColumnResolver(fold, scope),
                    ColumnResolver(fold, MapSeq(RenameBinding(rename), scope)))
  {
    var scope' := MapSeq(RenameBinding(rename), scope);
    forall table, name | table == "" || table in names
      ensures Resolve(fold, scope', NameOf(rename, table), name)
        == MapResult(RenameResolved(rename), Resolve(fold, scope, table, name))
      ensures Resolve(fold, scope, table, name).Ok? ==> Resolve(fold, scope, table, name).value.binding.name in names
    {
      if table == "" {
        CandidatesRenamed(fold, rename, scope, name);
      } else {
        QualifierRenamed(fold, rename, names, scope, table);
      }
      if Resolve(fold, scope, table, name).Ok? {
        var i, j := ResolveFinds(fold, scope, table, name);
      }
    }
  }

  // ----- Expressions

  /** One column, renamed. */
  lemma ColumnRenamed(rename: Rename, names: set<string>, f: Resolver, g: Resolver, kind: Kind)
    requires Follows(rename, names, f, g) && "" !in names && kind.Column? && Uses(names)(kind)
    ensures var x, y := f(kind.table, kind.name), g(NameOf(rename, kind.table), kind.name);
      && (x.Rejected? ==> y == Rejected(x.reason))
      && (x.Ok? ==> y == Ok(RenameResolved(rename)(x.value)) && KindOf(y.value) == RenameKind(rename)(KindOf(x.value))
                    && SourceOf(y.value) == SourceOf(x.value) && x.value.binding.name != "")
    ensures RenameKind(rename)(kind) == Column(NameOf(rename, kind.table), kind.name)
  {
    assert kind.table == "" || kind.table in names;
    var x, y := f(kind.table, kind.name), g(NameOf(rename, kind.table), kind.name);
    assert y == MapResult(RenameResolved(rename), x);
    if x.Ok? {
      assert RenameResolved(rename)(x.value)
        == Resolved(Binding(rename(x.value.binding.name), x.value.binding.table), x.value.column);
    }
  }

  lemma {:induction false} QualifiedRenamed(rename: Rename, names: set<string>, f: Resolver, g: Resolver, e: Expr)
    requires Follows(rename, names, f, g) && "" !in names && Everywhere(e, Uses(names))
    ensures MapKinds(RenameExpr(rename, e), QualifiedBy(g)) == RenameExpr(rename, MapKinds(e, QualifiedBy(f)))
  {
    forall i | 0 <= i < |e.kids| {
      QualifiedRenamed(rename, names, f, g, e.kids[i]);
    }
    if e.kind.Column? {
      ColumnRenamed(rename, names, f, g, e.kind);
    }
    assert QualifiedBy(g)(RenameKind(rename)(e.kind)) == RenameKind(rename)(QualifiedBy(f)(e.kind));
  }

  lemma {:induction false} TreeRefsRenamed(rename: Rename, names: set<string>, f: Resolver, g: Resolver, part: Part,
                                           e: Expr, e': Expr, paths: seq<Path>)
    requires Follows(rename, names, f, g) && "" !in names
    requires forall i :: 0 <= i < |paths| ==>
      && ColumnAt(e, paths[i]) && ColumnAt(e', paths[i])
      && ColumnCorresponds(rename, names, At(e, paths[i]).value.kind, At(e', paths[i]).value.kind)
    ensures TreeRefs(g, part, e', paths) == TreeRefs(f, part, e, paths)
  {
    if paths != [] {
      assert ColumnAt(e, paths[0]) && ColumnAt(e', paths[0]);
      assert ColumnCorresponds(rename, names, At(e, paths[0]).value.kind, At(e', paths[0]).value.kind);
      ColumnRenamed(rename, names, f, g, At(e, paths[0]).value.kind);
      TreeRefsRenamed(rename, names, f, g, part, e, e', paths[1..]);
    }
  }

  ghost predicate ColumnCorresponds(rename: Rename, names: set<string>, k: Kind, k': Kind) {
    k.Column? && Uses(names)(k) && k' == RenameKind(rename)(k)
  }

  function RenameTree(rename: Rename): Edited<Expr> -> Edited<Expr> {
    (a: Edited<Expr>) => Edited(RenameExpr(rename, a.item), a.refs)
  }

  lemma TreeRenamed(rename: Rename, names: set<string>, f: Resolver, g: Resolver, part: Part, e: Expr)
    requires Follows(rename, names, f, g) && "" !in names && Everywhere(e, Uses(names))
    ensures AnalyzeTree(g, part, RenameExpr(rename, e)) == MapResult(RenameTree(rename), AnalyzeTree(f, part, e))
  {
    var e' := RenameExpr(rename, e);
    ColumnPathsComplete(e);
    ColumnPathsComplete(e');
    ColumnPathsMapped(RenameKind(rename), e);
    assert forall i :: 0 <= i < |ColumnPaths(e)| ==> ColumnPaths(e)[i] in ColumnPaths(e);
    forall i | 0 <= i < |ColumnPaths(e)|
      ensures ColumnCorresponds(rename, names, At(e, ColumnPaths(e)[i]).value.kind,
                                At(e', ColumnPaths(e)[i]).value.kind)
    {
      AtMap(e, RenameKind(rename), ColumnPaths(e)[i]);
      EverywhereAt(e, Uses(names), ColumnPaths(e)[i]);
    }
    TreeRefsRenamed(rename, names, f, g, part, e, e', ColumnPaths(e));
    QualifiedRenamed(rename, names, f, g, e);
    SameMap(e, (k: Kind) => Qualified(f, k), QualifiedBy(f));
    SameMap(e', (k: Kind) => Qualified(g, k), QualifiedBy(g));
  }

  // ----- Clauses

  function RenameItemAnalysis(rename: Rename): ItemAnalysis -> ItemAnalysis {
    (a: ItemAnalysis) => ItemAnalysis(RenamedItem(rename, a.item), RenamedOutput(rename, a.output), a.refs)
  }

  lemma ItemRenamed(rename: Rename, names: set<string>, f: Resolver, g: Resolver, p: Projection, index: nat)
    requires Follows(rename, names, f, g) && "" !in names && ItemUses(names, p)
    ensures AnalyzeItem(g, RenamedItem(rename, p), index)
      == MapResult(RenameItemAnalysis(rename), AnalyzeItem(f, p, index))
  {
    if p.Item? && p.value.kind.Column? {
      ColumnRenamed(rename, names, f, g, p.value.kind);
      var r := f(p.value.kind.table, p.value.kind.name);
      if r.Ok? {
        var before, after := AnalyzeItem(f, p, index).value, AnalyzeItem(g, RenamedItem(rename, p), index).value;
        assert after.item == RenamedItem(rename, before.item);
        assert after.output == RenamedOutput(rename, before.output);
      }
    }
  }

  function RenameProjected(rename: Rename): Projected -> Projected {
    (a: Projected) => Projected(MapSeq(RenameItem(rename), a.items), MapSeq(RenameOutput(rename), a.outputs), a.refs)
  }

  lemma MapSeqPrepend<S, T>(m: S -> T, x: S, s: seq<S>)
    ensures MapSeq(m, [x] + s) == [m(x)] + MapSeq(m, s)
  {
  }

  lemma {:induction false} ItemsRenamed(rename: Rename, names: set<string>, f: Resolver, g: Resolver,
                                        ps: seq<Projection>, from: nat)
    requires Follows(rename, names, f, g) && "" !in names && from <= |ps| && forall i :: 0 <= i < |ps| ==>
      ItemUses(names, ps[i])
    ensures AnalyzeProjections(g, MapSeq(RenameItem(rename), ps), from)
      == MapResult(RenameProjected(rename), AnalyzeProjections(f, ps, from))
    decreases |ps| - from
  {
    if from < |ps| {
      ItemRenamed(rename, names, f, g, ps[from], from);
      ItemsRenamed(rename, names, f, g, ps, from + 1);
      var first, rest := AnalyzeItem(f, ps[from], from), AnalyzeProjections(f, ps, from + 1);
      if first.Ok? && rest.Ok? {
        MapSeqPrepend(RenameItem(rename), first.value.item, rest.value.items);
        MapSeqPrepend(RenameOutput(rename), first.value.output, rest.value.outputs);
      }
    } else {
      assert MapSeq(RenameItem(rename), []) == [] && MapSeq(RenameOutput(rename), []) == [];
    }
  }

  function RenameJoins(rename: Rename): Edited<seq<Join>> -> Edited<seq<Join>> {
    (a: Edited<seq<Join>>) => Edited(MapSeq(RenameJoin(rename), a.item), a.refs)
  }

  lemma {:induction false} JoinsRenamed(rename: Rename, names: set<string>, f: Resolver, g: Resolver, joins: seq<Join>,
                                        from: nat)
    requires Follows(rename, names, f, g) && "" !in names && from <= |joins|
    requires forall j :: 0 <= j < |joins| && joins[j].on.Some? ==> Everywhere(joins[j].on.value, Uses(names))
    ensures AnalyzeJoins(g, MapSeq(RenameJoin(rename), joins), from)
      == MapResult(RenameJoins(rename), AnalyzeJoins(f, joins, from))
    decreases |joins| - from
  {
    if from < |joins| {
      if joins[from].on.Some? {
        TreeRenamed(rename, names, f, g, InOn(from), joins[from].on.value);
      }
      JoinsRenamed(rename, names, f, g, joins, from + 1);
      var first, rest := AnalyzeJoin(f, joins[from], from), AnalyzeJoins(f, joins, from + 1);
      if first.Ok? && rest.Ok? {
        MapSeqPrepend(RenameJoin(rename), first.value.item, rest.value.item);
      }
    } else {
      assert MapSeq(RenameJoin(rename), []) == [];
    }
  }

  function RenameKeys(rename: Rename): Edited<seq<OrderKey>> -> Edited<seq<OrderKey>> {
    (a: Edited<seq<OrderKey>>) => Edited(MapSeq(RenameKey(rename), a.item), a.refs)
  }

  lemma {:induction false} OrderRenamed(rename: Rename, names: set<string>, f: Resolver, g: Resolver,
                                        keys: seq<OrderKey>, from: nat)
    requires Follows(rename, names, f, g) && "" !in names && from <= |keys|
    requires forall k :: 0 <= k < |keys| ==> Everywhere(keys[k].target, Uses(names))
    ensures AnalyzeOrder(g, MapSeq(RenameKey(rename), keys), from)
      == MapResult(RenameKeys(rename), AnalyzeOrder(f, keys, from))
    decreases |keys| - from
  {
    if from < |keys| {
      TreeRenamed(rename, names, f, g, InOrder(from), keys[from].target);
      OrderRenamed(rename, names, f, g, keys, from + 1);
      var first, rest := AnalyzeKey(f, keys[from], from), AnalyzeOrder(f, keys, from + 1);
      if first.Ok? && rest.Ok? {
        MapSeqPrepend(RenameKey(rename), first.value.item, rest.value.item);
      }
    } else {
      assert MapSeq(RenameKey(rename), []) == [];
    }
  }

  lemma ClausesRenamed(rename: Rename, names: set<string>, f: Resolver, g: Resolver, h: seq<OutputColumn> -> Resolver,
                       k: seq<OutputColumn> -> Resolver, q: Query)
    requires Follows(rename, names, f, g) && "" !in names && QueryUses(names, q)
    requires AnalyzeProjections(f, q.expressions, 0).Ok? ==>
      var outputs := AnalyzeProjections(f, q.expressions, 0).value.outputs;
      Follows(rename, names, h(outputs), k(MapSeq(RenameOutput(rename), outputs)))
    ensures AnalyzeClauses(g, k, RenameQuery(rename, q)) == MapResult(RenameAnalyzed(rename), AnalyzeClauses(f, h, q))
  {
    ItemsRenamed(rename, names, f, g, q.expressions, 0);
    JoinsRenamed(rename, names, f, g, q.joins, 0);
    if q.where_.Some? {
      TreeRenamed(rename, names, f, g, InWhere, q.where_.value);
    }
    if AnalyzeProjections(f, q.expressions, 0).Ok? {
      var outputs := AnalyzeProjections(f, q.expressions, 0).value.outputs;
      OrderRenamed(rename, names, h(outputs), k(MapSeq(RenameOutput(rename), outputs)), q.order, 0);
    }
  }

  // ----- ORDER BY, after the outputs

  /** Every output is read through a table of the query. */
  ghost predicate OutputsOwned(scope: seq<Binding>, outputs: seq<OutputColumn>) {
    forall k :: 0 <= k < |outputs| && outputs[k].binding.Some? ==>
      exists i :: 0 <= i < |scope| && scope[i].name == outputs[k].binding.value
  }

  lemma OwnerRenamed(fold: Fold, rename: Rename, names: set<string>, scope: seq<Binding>, o: OutputColumn)
    requires Consistent(fold, rename, names) && ScopeUses(names, scope) && DistinctBindings(fold, scope)
    requires o.binding.Some? ==> exists i :: 0 <= i < |scope| && scope[i].name == o.binding.value
    ensures Filter(MapSeq(RenameBinding(rename), scope), OwnerOf(RenamedOutput(rename, o)))
      == MapSeq(RenameBinding(rename), Filter(scope, OwnerOf(o)))
  {
    var m, p, p' := RenameBinding(rename), OwnerOf(o), OwnerOf(RenamedOutput(rename, o));
    forall i | 0 <= i < |scope|
      ensures p'(m(scope[i])) == p(scope[i])
    {
      if o.binding.Some? {
        var k :| 0 <= k < |scope| && scope[k].name == o.binding.value;
        assert fold(rename(scope[i].name)) == fold(rename(scope[k].name)) ==>
          fold(scope[i].name) == fold(scope[k].name);
      }
    }
    FilterMapped(m, scope, p, p');
  }

  /** An ORDER BY name that no output has is resolved as a column. */
  lemma OrderUnmatched(fold: Fold, scope: seq<Binding>, outputs: seq<OutputColumn>, table: string, name: string)
    requires table != "" || Filter(outputs, OutputNamed(fold, name)) == []
    ensures ResolveOrder(fold, scope, outputs, table, name) == ColumnResolver(fold, scope)(table, name)
  {
  }

  lemma OutputsMatched(fold: Fold, rename: Rename, outputs: seq<OutputColumn>, name: string)
    ensures Filter(MapSeq(RenameOutput(rename), outputs), OutputNamed(fold, name))
      == MapSeq(RenameOutput(rename), Filter(outputs, OutputNamed(fold, name)))
  {
    FilterMapped(RenameOutput(rename), outputs, OutputNamed(fold, name), OutputNamed(fold, name));
  }

  /** An ORDER BY name that an output has. */
  lemma OrderMatched(fold: Fold, rename: Rename, names: set<string>, scope: seq<Binding>, outputs: seq<OutputColumn>,
                     name: string)
    requires Consistent(fold, rename, names) && ScopeUses(names, scope) && DistinctBindings(fold, scope)
        && OutputsOwned(scope, outputs)
    requires Filter(outputs, OutputNamed(fold, name)) != []
    ensures ResolveOrder(fold, MapSeq(RenameBinding(rename), scope), MapSeq(RenameOutput(rename), outputs), "", name)
         == MapResult(RenameResolved(rename), ResolveOrder(fold, scope, outputs, "", name))
    ensures ResolveOrder(fold, scope, outputs, "", name).Ok? ==>
      ResolveOrder(fold, scope, outputs, "", name).value.binding.name in names
  {
    var named := OutputNamed(fold, name);
    OutputsMatched(fold, rename, outputs, name);
    var matches := Filter(outputs, named);
    if |matches| == 1 {
      FilterOne(outputs, named);
      var k: nat :| OnlyAt(outputs, named, k);
      OwnerRenamed(fold, rename, names, scope, outputs[k]);
      var owners := Filter(scope, OwnerOf(outputs[k]));
      OwnersAreBindings(scope, OwnerOf(outputs[k]));
      if owners != [] {
        assert owners[0] in scope;
      }
    }
  }

  lemma {:induction false} OwnersAreBindings<T>(s: seq<T>, p: T -> bool)
    ensures forall x :: x in Filter(s, p) ==> x in s
  {
    if s != [] {
      OwnersAreBindings(s[1..], p);
    }
  }

  lemma OrderFollows(fold: Fold, rename: Rename, names: set<string>, scope: seq<Binding>, outputs: seq<OutputColumn>)
    requires Consistent(fold, rename, names) && ScopeUses(names, scope) && DistinctBindings(fold, scope)
        && OutputsOwned(scope, outputs)
    ensures Follows(rename, names, OrderResolver(fold, scope, outputs),
                    OrderResolver(fold, MapSeq(RenameBinding(rename), scope), MapSeq(RenameOutput(rename), outputs)))
  {
    ResolveRenamed(fold, rename, names, scope);
    var scope', outputs' := MapSeq(RenameBinding(rename), scope), MapSeq(RenameOutput(rename), outputs);
    forall table, name | table == "" || table in names
      ensures ResolveOrder(fold, scope', outputs', NameOf(rename, table), name)
        == MapResult(RenameResolved(rename), ResolveOrder(fold, scope, outputs, table, name))
      ensures ResolveOrder(fold, scope, outputs, table, name).Ok? ==>
        ResolveOrder(fold, scope, outputs, table, name).value.binding.name in names
    {
      if table == "" && Filter(outputs, OutputNamed(fold, name)) != [] {
        OrderMatched(fold, rename, names, scope, outputs, name);
      } else {
        OutputsMatched(fold, rename, outputs, name);
        OrderUnmatched(fold, scope, outputs, table, name);
        OrderUnmatched(fold, scope', outputs', NameOf(rename, table), name);
        assert ColumnResolver(fold, scope')(NameOf(rename, table), name)
          == MapResult(RenameResolved(rename), ColumnResolver(fold, scope)(table, name));
      }
    }
  }

  // ----- Tables and stars

  function TableRenamer(rename: Rename): TableRef -> TableRef {
    (t: TableRef) => RenameTable(rename, t)
  }

  function RenameScope(rename: Rename): seq<Binding> -> seq<Binding> {
    (scope: seq<Binding>) => MapSeq(RenameBinding(rename), scope)
  }

  lemma {:induction false} CollectFromRenamed(fold: Fold, rename: Rename, names: set<string>, nodes: seq<TableRef>,
                                              schemas: seq<TableSchema>, seen: set<string>, seen': set<string>)
    requires |nodes| == |schemas| && Consistent(fold, rename, names) && TablesUse(rename, names, nodes, schemas)
    requires forall a :: a in names ==> (fold(rename(a)) in seen' <==> fold(a) in seen)
    ensures CollectFrom(fold, MapSeq(TableRenamer(rename), nodes), schemas, seen')
      == MapResult(RenameScope(rename), CollectFrom(fold, nodes, schemas, seen))
  {
    var nodes' := MapSeq(TableRenamer(rename), nodes);
    if nodes != [] {
      var name := BindingName(nodes[0], schemas[0]);
      assert BindingName(nodes'[0], schemas[0]) == rename(name);
      assert nodes'[1..] == MapSeq(TableRenamer(rename), nodes[1..]);
      CollectFromRenamed(fold, rename, names, nodes[1..], schemas[1..], seen + {fold(name)},
                         seen' + {fold(rename(name))});
      var rest := CollectFrom(fold, nodes[1..], schemas[1..], seen + {fold(name)});
      if rest.Ok? {
        MapSeqPrepend(RenameBinding(rename), Binding(name, schemas[0]), rest.value);
      }
    } else {
      assert MapSeq(RenameBinding(rename), []) == [];
    }
  }

  lemma CollectRenamed(fold: Fold, rename: Rename, names: set<string>, q: Query, schemas: seq<TableSchema>)
    requires RenamesConsistently(fold, rename, names, q, schemas)
    ensures Collect(fold, RenameQuery(rename, q), schemas) == MapResult(RenameScope(rename), Collect(fold, q, schemas))
    ensures Collect(fold, q, schemas).Ok? ==> ScopeUses(names, Collect(fold, q, schemas).value)
  {
    assert TableRefs(RenameQuery(rename, q)) == MapSeq(TableRenamer(rename), TableRefs(q));
    if |TableRefs(q)| == |schemas| {
      CollectFromRenamed(fold, rename, names, TableRefs(q), schemas, {}, {});
    }
    if Collect(fold, q, schemas).Ok? {
      CollectPairs(fold, q, schemas);
    }
  }

  lemma MapSeqAppend<S, T>(m: S -> T, a: seq<S>, b: seq<S>)
    ensures MapSeq(m, a + b) == MapSeq(m, a) + MapSeq(m, b)
  {
  }

  lemma ColumnItemsRenamed(rename: Rename, b: Binding)
    requires b.name != ""
    ensures ColumnItems(RenameBinding(rename)(b)) == MapSeq(RenameItem(rename), ColumnItems(b))
  {
    forall j | 0 <= j < |b.table.columns|
      ensures ColumnItems(RenameBinding(rename)(b))[j] == RenamedItem(rename, ColumnItems(b)[j])
    {
      var e := Leaf(Column(b.name, b.table.columns[j]));
      assert RenameExpr(rename, e) == Leaf(Column(rename(b.name), b.table.columns[j]));
    }
  }

  lemma {:induction false} AllColumnItemsRenamed(rename: Rename, scope: seq<Binding>)
    requires NamedBindings(scope)
    ensures AllColumnItems(MapSeq(RenameBinding(rename), scope)) == MapSeq(RenameItem(rename), AllColumnItems(scope))
  {
    if scope != [] {
      ColumnItemsRenamed(rename, scope[0]);
      AllColumnItemsRenamed(rename, scope[1..]);
      assert MapSeq(RenameBinding(rename), scope)[1..] == MapSeq(RenameBinding(rename), scope[1..]);
      MapSeqAppend(RenameItem(rename), ColumnItems(scope[0]), AllColumnItems(scope[1..]));
    }
  }

  function RenameItems(rename: Rename): seq<Projection> -> seq<Projection> {
    (ps: seq<Projection>) => MapSeq(RenameItem(rename), ps)
  }

  lemma ExpandItemRenamed(fold: Fold, rename: Rename, names: set<string>, scope: seq<Binding>, p: Projection)
    requires Consistent(fold, rename, names) && ScopeUses(names, scope) && ItemUses(names, p)
    ensures ExpandItem(fold, MapSeq(RenameBinding(rename), scope), RenamedItem(rename, p))
      == MapResult(RenameItems(rename), ExpandItem(fold, scope, p))
  {
    match p
    case AllColumns => AllColumnItemsRenamed(rename, scope);
    case TableColumns(table) =>
      QualifierRenamed(fold, rename, names, scope, table);
      var chosen := Filter(scope, BindingNamed(fold, table));
      OwnersAreBindings(scope, BindingNamed(fold, table));
      if |chosen| == 1 {
        assert chosen[0] in scope;
        ColumnItemsRenamed(rename, chosen[0]);
      }
    case Item(_, _) =>
      assert MapSeq(RenameItem(rename), [p]) == [RenamedItem(rename, p)];
  }

  lemma {:induction false} ExpandRenamed(fold: Fold, rename: Rename, names: set<string>, scope: seq<Binding>,
                                         ps: seq<Projection>)
    requires Consistent(fold, rename, names) && ScopeUses(names, scope) && forall i :: 0 <= i < |ps| ==>
      ItemUses(names, ps[i])
    ensures ExpandStars(fold, MapSeq(RenameBinding(rename), scope), MapSeq(RenameItem(rename), ps))
      == MapResult(RenameItems(rename), ExpandStars(fold, scope, ps))
  {
    if ps != [] {
      ExpandItemRenamed(fold, rename, names, scope, ps[0]);
      ExpandRenamed(fold, rename, names, scope, ps[1..]);
      assert MapSeq(RenameItem(rename), ps)[1..] == MapSeq(RenameItem(rename), ps[1..]);
      var first, rest := ExpandItem(fold, scope, ps[0]), ExpandStars(fold, scope, ps[1..]);
      if first.Ok? && rest.Ok? {
        MapSeqAppend(RenameItem(rename), first.value, rest.value);
      }
    } else {
      assert MapSeq(RenameItem(rename), []) == [];
    }
  }

  // ----- Limits and the allowlist

  lemma {:induction false} RenamedIsRewritten(rename: Rename, e: Expr)
    requires forall a :: a != "" ==> rename(a) != ""
    ensures Rewritten(false, e, RenameExpr(rename, e)) && Rewritten(false, RenameExpr(rename, e), e)
  {
    forall i | 0 <= i < |e.kids| {
      RenamedIsRewritten(rename, e.kids[i]);
    }
  }

  /** The renamed query with the tables as they were. */
  function OldTables(q: Query, q': Query): Query
    requires |q.joins| == |q'.joins|
  {
    q'.(from_ := q.from_, joins :=
        seq(|q.joins|, j requires 0 <= j < |q.joins| => q'.joins[j].(table := q.joins[j].table)))
  }

  lemma OldTablesRewritten(rename: Rename, q: Query)
    requires forall a :: a != "" ==> rename(a) != ""
    ensures var r := OldTables(q, RenameQuery(rename, q));
      QueryRewritten(false, q, r) && QueryRewritten(false, r, q)
  {
    var r := OldTables(q, RenameQuery(rename, q));
    forall e {
      RenamedIsRewritten(rename, e);
    }
    forall i | 0 <= i < |q.expressions|
      ensures ItemRewritten(false, q.expressions[i], r.expressions[i])
          && ItemRewritten(false, r.expressions[i], q.expressions[i])
    {
      assert r.expressions[i] == RenamedItem(rename, q.expressions[i]);
    }
  }

  lemma {:induction false} TotalSame<T>(s: seq<T>, s': seq<T>, count: T -> nat)
    requires |s'| == |s| && forall i :: 0 <= i < |s| ==> count(s'[i]) == count(s[i])
    ensures Total(s', count) == Total(s, count)
  {
    if s != [] {
      TotalSame(s[1..], s'[1..], count);
    }
  }

  lemma OldTablesCount(rename: Rename, q: Query)
    requires forall a :: a != "" ==> rename(a) != ""
    ensures NodeCount(RenameQuery(rename, q)) == NodeCount(OldTables(q, RenameQuery(rename, q)))
  {
    var q' := RenameQuery(rename, q);
    TotalSame(OldTables(q, q').joins, q'.joins, JoinCount);
  }

  lemma OldTablesFit(rename: Rename, q: Query, max: nat)
    ensures InLists(RenameQuery(rename, q), max) <==> InLists(OldTables(q, RenameQuery(rename, q)), max)
  {
    var q' := RenameQuery(rename, q);
    SameExprs(q', OldTables(q, q'), FitIn(max));
    EveryInLists(q', max);
    EveryInLists(OldTables(q, q'), max);
  }

  lemma SameExprs(q: Query, r: Query, p: Expr -> bool)
    requires r.expressions == q.expressions && r.where_ == q.where_ && r.order == q.order
    requires |r.joins| == |q.joins| && forall j :: 0 <= j < |q.joins| ==> r.joins[j].on == q.joins[j].on
    ensures EveryExpr(q, p) <==> EveryExpr(r, p)
  {
  }

  lemma OldTablesAllowed(rename: Rename, q: Query)
    ensures Allowed(RenameQuery(rename, q), false) <==> Allowed(OldTables(q, RenameQuery(rename, q)), false)
  {
    var q' := RenameQuery(rename, q);
    var r := OldTables(q, q');
    SameExprs(q', r, AllowedIn(false));
    EveryAllowed(q');
    EveryAllowed(r);
    assert q'.from_.Some? ==> (AllowedTable(q'.from_.value) <==> AllowedTable(r.from_.value));
    assert forall j :: 0 <= j < |q.joins| ==> (AllowedJoin(q'.joins[j]) <==> AllowedJoin(r.joins[j]));
  }

  lemma EveryInLists(q: Query, max: nat)
    ensures InLists(q, max) <==> EveryExpr(q, FitIn(max))
  {
    assert EveryExpr(q, e => InListsFit(e, max)) <==> EveryExpr(q, FitIn(max));
  }

  lemma EveryAllowed(q: Query)
    ensures EveryExpr(q, e => AllowedExpr(e, false)) <==> EveryExpr(q, AllowedIn(false))
  {
  }

  /** A renamed query passes the same checks. */
  lemma ChecksRenamed(rename: Rename, q: Query, limits: Limits)
    requires forall a :: a != "" ==> rename(a) != ""
    ensures CheckLimits(RenameQuery(rename, q), limits) == CheckLimits(q, limits)
    ensures ValidateAllowlist(RenameQuery(rename, q), false) == ValidateAllowlist(q, false)
  {
    var r := OldTables(q, RenameQuery(rename, q));
    OldTablesRewritten(rename, q);
    OldTablesCount(rename, q);
    OldTablesFit(rename, q, limits.maxInItems);
    OldTablesAllowed(rename, q);
    RewrittenQueryCount(false, q, r);
    RewrittenQueryCount(false, r, q);
    RewrittenBothWays(q, r, limits.maxInItems);
  }

  lemma RewrittenBothWays(q: Query, r: Query, max: nat)
    requires QueryRewritten(false, q, r) && QueryRewritten(false, r, q)
    ensures (Allowed(q, false) <==> Allowed(r, false)) && (InLists(q, max) <==> InLists(r, max))
  {
    if Allowed(q, false) {
      RewrittenQueryAllowed(false, q, r);
    }
    if Allowed(r, false) {
      RewrittenQueryAllowed(false, r, q);
    }
    if InLists(q, max) {
      RewrittenQueryFits(false, q, r, max);
    }
    if InLists(r, max) {
      RewrittenQueryFits(false, r, q, max);
    }
  }

  // ----- Analysis

  /** The cross check does not look at aliases. */
  ghost predicate BlindToAliases(cross: CrossCheck, rename: Rename, schemas: seq<TableSchema>) {
    forall q :: cross(RenameQuery(rename, q), schemas) == cross(q, schemas)
  }

  lemma OutputsAreOwned(fold: Fold, scope: seq<Binding>, ps: seq<Projection>)
    requires AnalyzeProjections(ColumnResolver(fold, scope), ps, 0).Ok?
    ensures OutputsOwned(scope, AnalyzeProjections(ColumnResolver(fold, scope), ps, 0).value.outputs)
  {
    var f := ColumnResolver(fold, scope);
    var outputs := AnalyzeProjections(f, ps, 0).value.outputs;
    ProjectionsPointwise(f, ps, 0);
    forall k | 0 <= k < |outputs| && outputs[k].binding.Some?
      ensures exists i :: 0 <= i < |scope| && scope[i].name == outputs[k].binding.value
    {
      assert AnalyzeItem(f, ps[k], k).value.output == outputs[k];
      var i, j := ResolveFinds(fold, scope, ps[k].value.kind.table, ps[k].value.kind.name);
    }
  }

  lemma ExpandedUses(fold: Fold, names: set<string>, scope: seq<Binding>, q: Query)
    requires QueryUses(names, q) && ScopeUses(names, scope) && ExpandStars(fold, scope, q.expressions).Ok?
    ensures QueryUses(names, q.(expressions := ExpandStars(fold, scope, q.expressions).value))
  {
    var good := (p: Projection) => ItemUses(names, p);
    ExpandedGood(fold, scope, q.expressions, good);
    var ps := ExpandStars(fold, scope, q.expressions).value;
    assert forall k :: 0 <= k < |ps| ==> good(ps[k]);
  }

  lemma WorkingRenamed(fold: Fold, rename: Rename, names: set<string>, scope: seq<Binding>, working: Query)
    requires Consistent(fold, rename, names) && ScopeUses(names, scope) && DistinctBindings(fold, scope)
        && QueryUses(names, working)
    ensures var scope' := MapSeq(RenameBinding(rename), scope);
      AnalyzeClauses(ColumnResolver(fold, scope'), OrderResolvers(fold, scope'), RenameQuery(rename, working))
      == MapResult(RenameAnalyzed(rename),
                   AnalyzeClauses(ColumnResolver(fold, scope), OrderResolvers(fold, scope), working))
  {
    var scope' := MapSeq(RenameBinding(rename), scope);
    var f, g := ColumnResolver(fold, scope), ColumnResolver(fold, scope');
    ResolveRenamed(fold, rename, names, scope);
    if AnalyzeProjections(f, working.expressions, 0).Ok? {
      OutputsAreOwned(fold, scope, working.expressions);
      OrderFollows(fold, rename, names, scope, AnalyzeProjections(f, working.expressions, 0).value.outputs);
    }
    ClausesRenamed(rename, names, f, g, OrderResolvers(fold, scope), OrderResolvers(fold, scope'), working);
  }

  /** MAIN RESULT. The renamed query is accepted iff the query is, is refused for the same reason, and
      its analysis is the same with the tables renamed: same outputs and sources, same references. */
  lemma AnalysisRenamed(fold: Fold, cross: CrossCheck, limits: Limits, rename: Rename, names: set<string>, q: Query,
                        schemas: seq<TableSchema>)
    requires RenamesConsistently(fold, rename, names, q, schemas) && BlindToAliases(cross, rename, schemas)
    ensures Analyze(fold, cross, limits, RenameQuery(rename, q), schemas)
      == MapResult(RenameAnalyzed(rename), Analyze(fold, cross, limits, q, schemas))
  {
    var q' := RenameQuery(rename, q);
    CollectRenamed(fold, rename, names, q, schemas);
    if Collect(fold, q, schemas).Ok? {
      var scope := Collect(fold, q, schemas).value;
      CollectPairs(fold, q, schemas);
      ExpandRenamed(fold, rename, names, scope, q.expressions);
      if ExpandStars(fold, scope, q.expressions).Ok? {
        var working := Working(fold, q, schemas);
        assert RenameQuery(rename, working) == Working(fold, q', schemas);
        ExpandedUses(fold, names, scope, q);
        ChecksRenamed(rename, working, limits);
        WorkingRenamed(fold, rename, names, scope, working);
        if AnalyzeClauses(ColumnResolver(fold, scope), OrderResolvers(fold, scope), working).Ok? {
          ChecksRenamed(rename, AnalyzeClauses(ColumnResolver(fold, scope), OrderResolvers(fold, scope),
                                               working).value.query, limits);
        }
      }
    }
  }
}
