/** What a successful resolution says about the tables of the query. */
module LineageFacts {
  import opened Outcomes
  import opened Ast
  import opened Scope
  import opened Sequences
  import opened Lineage

  // ----- Bindings

  lemma {:induction false} CollectFromDistinct(fold: Fold, nodes: seq<TableRef>, schemas: seq<TableSchema>,
      seen: set<string>)
    requires |nodes| == |schemas| && CollectFrom(fold, nodes, schemas, seen).Ok?
    ensures var bs := CollectFrom(fold, nodes, schemas, seen).value;
      && |bs| == |nodes|
      && DistinctBindings(fold, bs)
      && (forall i :: 0 <= i < |bs| ==>
            bs[i].table == schemas[i] && bs[i].name == BindingName(nodes[i], schemas[i]) && fold(bs[i].name) !in seen)
  {
    if nodes != [] {
      CollectFromDistinct(fold, nodes[1..], schemas[1..], seen + {fold(BindingName(nodes[0], schemas[0]))});
    }
  }

  /** Accepted bindings pair the tables of the query with their schemas, under distinct names. */
  lemma CollectPairs(fold: Fold, q: Query, schemas: seq<TableSchema>)
    requires Collect(fold, q, schemas).Ok?
    ensures var bs := Collect(fold, q, schemas).value;
      && |bs| == |TableRefs(q)| == |schemas|
      && DistinctBindings(fold, bs)
      && (forall i :: 0 <= i < |bs| ==>
          bs[i].table == schemas[i] && bs[i].name == BindingName(TableRefs(q)[i], schemas[i]))
  {
    CollectFromDistinct(fold, TableRefs(q), schemas, {});
  }

  // ----- Resolution

  /** Every binding that could answer an unqualified `name` has a single column of that name. */
  ghost predicate Clear(fold: Fold, scope: seq<Binding>, table: string, name: string) {
    table != "" ||
    forall i, j, k :: 0 <= i < |scope| && 0 <= j < k < |scope[i].table.columns| ==>
      !(fold(scope[i].table.columns[j]) == fold(name) && fold(scope[i].table.columns[k]) == fold(name))
  }

  ghost predicate NamedBindings(scope: seq<Binding>) {
    forall i :: 0 <= i < |scope| ==> scope[i].name != ""
  }

  /** `r` is column `j` of binding `i`. */
  ghost predicate IsColumn(scope: seq<Binding>, r: Resolved, i: nat, j: nat) {
    i < |scope| && r.binding == scope[i] && j < |scope[i].table.columns| && r.column == scope[i].table.columns[j]
  }

  ghost predicate ColumnOnly(fold: Fold, columns: seq<string>, name: string, j: nat) {
    OnlyAt(columns, ColumnNamed(fold, name), j)
  }

  lemma CanonicalMeans(fold: Fold, b: Binding, name: string)
    ensures CanonicalColumn(fold, b, name).Some? <==> exists j: nat :: ColumnOnly(fold, b.table.columns, name, j)
    ensures forall j: nat :: ColumnOnly(fold, b.table.columns, name, j) ==>
                               CanonicalColumn(fold, b, name) == Some(b.table.columns[j])
  {
    FilterOne(b.table.columns, ColumnNamed(fold, name));
    assert forall j: nat :: ColumnOnly(fold, b.table.columns, name, j) <==>
      OnlyAt(b.table.columns, ColumnNamed(fold, name), j);
  }

  lemma {:induction false} CandidatesNone(fold: Fold, scope: seq<Binding>, name: string)
    ensures Candidates(fold, scope, name) == [] <==>
            forall i :: 0 <= i < |scope| ==> CanonicalColumn(fold, scope[i], name).None?
  {
    if scope != [] {
      CandidatesNone(fold, scope[1..], name);
      assert forall k :: 1 <= k < |scope| ==> scope[k] == scope[1..][k - 1];
    }
  }

  lemma {:induction false} CandidatesOne(fold: Fold, scope: seq<Binding>, name: string) returns (i: nat)
    requires |Candidates(fold, scope, name)| == 1
    ensures i < |scope| && CanonicalColumn(fold, scope[i], name).Some?
    ensures Candidates(fold, scope, name) == [Resolved(scope[i], CanonicalColumn(fold, scope[i], name).value)]
    ensures forall k :: 0 <= k < |scope| && k != i ==> CanonicalColumn(fold, scope[k], name).None?
  {
    assert forall k :: 1 <= k < |scope| ==> scope[k] == scope[1..][k - 1];
    if CanonicalColumn(fold, scope[0], name).Some? {
      CandidatesNone(fold, scope[1..], name);
      i := 0;
    } else {
      var k := CandidatesOne(fold, scope[1..], name);
      i := k + 1;
    }
  }

  /** The binding and the column an accepted reference resolves to, and why. */
  lemma ResolveFinds(fold: Fold, scope: seq<Binding>, table: string, name: string) returns (i: nat, j: nat)
    requires Resolve(fold, scope, table, name).Ok?
    ensures IsColumn(scope, Resolve(fold, scope, table, name).value, i, j)
    ensures Names(fold, scope, table, name, i, j)
    ensures ColumnOnly(fold, scope[i].table.columns, name, j)
    ensures table != "" ==> QualifiesOnly(fold, scope, table, i)
    ensures table == "" ==> forall k :: 0 <= k < |scope| && k != i ==> CanonicalColumn(fold, scope[k], name).None?
  {
    if table != "" {
      FilterOne(scope, BindingNamed(fold, table));
      i :| OnlyAt(scope, BindingNamed(fold, table), i);
    } else {
      i := CandidatesOne(fold, scope, name);
    }
    CanonicalMeans(fold, scope[i], name);
    j :| ColumnOnly(fold, scope[i].table.columns, name, j);
  }

  /** An accepted reference has a single meaning under case folding iff no other binding was passed
      over for holding the name more than once. */
  lemma ResolveIsTheOnlyMeaning(fold: Fold, scope: seq<Binding>, table: string, name: string)
    requires Resolve(fold, scope, table, name).Ok?
    ensures (exists i: nat, j: nat :: NamesOnly(fold, scope, table, name, i, j)) <==> Clear(fold, scope, table, name)
    ensures forall i: nat, j: nat :: NamesOnly(fold, scope, table, name, i, j) ==>
                                       IsColumn(scope, Resolve(fold, scope, table, name).value, i, j)
  {
    var i, j := ResolveFinds(fold, scope, table, name);
    if Clear(fold, scope, table, name) {
      forall k, l | table == "" && 0 <= k < |scope| && k != i && 0 <= l < |scope[k].table.columns|
        ensures fold(scope[k].table.columns[l]) != fold(name)
      {
        CanonicalMeans(fold, scope[k], name);
        assert ColumnOnly(fold, scope[k].table.columns, name, l) <==> fold(scope[k].table.columns[l]) == fold(name);
      }
      assert NamesOnly(fold, scope, table, name, i, j);
    } else {
      var i', j', k' :| 0 <= i' < |scope| && 0 <= j' < k' < |scope[i'].table.columns|
                        && fold(scope[i'].table.columns[j']) == fold(name)
                        && fold(scope[i'].table.columns[k']) == fold(name);
      assert Names(fold, scope, table, name, i', j') && Names(fold, scope, table, name, i', k');
    }
  }

  /** The code passes over a table in which the name is ambiguous, so it accepts some names that
      have no single meaning under case folding. */
  lemma SkippedTableExample(fold: Fold)
    requires fold("X") == fold("x") && fold("a") != fold("b")
    ensures var scope := [Binding("a", TableSchema("s", "a", ["x", "X"])), Binding("b", TableSchema("s", "b", ["x"]))];
      && DistinctBindings(fold, scope)
      && Resolve(fold, scope, "", "x") == Ok(Resolved(scope[1], "x"))
      && Names(fold, scope, "", "x", 0, 0) && Names(fold, scope, "", "x", 0, 1) && Names(fold, scope, "", "x", 1, 0)
  {
    var a, b := Binding("a", TableSchema("s", "a", ["x", "X"])), Binding("b", TableSchema("s", "b", ["x"]));
    CanonicalMeans(fold, a, "x");
    CanonicalMeans(fold, b, "x");
    assert ColumnOnly(fold, b.table.columns, "x", 0);
    assert Candidates(fold, [b], "x") == [Resolved(b, "x")] by {
      assert [b][1..] == [];
    }
    assert [a, b][1..] == [b];
  }

  /** Read with exact names, a canonical qualified name has a single meaning. */
  lemma CanonicalIsExact(fold: Fold, scope: seq<Binding>, i: nat, j: nat)
    requires DistinctBindings(fold, scope) && NamedBindings(scope)
    requires i < |scope| && j < |scope[i].table.columns|
    requires ColumnOnly(fold, scope[i].table.columns, scope[i].table.columns[j], j)
    ensures NamesOnly(Exact(), scope, scope[i].name, scope[i].table.columns[j], i, j)
    ensures NamesOnly(fold, scope, scope[i].name, scope[i].table.columns[j], i, j)
    ensures Resolve(fold, scope, scope[i].name, scope[i].table.columns[j])
      == Ok(Resolved(scope[i], scope[i].table.columns[j]))
  {
    FilterOne(scope, BindingNamed(fold, scope[i].name));
    assert OnlyAt(scope, BindingNamed(fold, scope[i].name), i);
    CanonicalMeans(fold, scope[i], scope[i].table.columns[j]);
  }

  /** A resolved column, written back with its canonical names, resolves to itself. */
  lemma ResolveAgain(fold: Fold, scope: seq<Binding>, table: string, name: string)
    requires Resolve(fold, scope, table, name).Ok?
    requires DistinctBindings(fold, scope) && NamedBindings(scope)
    ensures var r := Resolve(fold, scope, table, name).value;
      Resolve(fold, scope, r.binding.name, r.column) == Ok(r)
  {
    var i, j := ResolveFinds(fold, scope, table, name);
    assert ColumnOnly(fold, scope[i].table.columns, scope[i].table.columns[j], j);
    CanonicalIsExact(fold, scope, i, j);
  }

  // ----- Analysis clause by clause

  ghost predicate RefFor(f: Resolver, part: Part, e: Expr, path: Path, ref: ColumnRef) {
    && ColumnAt(e, path)
    && var kind := At(e, path).value.kind;
      f(kind.table, kind.name).Ok? && ref == ColumnRef(Position(part, path), SourceOf(f(kind.table, kind.name).value))
  }

  lemma {:induction false} TreeRefsPointwise(f: Resolver, part: Part, e: Expr, paths: seq<Path>)
    requires forall i :: 0 <= i < |paths| ==> ColumnAt(e, paths[i])
    requires TreeRefs(f, part, e, paths).Ok?
    ensures var refs := TreeRefs(f, part, e, paths).value;
      |refs| == |paths| && forall i :: 0 <= i < |paths| ==> RefFor(f, part, e, paths[i], refs[i])
  {
    if paths != [] {
      assert ColumnAt(e, paths[0]);
      TreeRefsPointwise(f, part, e, paths[1..]);
    }
  }

  predicate Resolves(f: Resolver, kind: Kind) {
    kind.Column? ==> f(kind.table, kind.name).Ok?
  }

  /** An analysed clause has one reference for each of its columns, and each resolves. */
  lemma AnalyzeTreeResolves(f: Resolver, part: Part, e: Expr)
    requires AnalyzeTree(f, part, e).Ok?
    ensures Everywhere(e, (k: Kind) => Resolves(f, k))
    ensures var refs := AnalyzeTree(f, part, e).value.refs;
      && |refs| == |ColumnPaths(e)|
      && forall i :: 0 <= i < |refs| ==> RefFor(f, part, e, ColumnPaths(e)[i], refs[i])
  {
    ColumnPathsComplete(e);
    var paths := ColumnPaths(e);
    assert forall i :: 0 <= i < |paths| ==> paths[i] in paths;
    TreeRefsPointwise(f, part, e, paths);
    forall path | At(e, path).Some?
      ensures Resolves(f, At(e, path).value.kind)
    {
      if ColumnAt(e, path) {
        var i :| 0 <= i < |paths| && paths[i] == path;
        assert RefFor(f, part, e, paths[i], AnalyzeTree(f, part, e).value.refs[i]);
      }
    }
    AtEverywhere(e, (k: Kind) => Resolves(f, k));
  }

  lemma {:induction false} JoinsPointwise(f: Resolver, joins: seq<Join>, from: nat)
    requires from <= |joins| && AnalyzeJoins(f, joins, from).Ok?
    ensures var a := AnalyzeJoins(f, joins, from).value;
      && |a.item| == |joins| - from
      && forall j :: from <= j < |joins| ==>
        AnalyzeJoin(f, joins[j], j).Ok? && AnalyzeJoin(f, joins[j], j).value.item == a.item[j - from]
    decreases |joins| - from
  {
    if from < |joins| {
      JoinsPointwise(f, joins, from + 1);
    }
  }

  lemma {:induction false} OrderPointwise(f: Resolver, keys: seq<OrderKey>, from: nat)
    requires from <= |keys| && AnalyzeOrder(f, keys, from).Ok?
    ensures var a := AnalyzeOrder(f, keys, from).value;
      && |a.item| == |keys| - from
      && forall k :: from <= k < |keys| ==>
        AnalyzeKey(f, keys[k], k).Ok? && AnalyzeKey(f, keys[k], k).value.item == a.item[k - from]
    decreases |keys| - from
  {
    if from < |keys| {
      OrderPointwise(f, keys, from + 1);
    }
  }

  lemma {:induction false} ProjectionsPointwise(f: Resolver, ps: seq<Projection>, from: nat)
    requires from <= |ps| && AnalyzeProjections(f, ps, from).Ok?
    ensures var a := AnalyzeProjections(f, ps, from).value;
      && |a.items| == |a.outputs| == |ps| - from
      && forall i :: from <= i < |ps| ==>
        && AnalyzeItem(f, ps[i], i).Ok?
        && AnalyzeItem(f, ps[i], i).value.item == a.items[i - from]
        && AnalyzeItem(f, ps[i], i).value.output == a.outputs[i - from]
    decreases |ps| - from
  {
    if from < |ps| {
      ProjectionsPointwise(f, ps, from + 1);
      var a, rest := AnalyzeProjections(f, ps, from).value, AnalyzeProjections(f, ps, from + 1).value;
      forall i | from < i < |ps|
        ensures AnalyzeItem(f, ps[i], i).Ok?
        ensures AnalyzeItem(f, ps[i], i).value.item == a.items[i - from]
            && AnalyzeItem(f, ps[i], i).value.output == a.outputs[i - from]
      {
        assert a.items[i - from] == rest.items[i - (from + 1)] && a.outputs[i - from] == rest.outputs[i - (from + 1)];
      }
    }
  }

  lemma {:induction false} ExpandedItems(fold: Fold, scope: seq<Binding>, ps: seq<Projection>)
    requires ExpandStars(fold, scope, ps).Ok?
    ensures forall i :: 0 <= i < |ExpandStars(fold, scope, ps).value| ==> ExpandStars(fold, scope, ps).value[i].Item?
  {
    if ps != [] {
      ExpandedItems(fold, scope, ps[1..]);
      AllColumnItemsAreItems(scope);
    }
  }

  lemma {:induction false} AllColumnItemsAreItems(scope: seq<Binding>)
    ensures forall i :: 0 <= i < |AllColumnItems(scope)| ==>
                          && AllColumnItems(scope)[i].Item?
                          && AllColumnItems(scope)[i].value.kind.Column? && AllColumnItems(scope)[i].value.kids == []
  {
    if scope != [] {
      AllColumnItemsAreItems(scope[1..]);
    }
  }

  /** The parts of an accepted analysis, clause by clause. */
  lemma ClausesParts(f: Resolver, g: seq<OutputColumn> -> Resolver, q: Query)
    requires AnalyzeClauses(f, g, q).Ok?
    ensures var a := AnalyzeClauses(f, g, q).value;
      && AnalyzeProjections(f, q.expressions, 0).Ok?
      && a.query.expressions == AnalyzeProjections(f, q.expressions, 0).value.items
      && a.outputs == AnalyzeProjections(f, q.expressions, 0).value.outputs
      && AnalyzeJoins(f, q.joins, 0).Ok? && a.query.joins == AnalyzeJoins(f, q.joins, 0).value.item
      && AnalyzeWhere(f, q.where_).Ok? && a.query.where_ == AnalyzeWhere(f, q.where_).value.item
      && AnalyzeOrder(g(a.outputs), q.order, 0).Ok?
      && a.query.order == AnalyzeOrder(g(a.outputs), q.order, 0).value.item
      && a.query == q.(expressions := a.query.expressions, joins := a.query.joins, where_ := a.query.where_,
                       order := a.query.order)
      && a.references == AnalyzeProjections(f, q.expressions, 0).value.refs + AnalyzeJoins(f, q.joins, 0).value.refs
                         + AnalyzeWhere(f, q.where_).value.refs + AnalyzeOrder(g(a.outputs), q.order, 0).value.refs
  {
  }

  /** `join'` is the analysed form of the join at position `j`. */
  ghost predicate JoinAnalyzed(f: Resolver, j: nat, join: Join, join': Join) {
    && join' == join.(on := join'.on)
    && (join.on.Some? <==> join'.on.Some?)
    && (join.on.Some? ==>
        AnalyzeTree(f, InOn(j), join.on.value).Ok?
          && join'.on.value == AnalyzeTree(f, InOn(j), join.on.value).value.item)
  }

  ghost predicate KeyAnalyzed(f: Resolver, k: nat, key: OrderKey, key': OrderKey) {
    && key' == key.(target := key'.target)
    && AnalyzeTree(f, InOrder(k), key.target).Ok? && key'.target == AnalyzeTree(f, InOrder(k), key.target).value.item
  }

  lemma OneJoinAnalyzed(f: Resolver, join: Join, j: nat)
    requires AnalyzeJoin(f, join, j).Ok?
    ensures JoinAnalyzed(f, j, join, AnalyzeJoin(f, join, j).value.item)
  {
  }

  lemma OneKeyAnalyzed(f: Resolver, key: OrderKey, k: nat)
    requires AnalyzeKey(f, key, k).Ok?
    ensures KeyAnalyzed(f, k, key, AnalyzeKey(f, key, k).value.item)
  {
  }

  lemma JoinsAnalyzed(f: Resolver, joins: seq<Join>)
    requires AnalyzeJoins(f, joins, 0).Ok?
    ensures |AnalyzeJoins(f, joins, 0).value.item| == |joins|
    ensures forall j :: 0 <= j < |joins| ==> JoinAnalyzed(f, j, joins[j], AnalyzeJoins(f, joins, 0).value.item[j])
  {
    JoinsPointwise(f, joins, 0);
    var items := AnalyzeJoins(f, joins, 0).value.item;
    forall j | 0 <= j < |joins|
      ensures JoinAnalyzed(f, j, joins[j], items[j])
    {
      OneJoinAnalyzed(f, joins[j], j);
      assert items[j] == items[j - 0];
    }
  }

  lemma OrderAnalyzed(f: Resolver, keys: seq<OrderKey>)
    requires AnalyzeOrder(f, keys, 0).Ok?
    ensures |AnalyzeOrder(f, keys, 0).value.item| == |keys|
    ensures forall k :: 0 <= k < |keys| ==> KeyAnalyzed(f, k, keys[k], AnalyzeOrder(f, keys, 0).value.item[k])
  {
    OrderPointwise(f, keys, 0);
    var items := AnalyzeOrder(f, keys, 0).value.item;
    forall k | 0 <= k < |keys|
      ensures KeyAnalyzed(f, k, keys[k], items[k])
    {
      OneKeyAnalyzed(f, keys[k], k);
      assert items[k] == items[k - 0];
    }
  }
}
