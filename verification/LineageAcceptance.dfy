/** Exactly which statements the analysis accepts, stated on the tables, the names and the labels, and
    what it says of them. */
module LineageAcceptance {
  import opened Outcomes
  import opened Ast
  import opened Scope
  import opened Sequences
  import opened Allowlist
  import opened Lineage
  import opened LineageFacts

  // ----- One column

  /** The name is that of column `j` and of no other. */
  ghost predicate SingleColumn(fold: Fold, columns: seq<string>, name: string, j: nat) {
    && j < |columns| && fold(columns[j]) == fold(name)
    && forall k :: 0 <= k < |columns| && fold(columns[k]) == fold(name) ==> k == j
  }

  ghost predicate HasSingle(fold: Fold, b: Binding, name: string) {
    exists j: nat :: SingleColumn(fold, b.table.columns, name, j)
  }

  /** The reference stands for column `j` of binding `i`: the binding is the one it is qualified by or,
      without a qualifier, the only one with a single column of that name. */
  ghost predicate StandsFor(fold: Fold, scope: seq<Binding>, table: string, name: string, i: nat, j: nat) {
    && i < |scope| && SingleColumn(fold, scope[i].table.columns, name, j)
    && if table != "" then QualifiesOnly(fold, scope, table, i)
       else forall k :: 0 <= k < |scope| && HasSingle(fold, scope[k], name) ==> k == i
  }

  ghost predicate Answered(fold: Fold, scope: seq<Binding>, table: string, name: string) {
    exists i: nat, j: nat :: StandsFor(fold, scope, table, name, i, j)
  }

  lemma CanonicalExactly(fold: Fold, b: Binding, name: string)
    ensures CanonicalColumn(fold, b, name).Some? <==> HasSingle(fold, b, name)
    ensures forall j: nat :: SingleColumn(fold, b.table.columns, name, j) ==>
      CanonicalColumn(fold, b, name) == Some(b.table.columns[j])
  {
    CanonicalMeans(fold, b, name);
    forall j: nat
      ensures SingleColumn(fold, b.table.columns, name, j) <==> ColumnOnly(fold, b.table.columns, name, j)
    {
    }
  }

  lemma QualifierExactly(fold: Fold, scope: seq<Binding>, table: string)
    ensures |Filter(scope, BindingNamed(fold, table))| == 1 <==> exists i: nat :: QualifiesOnly(fold, scope, table, i)
    ensures forall i: nat :: QualifiesOnly(fold, scope, table, i) ==>
      Filter(scope, BindingNamed(fold, table)) == [scope[i]]
  {
    FilterOne(scope, BindingNamed(fold, table));
    forall i: nat
      ensures QualifiesOnly(fold, scope, table, i) <==> OnlyAt(scope, BindingNamed(fold, table), i)
    {
    }
  }

  lemma {:induction false} CandidatesOnly(fold: Fold, scope: seq<Binding>, name: string, i: nat)
    requires i < |scope| && CanonicalColumn(fold, scope[i], name).Some?
    requires forall k :: 0 <= k < |scope| && k != i ==> CanonicalColumn(fold, scope[k], name).None?
    ensures Candidates(fold, scope, name) == [Resolved(scope[i], CanonicalColumn(fold, scope[i], name).value)]
  {
    assert forall k :: 1 <= k < |scope| ==> scope[k] == scope[1..][k - 1];
    if i == 0 {
      CandidatesNone(fold, scope[1..], name);
    } else {
      CandidatesOnly(fold, scope[1..], name, i - 1);
    }
  }

  lemma StandingResolves(fold: Fold, scope: seq<Binding>, table: string, name: string, i: nat, j: nat)
    requires StandsFor(fold, scope, table, name, i, j)
    ensures Resolve(fold, scope, table, name) == Ok(Resolved(scope[i], scope[i].table.columns[j]))
  {
    forall k | 0 <= k < |scope| {
      CanonicalExactly(fold, scope[k], name);
    }
    assert HasSingle(fold, scope[i], name);
    if table != "" {
      QualifierExactly(fold, scope, table);
    } else {
      CandidatesOnly(fold, scope, name, i);
    }
  }

  lemma ResolvedStands(fold: Fold, scope: seq<Binding>, table: string, name: string)
    requires Resolve(fold, scope, table, name).Ok?
    ensures Answered(fold, scope, table, name)
  {
    var i, j := ResolveFinds(fold, scope, table, name);
    forall k | 0 <= k < |scope| {
      CanonicalExactly(fold, scope[k], name);
    }
    assert SingleColumn(fold, scope[i].table.columns, name, j);
    assert StandsFor(fold, scope, table, name, i, j);
  }

  /** MAIN RESULT. A reference is accepted exactly when it stands for a column, and then as that column;
      otherwise the reason says whether the qualifier, the column or its uniqueness is missing. */
  lemma ResolveExactly(fold: Fold, scope: seq<Binding>, table: string, name: string)
    ensures Resolve(fold, scope, table, name).Ok? <==> Answered(fold, scope, table, name)
    ensures forall i: nat, j: nat :: StandsFor(fold, scope, table, name, i, j) ==>
      Resolve(fold, scope, table, name) == Ok(Resolved(scope[i], scope[i].table.columns[j]))
    ensures Resolve(fold, scope, table, name) == Rejected(QualifierUnknown) <==>
      table != "" && !exists i: nat :: QualifiesOnly(fold, scope, table, i)
    ensures Resolve(fold, scope, table, name) == Rejected(ColumnAmbiguous) <==>
      table == "" && !Answered(fold, scope, table, name)
  {
    QualifierExactly(fold, scope, table);
    if Resolve(fold, scope, table, name).Ok? {
      ResolvedStands(fold, scope, table, name);
    }
    forall i: nat, j: nat | StandsFor(fold, scope, table, name, i, j)
      ensures Resolve(fold, scope, table, name) == Ok(Resolved(scope[i], scope[i].table.columns[j]))
    {
      StandingResolves(fold, scope, table, name, i, j);
    }
  }

  // ----- Stars

  ghost predicate StarsQualify(fold: Fold, scope: seq<Binding>, ps: seq<Projection>) {
    forall i :: 0 <= i < |ps| && ps[i].TableColumns? ==> exists k: nat :: QualifiesOnly(fold, scope, ps[i].table, k)
  }

  /** Stars are refused exactly for a qualifier that is not the name of one binding. */
  lemma {:induction false} StarsExactly(fold: Fold, scope: seq<Binding>, ps: seq<Projection>)
    ensures ExpandStars(fold, scope, ps).Ok? <==> StarsQualify(fold, scope, ps)
    ensures ExpandStars(fold, scope, ps).Rejected? ==> ExpandStars(fold, scope, ps) == Rejected(QualifierUnknown)
  {
    if ps != [] {
      StarsExactly(fold, scope, ps[1..]);
      assert forall i :: 1 <= i < |ps| ==> ps[i] == ps[1..][i - 1];
      if ps[0].TableColumns? {
        QualifierExactly(fold, scope, ps[0].table);
      }
    }
  }

  // ----- Output labels

  /** Item `index` of the select list, its label and what it shows. */
  ghost predicate Labels(fold: Fold, scope: seq<Binding>, p: Projection, index: nat, output: OutputColumn) {
    p.Item? &&
    if p.value.kind.Column? then
      exists i: nat, j: nat :: StandsFor(fold, scope, p.value.kind.table, p.value.kind.name, i, j)
        && output == OutputColumn(if p.alias != "" then p.alias else scope[i].table.columns[j], ColumnOutput,
                                  Some(SourceColumn(scope[i].table.schema, scope[i].table.name,
                                                    scope[i].table.columns[j])),
                                  Some(scope[i].name))
    else
      output == OutputColumn(if p.alias != "" then p.alias else "column_" + Numeral(index + 1),
                             if p.value.kind == CountStar then CountOutput else LiteralOutput, None, None)
  }

  /** The columns that stand alone in the select list can be resolved. */
  ghost predicate ItemsAnswered(fold: Fold, scope: seq<Binding>, ps: seq<Projection>) {
    forall i :: 0 <= i < |ps| && ps[i].Item? && ps[i].value.kind.Column? ==>
      Answered(fold, scope, ps[i].value.kind.table, ps[i].value.kind.name)
  }

  lemma ItemExactly(fold: Fold, scope: seq<Binding>, p: Projection, index: nat)
    requires p.Item?
    ensures AnalyzeItem(ColumnResolver(fold, scope), p, index).Ok? <==> ItemsAnswered(fold, scope, [p])
    ensures AnalyzeItem(ColumnResolver(fold, scope), p, index).Ok? ==>
      Labels(fold, scope, p, index, AnalyzeItem(ColumnResolver(fold, scope), p, index).value.output)
  {
    assert [p][0] == p;
    if p.value.kind.Column? {
      var table, name := p.value.kind.table, p.value.kind.name;
      ResolveExactly(fold, scope, table, name);
      if i: nat, j: nat :| StandsFor(fold, scope, table, name, i, j) {
        assert Resolve(fold, scope, table, name) == Ok(Resolved(scope[i], scope[i].table.columns[j]));
      }
    }
  }

  lemma {:induction false} ProjectionsExactly(f: Resolver, ps: seq<Projection>, from: nat)
    requires from <= |ps|
    ensures AnalyzeProjections(f, ps, from).Ok? <==> forall i :: from <= i < |ps| ==> AnalyzeItem(f, ps[i], i).Ok?
    decreases |ps| - from
  {
    if from < |ps| {
      ProjectionsExactly(f, ps, from + 1);
    }
  }

  lemma AnsweredOneByOne(fold: Fold, scope: seq<Binding>, ps: seq<Projection>)
    ensures ItemsAnswered(fold, scope, ps) <==> forall i :: 0 <= i < |ps| ==> ItemsAnswered(fold, scope, [ps[i]])
  {
    forall i | 0 <= i < |ps|
      ensures ItemsAnswered(fold, scope, [ps[i]]) <==>
        (ps[i].Item? && ps[i].value.kind.Column? ==>
           Answered(fold, scope, ps[i].value.kind.table, ps[i].value.kind.name))
    {
      assert [ps[i]][0] == ps[i];
    }
  }

  /** MAIN RESULT. A select list without stars is accepted exactly when the columns that stand alone in it
      can be resolved; then output `i` has the alias of item `i`, or the canonical name of its column, or
      `column_` with the number of the item, and only columns have a source. */
  lemma OutputsExactly(fold: Fold, scope: seq<Binding>, ps: seq<Projection>)
    requires forall i :: 0 <= i < |ps| ==> ps[i].Item?
    ensures var a := AnalyzeProjections(ColumnResolver(fold, scope), ps, 0);
      && (a.Ok? <==> ItemsAnswered(fold, scope, ps))
      && (a.Ok? ==> |a.value.outputs| == |ps|
                    && forall i :: 0 <= i < |ps| ==> Labels(fold, scope, ps[i], i, a.value.outputs[i]))
  {
    var f := ColumnResolver(fold, scope);
    ProjectionsExactly(f, ps, 0);
    forall i | 0 <= i < |ps|
      ensures AnalyzeItem(f, ps[i], i).Ok? <==> ItemsAnswered(fold, scope, [ps[i]])
    {
      ItemExactly(fold, scope, ps[i], i);
    }
    AnsweredOneByOne(fold, scope, ps);
    var a := AnalyzeProjections(f, ps, 0);
    if a.Ok? {
      ProjectionsPointwise(f, ps, 0);
      forall i | 0 <= i < |ps|
        ensures Labels(fold, scope, ps[i], i, a.value.outputs[i])
      {
        ItemExactly(fold, scope, ps[i], i);
        assert AnalyzeItem(f, ps[i], i).value.output == a.value.outputs[i - 0];
      }
    }
  }

  // ----- ORDER BY

  ghost predicate LabelAt(fold: Fold, outputs: seq<OutputColumn>, name: string, i: nat) {
    i < |outputs| && fold(outputs[i].title) == fold(name)
  }

  ghost predicate OnlyLabel(fold: Fold, outputs: seq<OutputColumn>, name: string, i: nat) {
    LabelAt(fold, outputs, name, i) && forall k: nat :: LabelAt(fold, outputs, name, k) ==> k == i
  }

  /** An unqualified key means the one label of that name, which has to be a column; without such a label
      it is resolved as a column. */
  ghost predicate KeyAnswered(fold: Fold, scope: seq<Binding>, outputs: seq<OutputColumn>, table: string,
                              name: string) {
    if table == "" && exists i: nat :: LabelAt(fold, outputs, name, i) then
      exists i: nat :: OnlyLabel(fold, outputs, name, i) && outputs[i].source.Some?
    else Answered(fold, scope, table, name)
  }

  /** The outputs with a source were read through a binding. */
  ghost predicate Owned(scope: seq<Binding>, outputs: seq<OutputColumn>) {
    forall i :: 0 <= i < |outputs| && outputs[i].source.Some? ==>
      exists k :: 0 <= k < |scope| && Some(scope[k].name) == outputs[i].binding
  }

  lemma LabelsExactly(fold: Fold, outputs: seq<OutputColumn>, name: string)
    ensures Filter(outputs, OutputNamed(fold, name)) == [] <==> !exists i: nat :: LabelAt(fold, outputs, name, i)
    ensures |Filter(outputs, OutputNamed(fold, name))| == 1 <==> exists i: nat :: OnlyLabel(fold, outputs, name, i)
    ensures forall i: nat :: OnlyLabel(fold, outputs, name, i) ==>
      Filter(outputs, OutputNamed(fold, name)) == [outputs[i]]
  {
    FilterNone(outputs, OutputNamed(fold, name));
    FilterOne(outputs, OutputNamed(fold, name));
    assert forall i: nat :: i < |outputs| ==>
      (LabelAt(fold, outputs, name, i) <==> OutputNamed(fold, name)(outputs[i]));
    forall i: nat
      ensures OnlyLabel(fold, outputs, name, i) <==> OnlyAt(outputs, OutputNamed(fold, name), i)
    {
      if OnlyAt(outputs, OutputNamed(fold, name), i) {
        assert LabelAt(fold, outputs, name, i);
      }
    }
  }

  /** MAIN RESULT. An ORDER BY name without a qualifier is accepted exactly when one output label, of a
      column, folds to it, or no label does and it stands for a column; a qualified one exactly when it
      stands for a column. Labels are compared under case folding. */
  lemma OrderExactly(fold: Fold, scope: seq<Binding>, outputs: seq<OutputColumn>, table: string, name: string)
    requires Owned(scope, outputs)
    ensures ResolveOrder(fold, scope, outputs, table, name).Ok? <==> KeyAnswered(fold, scope, outputs, table, name)
    ensures forall i: nat :: table == "" && OnlyLabel(fold, outputs, name, i) && outputs[i].source.Some? ==>
      var r := ResolveOrder(fold, scope, outputs, table, name);
      r.Ok? && r.value.column == outputs[i].source.value.column && Some(r.value.binding.name) == outputs[i].binding
  {
    LabelsExactly(fold, outputs, name);
    ResolveExactly(fold, scope, table, name);
    if i: nat :| table == "" && OnlyLabel(fold, outputs, name, i) && outputs[i].source.Some? {
      assert LabelAt(fold, outputs, name, i);
      OwnerFound(scope, outputs[i]);
    }
  }

  lemma OwnerFound(scope: seq<Binding>, o: OutputColumn)
    requires exists k :: 0 <= k < |scope| && Some(scope[k].name) == o.binding
    ensures Filter(scope, OwnerOf(o)) != [] && Some(Filter(scope, OwnerOf(o))[0].name) == o.binding
  {
    var k :| 0 <= k < |scope| && Some(scope[k].name) == o.binding;
    assert OwnerOf(o)(scope[k]);
    FilterNone(scope, OwnerOf(o));
    FilterSatisfies(scope, OwnerOf(o));
  }

  lemma {:induction false} FilterSatisfies<T>(s: seq<T>, p: T -> bool)
    ensures forall i :: 0 <= i < |Filter(s, p)| ==> p(Filter(s, p)[i])
  {
    if s != [] {
      FilterSatisfies(s[1..], p);
    }
  }

  lemma LabelledIsOwned(fold: Fold, scope: seq<Binding>, ps: seq<Projection>, outputs: seq<OutputColumn>)
    requires |outputs| == |ps| && forall i :: 0 <= i < |ps| ==> Labels(fold, scope, ps[i], i, outputs[i])
    ensures Owned(scope, outputs)
  {
    forall i | 0 <= i < |outputs| && outputs[i].source.Some?
      ensures exists k :: 0 <= k < |scope| && Some(scope[k].name) == outputs[i].binding
    {
      assert Labels(fold, scope, ps[i], i, outputs[i]);
    }
  }

  // ----- Whole clauses

  lemma {:induction false} TreeRefsAccept(f: Resolver, part: Part, e: Expr, paths: seq<Path>)
    requires forall i :: 0 <= i < |paths| ==> ColumnAt(e, paths[i])
    requires Everywhere(e, (k: Kind) => Resolves(f, k))
    ensures TreeRefs(f, part, e, paths).Ok?
  {
    if paths != [] {
      assert ColumnAt(e, paths[0]);
      EverywhereAt(e, (k: Kind) => Resolves(f, k), paths[0]);
      TreeRefsAccept(f, part, e, paths[1..]);
    }
  }

  /** A clause is accepted exactly when each of its columns can be resolved. */
  lemma TreeExactly(f: Resolver, part: Part, e: Expr)
    ensures AnalyzeTree(f, part, e).Ok? <==> Everywhere(e, (k: Kind) => Resolves(f, k))
  {
    if AnalyzeTree(f, part, e).Ok? {
      AnalyzeTreeResolves(f, part, e);
    }
    if Everywhere(e, (k: Kind) => Resolves(f, k)) {
      ColumnPathsComplete(e);
      assert forall i :: 0 <= i < |ColumnPaths(e)| ==> ColumnPaths(e)[i] in ColumnPaths(e);
      TreeRefsAccept(f, part, e, ColumnPaths(e));
    }
  }

  lemma {:induction false} JoinsExactly(f: Resolver, joins: seq<Join>, from: nat)
    requires from <= |joins|
    ensures AnalyzeJoins(f, joins, from).Ok? <==>
      forall j :: from <= j < |joins| && joins[j].on.Some? ==>
        Everywhere(joins[j].on.value, (k: Kind) => Resolves(f, k))
    decreases |joins| - from
  {
    if from < |joins| {
      JoinsExactly(f, joins, from + 1);
      if joins[from].on.Some? {
        TreeExactly(f, InOn(from), joins[from].on.value);
      }
    }
  }

  lemma {:induction false} KeysExactly(f: Resolver, keys: seq<OrderKey>, from: nat)
    requires from <= |keys|
    ensures AnalyzeOrder(f, keys, from).Ok? <==>
      forall k :: from <= k < |keys| ==> Everywhere(keys[k].target, (kind: Kind) => Resolves(f, kind))
    decreases |keys| - from
  {
    if from < |keys| {
      KeysExactly(f, keys, from + 1);
      TreeExactly(f, InOrder(from), keys[from].target);
    }
  }

  /** Every column of the clause stands for a column of the tables. */
  ghost predicate TreeAnswered(fold: Fold, scope: seq<Binding>, e: Expr) {
    Everywhere(e, (k: Kind) => k.Column? ==> Answered(fold, scope, k.table, k.name))
  }

  ghost predicate TargetAnswered(fold: Fold, scope: seq<Binding>, outputs: seq<OutputColumn>, e: Expr) {
    Everywhere(e, (k: Kind) => k.Column? ==> KeyAnswered(fold, scope, outputs, k.table, k.name))
  }

  lemma {:induction false} EverywhereSame(e: Expr, p: Kind -> bool, q: Kind -> bool)
    requires forall k: Kind :: p(k) <==> q(k)
    ensures Everywhere(e, p) <==> Everywhere(e, q)
  {
    forall i | 0 <= i < |e.kids| {
      EverywhereSame(e.kids[i], p, q);
    }
  }

  lemma TreeAnsweredExactly(fold: Fold, scope: seq<Binding>, e: Expr)
    ensures TreeAnswered(fold, scope, e) <==> Everywhere(e, (k: Kind) => Resolves(ColumnResolver(fold, scope), k))
  {
    var f := ColumnResolver(fold, scope);
    var p := (k: Kind) => k.Column? ==> Answered(fold, scope, k.table, k.name);
    var q := (k: Kind) => Resolves(f, k);
    forall k: Kind
      ensures p(k) <==> q(k)
    {
      if k.Column? {
        ResolveExactly(fold, scope, k.table, k.name);
      }
    }
    EverywhereSame(e, p, q);
  }

  lemma TargetAnsweredExactly(fold: Fold, scope: seq<Binding>, outputs: seq<OutputColumn>, e: Expr)
    requires Owned(scope, outputs)
    ensures TargetAnswered(fold, scope, outputs, e) <==>
      Everywhere(e, (k: Kind) => Resolves(OrderResolver(fold, scope, outputs), k))
  {
    var g := OrderResolver(fold, scope, outputs);
    var p := (k: Kind) => k.Column? ==> KeyAnswered(fold, scope, outputs, k.table, k.name);
    var q := (k: Kind) => Resolves(g, k);
    forall k: Kind
      ensures p(k) <==> q(k)
    {
      if k.Column? {
        OrderExactly(fold, scope, outputs, k.table, k.name);
      }
    }
    EverywhereSame(e, p, q);
  }

  /** The labels and sources of a select list. */
  function OutputsOf(fold: Fold, scope: seq<Binding>, ps: seq<Projection>): seq<OutputColumn> {
    var a := AnalyzeProjections(ColumnResolver(fold, scope), ps, 0);
    if a.Ok? then a.value.outputs else []
  }

  /** Every column of a statement without stars can be resolved where it stands. */
  ghost predicate ColumnsAnswered(fold: Fold, scope: seq<Binding>, q: Query) {
    && ItemsAnswered(fold, scope, q.expressions)
    && (forall j :: 0 <= j < |q.joins| && q.joins[j].on.Some? ==> TreeAnswered(fold, scope, q.joins[j].on.value))
    && (q.where_.Some? ==> TreeAnswered(fold, scope, q.where_.value))
    && (forall k :: 0 <= k < |q.order| ==>
          TargetAnswered(fold, scope, OutputsOf(fold, scope, q.expressions), q.order[k].target))
  }

  lemma JoinsAnswered(fold: Fold, scope: seq<Binding>, joins: seq<Join>)
    ensures AnalyzeJoins(ColumnResolver(fold, scope), joins, 0).Ok? <==>
      forall j :: 0 <= j < |joins| && joins[j].on.Some? ==> TreeAnswered(fold, scope, joins[j].on.value)
  {
    JoinsExactly(ColumnResolver(fold, scope), joins, 0);
    forall j | 0 <= j < |joins| && joins[j].on.Some? {
      TreeAnsweredExactly(fold, scope, joins[j].on.value);
    }
  }

  lemma OrderAnswered(fold: Fold, scope: seq<Binding>, outputs: seq<OutputColumn>, keys: seq<OrderKey>)
    requires Owned(scope, outputs)
    ensures AnalyzeOrder(OrderResolver(fold, scope, outputs), keys, 0).Ok? <==>
      forall k :: 0 <= k < |keys| ==> TargetAnswered(fold, scope, outputs, keys[k].target)
  {
    KeysExactly(OrderResolver(fold, scope, outputs), keys, 0);
    forall k | 0 <= k < |keys| {
      TargetAnsweredExactly(fold, scope, outputs, keys[k].target);
    }
  }

  lemma ClausesExactly(fold: Fold, scope: seq<Binding>, q: Query)
    requires forall i :: 0 <= i < |q.expressions| ==> q.expressions[i].Item?
    ensures AnalyzeClauses(ColumnResolver(fold, scope), OrderResolvers(fold, scope), q).Ok? <==>
      ColumnsAnswered(fold, scope, q)
  {
    var f := ColumnResolver(fold, scope);
    OutputsExactly(fold, scope, q.expressions);
    JoinsAnswered(fold, scope, q.joins);
    if q.where_.Some? {
      TreeExactly(f, InWhere, q.where_.value);
      TreeAnsweredExactly(fold, scope, q.where_.value);
    }
    if ItemsAnswered(fold, scope, q.expressions) {
      var outputs := OutputsOf(fold, scope, q.expressions);
      LabelledIsOwned(fold, scope, q.expressions, outputs);
      OrderAnswered(fold, scope, outputs, q.order);
    }
  }

  // ----- The tables

  /** The names that the tables are read through. */
  function Bindings(nodes: seq<TableRef>, schemas: seq<TableSchema>): seq<Binding>
    requires |nodes| == |schemas|
  {
    seq(|nodes|, i requires 0 <= i < |nodes| =>
      Binding(if nodes[i].alias != "" then nodes[i].alias else schemas[i].name, schemas[i]))
  }

  /** The names are distinct and not among those seen. */
  ghost predicate FreshNames(fold: Fold, bs: seq<Binding>, seen: set<string>) {
    DistinctBindings(fold, bs) && forall i :: 0 <= i < |bs| ==> fold(bs[i].name) !in seen
  }

  lemma {:induction false} CollectFromExactly(fold: Fold, nodes: seq<TableRef>, schemas: seq<TableSchema>,
                                              seen: set<string>)
    requires |nodes| == |schemas|
    ensures CollectFrom(fold, nodes, schemas, seen) ==
      if FreshNames(fold, Bindings(nodes, schemas), seen) then Ok(Bindings(nodes, schemas))
      else Rejected(DuplicateBinding)
  {
    if nodes != [] {
      var bs, rest := Bindings(nodes, schemas), Bindings(nodes[1..], schemas[1..]);
      CollectFromExactly(fold, nodes[1..], schemas[1..], seen + {fold(bs[0].name)});
      assert bs == [bs[0]] + rest;
      FirstApart(fold, bs, seen);
    }
  }

  /** The names are distinct and new iff the first is new and the others are distinct, new and not like it. */
  lemma FirstApart(fold: Fold, bs: seq<Binding>, seen: set<string>)
    requires bs != []
    ensures FreshNames(fold, bs, seen) <==>
      fold(bs[0].name) !in seen && FreshNames(fold, bs[1..], seen + {fold(bs[0].name)})
  {
    assert forall i :: 1 <= i < |bs| ==> bs[i] == bs[1..][i - 1];
    assert forall i :: 0 <= i < |bs[1..]| ==> bs[1..][i] == bs[i + 1];
  }

  /** The tables are accepted exactly when there is a schema for each and no two names fold alike. */
  lemma CollectExactly(fold: Fold, q: Query, schemas: seq<TableSchema>)
    ensures Collect(fold, q, schemas) ==
      if |TableRefs(q)| != |schemas| then Rejected(TableResolutionMismatch)
      else if DistinctBindings(fold, Bindings(TableRefs(q), schemas)) then Ok(Bindings(TableRefs(q), schemas))
      else Rejected(DuplicateBinding)
  {
    if |TableRefs(q)| == |schemas| {
      CollectFromExactly(fold, TableRefs(q), schemas, {});
    }
  }

  // ----- The whole statement

  function Expanded(fold: Fold, scope: seq<Binding>, q: Query): Query {
    var ps := ExpandStars(fold, scope, q.expressions);
    q.(expressions := if ps.Ok? then ps.value else [])
  }

  /** What a statement needs to be analysed: names for its tables, qualifiers for its stars, a size within
      the limits, a column for each of its names, and a rewritten form that passes the allowlist and the
      cross check. */
  ghost predicate Analyzable(fold: Fold, cross: CrossCheck, limits: Limits, q: Query, schemas: seq<TableSchema>) {
    && |TableRefs(q)| == |schemas|
    && var scope := Bindings(TableRefs(q), schemas);
      && DistinctBindings(fold, scope) && StarsQualify(fold, scope, q.expressions)
      && var working := Expanded(fold, scope, q);
        && NodeCount(working) <= limits.maxNodes && |q.joins| <= limits.maxJoins && InLists(q, limits.maxInItems)
        && ColumnsAnswered(fold, scope, working)
        && var a := AnalyzeClauses(ColumnResolver(fold, scope), OrderResolvers(fold, scope), working);
          a.Ok? && Allowed(a.value.query, false) && cross(a.value.query, schemas)
  }

  predicate ItemsFit(ps: seq<Projection>, max: nat) {
    forall i :: 0 <= i < |ps| && ps[i].Item? ==> InListsFit(ps[i].value, max)
  }

  lemma ItemsFitAppend(a: seq<Projection>, b: seq<Projection>, max: nat)
    ensures ItemsFit(a + b, max) <==> ItemsFit(a, max) && ItemsFit(b, max)
  {
    assert forall i :: 0 <= i < |a| ==> (a + b)[i] == a[i];
    assert forall i :: 0 <= i < |b| ==> (a + b)[|a| + i] == b[i];
  }

  lemma StarFits(fold: Fold, scope: seq<Binding>, p: Projection, max: nat)
    requires ExpandItem(fold, scope, p).Ok?
    ensures ItemsFit(ExpandItem(fold, scope, p).value, max) <==> ItemsFit([p], max)
  {
    AllColumnItemsAreItems(scope);
    assert [p][0] == p;
  }

  lemma {:induction false} StarsHaveNoLists(fold: Fold, scope: seq<Binding>, ps: seq<Projection>, max: nat)
    requires ExpandStars(fold, scope, ps).Ok?
    ensures ItemsFit(ExpandStars(fold, scope, ps).value, max) <==> ItemsFit(ps, max)
  {
    if ps != [] {
      StarsHaveNoLists(fold, scope, ps[1..], max);
      StarFits(fold, scope, ps[0], max);
      ItemsFitAppend(ExpandItem(fold, scope, ps[0]).value, ExpandStars(fold, scope, ps[1..]).value, max);
      assert ps == [ps[0]] + ps[1..];
      ItemsFitAppend([ps[0]], ps[1..], max);
    }
  }

  lemma LimitsExactly(fold: Fold, scope: seq<Binding>, q: Query, limits: Limits)
    requires ExpandStars(fold, scope, q.expressions).Ok?
    ensures CheckLimits(Expanded(fold, scope, q), limits).Ok? <==>
      && NodeCount(Expanded(fold, scope, q)) <= limits.maxNodes
      && |q.joins| <= limits.maxJoins && InLists(q, limits.maxInItems)
  {
    var working := Expanded(fold, scope, q);
    StarsHaveNoLists(fold, scope, q.expressions, limits.maxInItems);
    InListsAre(working, limits.maxInItems);
    InListsAre(q, limits.maxInItems);
    assert working.expressions == ExpandStars(fold, scope, q.expressions).value;
    assert working == q.(expressions := working.expressions);
    assert InLists(working, limits.maxInItems) <==> InLists(q, limits.maxInItems);
  }

  lemma InListsAre(q: Query, max: nat)
    ensures InLists(q, max) <==>
      && ItemsFit(q.expressions, max)
      && (forall j :: 0 <= j < |q.joins| && q.joins[j].on.Some? ==> InListsFit(q.joins[j].on.value, max))
      && (q.where_.Some? ==> InListsFit(q.where_.value, max))
      && (forall k :: 0 <= k < |q.order| ==> InListsFit(q.order[k].target, max))
  {
  }

  /** MAIN RESULT. The analysis accepts exactly the statements that can be analysed. */
  lemma AnalysisExactly(fold: Fold, cross: CrossCheck, limits: Limits, q: Query, schemas: seq<TableSchema>)
    ensures Analyze(fold, cross, limits, q, schemas).Ok? <==> Analyzable(fold, cross, limits, q, schemas)
  {
    CollectExactly(fold, q, schemas);
    if Collect(fold, q, schemas).Ok? {
      var scope := Bindings(TableRefs(q), schemas);
      StarsExactly(fold, scope, q.expressions);
      if ExpandStars(fold, scope, q.expressions).Ok? {
        LimitsExactly(fold, scope, q, limits);
        ExpandedItems(fold, scope, q.expressions);
        ClausesExactly(fold, scope, Expanded(fold, scope, q));
      }
    }
  }
}
