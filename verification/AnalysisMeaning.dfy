/** The rewritten query, read with exact names, means what the caller's query means under case
    folding. */
module AnalysisMeaning {
  import opened Outcomes
  import opened Ast
  import opened Scope
  import opened Sequences
  import opened Values
  import opened Allowlist
  import opened Lineage
  import opened LineageFacts
  import opened Semantics
  import opened EvalFacts
  import opened Simulation

  // ----- Reading one column

  /** Each row has the width of its table. */
  ghost predicate Shaped(scope: seq<Binding>, env: Env) {
    |env| <= |scope| && forall k :: 0 <= k < |env| ==> |env[k]| == |scope[k].table.columns|
  }

  lemma ColumnValueIs(fold: Fold, scope: seq<Binding>, env: Env, table: string, name: string, i: nat, j: nat)
    requires NamesOnly(fold, scope, table, name, i, j) && Shaped(scope, env)
    ensures ColumnValue(fold, scope, env, table, name) == if i < |env| then env[i][j] else Null
  {
    var joined := InScope(scope, env);
    assert forall i': nat, j': nat :: Names(fold, joined, table, name, i', j') <==>
      i' < |env| && Names(fold, scope, table, name, i', j');
    assert forall i': nat, j': nat :: Names(fold, joined, table, name, i', j') ==> i' == i && j' == j;
    if i < |env| {
      assert NamesOnly(fold, joined, table, name, i, j) && j < |env[i]|;
    } else {
      assert forall i': nat, j': nat :: !NamesOnly(fold, joined, table, name, i', j');
    }
  }

  /** A reference and its canonical form read the same cell of every row. */
  lemma SameColumnValue(fold: Fold, scope: seq<Binding>, env: Env, table: string, name: string)
    requires Resolve(fold, scope, table, name).Ok? && Clear(fold, scope, table, name)
    requires DistinctBindings(fold, scope) && NamedBindings(scope) && Shaped(scope, env)
    ensures var r := Resolve(fold, scope, table, name).value;
      ColumnValue(fold, scope, env, table, name) == ColumnValue(Exact(), scope, env, r.binding.name, r.column)
  {
    ResolveIsTheOnlyMeaning(fold, scope, table, name);
    var i: nat, j: nat :| NamesOnly(fold, scope, table, name, i, j);
    var i', j' := ResolveFinds(fold, scope, table, name);
    assert i' == i && j' == j;
    assert ColumnOnly(fold, scope[i].table.columns, scope[i].table.columns[j], j);
    CanonicalIsExact(fold, scope, i, j);
    ColumnValueIs(fold, scope, env, table, name, i, j);
    ColumnValueIs(Exact(), scope, env, scope[i].name, scope[i].table.columns[j], i, j);
  }

  // ----- Expressions

  ghost predicate ClearKind(fold: Fold, scope: seq<Binding>, kind: Kind) {
    kind.Column? ==> Clear(fold, scope, kind.table, kind.name)
  }

  ghost predicate ClearExpr(fold: Fold, scope: seq<Binding>, e: Expr) {
    Everywhere(e, (k: Kind) => ClearKind(fold, scope, k))
  }

  lemma {:induction false} EverywhereImplies(e: Expr, p: Kind -> bool, q: Kind -> bool, r: Kind -> bool)
    requires Everywhere(e, p) && Everywhere(e, q) && forall k: Kind :: p(k) && q(k) ==> r(k)
    ensures Everywhere(e, r)
  {
    forall i | 0 <= i < |e.kids| {
      EverywhereImplies(e.kids[i], p, q, r);
    }
  }

  /** An analysed expression has the value of the original on every row. */
  lemma TreeKeepsValue(fold: Fold, scope: seq<Binding>, eng: Engine, consts: Constants, env: Env, count: Value,
                       part: Part, e: Expr)
    requires AnalyzeTree(ColumnResolver(fold, scope), part, e).Ok? && ClearExpr(fold, scope, e)
    requires DistinctBindings(fold, scope) && NamedBindings(scope) && Shaped(scope, env)
    ensures Eval(eng, ReadingOf(fold, scope, consts, env, count), e)
         == Eval(eng, ReadingOf(Exact(), scope, consts, env, count),
                 AnalyzeTree(ColumnResolver(fold, scope), part, e).value.item)
  {
    var f := ColumnResolver(fold, scope);
    var r, s := ReadingOf(fold, scope, consts, env, count), ReadingOf(Exact(), scope, consts, env, count);
    var g := (k: Kind) => Qualified(f, k);
    AnalyzeTreeResolves(f, part, e);
    forall k: Kind | Resolves(f, k) && ClearKind(fold, scope, k)
      ensures SameLeaf(eng, r, s, k, g(k))
    {
      if k.Column? {
        SameColumnValue(fold, scope, env, k.table, k.name);
      }
    }
    EverywhereImplies(e, (k: Kind) => Resolves(f, k), (k: Kind) => ClearKind(fold, scope, k),
                      (k: Kind) => SameLeaf(eng, r, s, k, g(k)));
    MapAlike(eng, r, s, e, g);
    EvalAlike(eng, r, s, e, MapKinds(e, g));
  }

  /** The reference has the same meaning, or none, under case folding and with exact names. */
  ghost predicate SpelledAsMeant(fold: Fold, scope: seq<Binding>, kind: Kind) {
    kind.Column? ==>
      forall i: nat, j: nat ::
        NamesOnly(fold, scope, kind.table, kind.name, i, j) <==> NamesOnly(Exact(), scope, kind.table, kind.name, i, j)
  }

  /** A reference that the analysis does not rewrite keeps its value exactly when it is spelled as it
      is meant. */
  lemma SpelledKeepsValue(fold: Fold, scope: seq<Binding>, kind: Kind)
    requires kind.Column?
    ensures SpelledAsMeant(fold, scope, kind) <==>
      forall env :: Shaped(scope, env) && |env| == |scope| ==>
        ColumnValue(fold, scope, env, kind.table, kind.name) == ColumnValue(Exact(), scope, env, kind.table, kind.name)
  {
    if SpelledAsMeant(fold, scope, kind) {
      forall env | Shaped(scope, env) && |env| == |scope|
        ensures ColumnValue(fold, scope, env, kind.table, kind.name)
          == ColumnValue(Exact(), scope, env, kind.table, kind.name)
      {
        assert InScope(scope, env) == scope;
      }
    } else {
      var env := FullEnv(scope);
      assert InScope(scope, env) == scope;
      var i: nat, j: nat :|
        NamesOnly(fold, scope, kind.table, kind.name, i, j) != NamesOnly(Exact(), scope, kind.table, kind.name, i, j);
      OneReading(fold, scope, kind.table, kind.name, i, j);
      assert env[i][j] == Bool(true);
    }
  }

  /** A row of each table without NULLs. */
  function FullEnv(scope: seq<Binding>): (env: Env)
    ensures Shaped(scope, env) && |env| == |scope|
  {
    seq(|scope|, i requires 0 <= i < |scope| => seq(|scope[i].table.columns|, _ => Bool(true)))
  }

  /** When only one of the readings gives the reference a meaning, the other gives it none. */
  lemma OneReading(fold: Fold, scope: seq<Binding>, table: string, name: string, i: nat, j: nat)
    requires NamesOnly(fold, scope, table, name, i, j) != NamesOnly(Exact(), scope, table, name, i, j)
    ensures NamesOnly(fold, scope, table, name, i, j) ==>
      forall i': nat, j': nat :: !NamesOnly(Exact(), scope, table, name, i', j')
    ensures NamesOnly(Exact(), scope, table, name, i, j) ==>
      forall i': nat, j': nat :: !NamesOnly(fold, scope, table, name, i', j')
  {
    forall i': nat, j': nat | Names(Exact(), scope, table, name, i', j')
      ensures Names(fold, scope, table, name, i', j')
    {
    }
  }

  // ----- Stars

  lemma AppendAssociates<T>(a: seq<T>, b: seq<T>, c: seq<T>)
    ensures a + (b + c) == (a + b) + c
  {
  }

  lemma {:induction false} CellsAppend(fold: Fold, scope: seq<Binding>, eng: Engine, r: Reading, env: Env,
                                       ps: seq<Projection>, qs: seq<Projection>)
    ensures RowCells(fold, scope, eng, r, env, ps + qs)
      == RowCells(fold, scope, eng, r, env, ps) + RowCells(fold, scope, eng, r, env, qs)
  {
    if ps == [] {
      assert ps + qs == qs;
    } else {
      assert (ps + qs)[1..] == ps[1..] + qs && (ps + qs)[0] == ps[0];
      CellsAppend(fold, scope, eng, r, env, ps[1..], qs);
      AppendAssociates(ItemCells(fold, scope, eng, r, env, ps[0]), RowCells(fold, scope, eng, r, env, ps[1..]),
                       RowCells(fold, scope, eng, r, env, qs));
    }
  }

  lemma {:induction false} LabelsAppend(fold: Fold, scope: seq<Binding>, ps: seq<Projection>, qs: seq<Projection>)
    ensures RowLabels(fold, scope, ps + qs) == RowLabels(fold, scope, ps) + RowLabels(fold, scope, qs)
  {
    if ps == [] {
      assert ps + qs == qs;
    } else {
      assert (ps + qs)[1..] == ps[1..] + qs && (ps + qs)[0] == ps[0];
      LabelsAppend(fold, scope, ps[1..], qs);
      AppendAssociates(ItemLabels(fold, scope, ps[0]), RowLabels(fold, scope, ps[1..]), RowLabels(fold, scope, qs));
    }
  }

  lemma RowCellsAppend(fold: Fold, scope: seq<Binding>, eng: Engine, r: Reading, env: Env, ps: seq<Projection>,
                       qs: seq<Projection>)
    ensures RowCells(fold, scope, eng, r, env, ps + qs)
      == RowCells(fold, scope, eng, r, env, ps) + RowCells(fold, scope, eng, r, env, qs)
    ensures RowLabels(fold, scope, ps + qs) == RowLabels(fold, scope, ps) + RowLabels(fold, scope, qs)
  {
    CellsAppend(fold, scope, eng, r, env, ps, qs);
    LabelsAppend(fold, scope, ps, qs);
  }

  /** The rows of output items that are all expressions, item by item. */
  lemma {:induction false} RowCellsOfItems(fold: Fold, scope: seq<Binding>, eng: Engine, r: Reading, env: Env,
                                           ps: seq<Projection>)
    requires forall i :: 0 <= i < |ps| ==> ps[i].Item?
    ensures var row, labels := RowCells(fold, scope, eng, r, env, ps), RowLabels(fold, scope, ps);
      && |row| == |labels| == |ps|
      && forall i :: 0 <= i < |ps| ==>
         row[i] == Eval(eng, r, ps[i].value) && [labels[i]] == ItemLabels(fold, scope, ps[i])
  {
    if ps != [] {
      RowCellsOfItems(fold, scope, eng, r, env, ps[1..]);
    }
  }

  ghost predicate ItemsResolve(f: Resolver, ps: seq<Projection>) {
    forall i :: 0 <= i < |ps| && ps[i].Item? ==> Resolves(f, ps[i].value.kind)
  }

  /** The columns written for one table read the row of that table. */
  lemma ColumnItemsMean(fold: Fold, scope: seq<Binding>, eng: Engine, consts: Constants, env: Env, count: Value, i: nat)
    requires i < |scope| && |env| == |scope| && Shaped(scope, env)
    requires DistinctBindings(fold, scope) && NamedBindings(scope)
    requires ItemsResolve(ColumnResolver(fold, scope), ColumnItems(scope[i]))
    ensures RowCells(fold, scope, eng, ReadingOf(fold, scope, consts, env, count), env, ColumnItems(scope[i])) == env[i]
    ensures RowLabels(fold, scope, ColumnItems(scope[i])) == Labelled(scope[i].table.columns)
  {
    var r := ReadingOf(fold, scope, consts, env, count);
    var columns, ps := scope[i].table.columns, ColumnItems(scope[i]);
    RowCellsOfItems(fold, scope, eng, r, env, ps);
    forall j | 0 <= j < |columns|
      ensures Eval(eng, r, ps[j].value) == env[i][j]
    {
      assert Resolves(ColumnResolver(fold, scope), ps[j].value.kind);
      var i', j' := ResolveFinds(fold, scope, scope[i].name, columns[j]);
      assert i' == i && j' == j;
      CanonicalIsExact(fold, scope, i, j);
      ColumnValueIs(fold, scope, env, scope[i].name, columns[j], i, j);
    }
  }

  lemma ResolveSplits(f: Resolver, first: seq<Projection>, rest: seq<Projection>)
    requires ItemsResolve(f, first + rest)
    ensures ItemsResolve(f, first) && ItemsResolve(f, rest)
  {
    assert forall k :: 0 <= k < |first| ==> (first + rest)[k] == first[k];
    assert forall k :: 0 <= k < |rest| ==> (first + rest)[|first| + k] == rest[k];
  }

  lemma FromHere(scope: seq<Binding>, env: Env, from: nat)
    requires from < |scope| == |env|
    ensures AllColumnItems(scope[from..]) == ColumnItems(scope[from]) + AllColumnItems(scope[from + 1..])
    ensures Concat(env[from..]) == env[from] + Concat(env[from + 1..])
    ensures TableLabels(scope[from..]) == Labelled(scope[from].table.columns) + TableLabels(scope[from + 1..])
  {
    assert scope[from..][1..] == scope[from + 1..] && env[from..][1..] == env[from + 1..];
  }

  lemma {:induction false} AllColumnItemsMean(fold: Fold, scope: seq<Binding>, eng: Engine, consts: Constants,
                                              env: Env, count: Value, from: nat)
    requires from <= |scope| && |env| == |scope| && Shaped(scope, env)
    requires DistinctBindings(fold, scope) && NamedBindings(scope)
    requires ItemsResolve(ColumnResolver(fold, scope), AllColumnItems(scope[from..]))
    ensures RowCells(fold, scope, eng, ReadingOf(fold, scope, consts, env, count), env, AllColumnItems(scope[from..]))
      == Concat(env[from..])
    ensures RowLabels(fold, scope, AllColumnItems(scope[from..])) == TableLabels(scope[from..])
    decreases |scope| - from
  {
    if from < |scope| {
      var first, rest := ColumnItems(scope[from]), AllColumnItems(scope[from + 1..]);
      FromHere(scope, env, from);
      ResolveSplits(ColumnResolver(fold, scope), first, rest);
      ColumnItemsMean(fold, scope, eng, consts, env, count, from);
      AllColumnItemsMean(fold, scope, eng, consts, env, count, from + 1);
      RowCellsAppend(fold, scope, eng, ReadingOf(fold, scope, consts, env, count), env, first, rest);
    }
  }

  /** A star and the columns written for it contribute the same cells under the same labels. */
  lemma {:induction false} StarsMean(fold: Fold, scope: seq<Binding>, eng: Engine, consts: Constants, env: Env,
                                     count: Value, ps: seq<Projection>)
    requires |env| == |scope| && Shaped(scope, env)
    requires DistinctBindings(fold, scope) && NamedBindings(scope)
    requires ExpandStars(fold, scope, ps).Ok?
    requires ItemsResolve(ColumnResolver(fold, scope), ExpandStars(fold, scope, ps).value)
    ensures var r, qs := ReadingOf(fold, scope, consts, env, count), ExpandStars(fold, scope, ps).value;
      && RowCells(fold, scope, eng, r, env, ps) == RowCells(fold, scope, eng, r, env, qs)
      && RowLabels(fold, scope, ps) == RowLabels(fold, scope, qs)
  {
    if ps != [] {
      var r := ReadingOf(fold, scope, consts, env, count);
      var first, rest := ExpandItem(fold, scope, ps[0]).value, ExpandStars(fold, scope, ps[1..]).value;
      assert ExpandStars(fold, scope, ps).value == first + rest;
      ResolveSplits(ColumnResolver(fold, scope), first, rest);
      StarsMean(fold, scope, eng, consts, env, count, ps[1..]);
      RowCellsAppend(fold, scope, eng, r, env, first, rest);
      match ps[0] {
        case AllColumns =>
          assert scope[0..] == scope && env[0..] == env;
          AllColumnItemsMean(fold, scope, eng, consts, env, count, 0);
        case TableColumns(table) =>
          FilterOne(scope, BindingNamed(fold, table));
          var i: nat :| OnlyAt(scope, BindingNamed(fold, table), i);
          assert QualifiesOnly(fold, scope, table, i);
          ColumnItemsMean(fold, scope, eng, consts, env, count, i);
        case Item(_, _) =>
          assert RowCells(fold, scope, eng, r, env, first) == ItemCells(fold, scope, eng, r, env, ps[0]);
          assert RowLabels(fold, scope, first) == ItemLabels(fold, scope, ps[0]);
      }
    }
  }

  // ----- The select list

  /** A select-list value whose columns keep their meaning: rewritten ones are clear, hidden ones are
      spelled as they are meant. */
  ghost predicate ClearItem(fold: Fold, scope: seq<Binding>, value: Expr) {
    if value.kind.Column? then ClearExpr(fold, scope, value)
    else Everywhere(value, (k: Kind) => SpelledAsMeant(fold, scope, k))
  }

  ghost predicate ClearItems(fold: Fold, scope: seq<Binding>, ps: seq<Projection>) {
    forall i :: 0 <= i < |ps| && ps[i].Item? ==> ClearItem(fold, scope, ps[i].value)
  }

  ghost predicate PlainItem(p: Projection) {
    p.Item? && AllowedExpr(p.value, false)
  }

  ghost predicate PlainItems(ps: seq<Projection>) {
    forall i :: 0 <= i < |ps| ==> PlainItem(ps[i])
  }

  /** An expression whose columns are spelled as they are meant has the same value in both readings. */
  lemma HiddenKeepsValue(fold: Fold, scope: seq<Binding>, eng: Engine, consts: Constants, env: Env, count: Value,
                         e: Expr)
    requires Everywhere(e, (k: Kind) => SpelledAsMeant(fold, scope, k)) && Shaped(scope, env) && |env| == |scope|
    ensures Eval(eng, ReadingOf(fold, scope, consts, env, count), e)
      == Eval(eng, ReadingOf(Exact(), scope, consts, env, count), e)
  {
    var r, s := ReadingOf(fold, scope, consts, env, count), ReadingOf(Exact(), scope, consts, env, count);
    forall k: Kind | SpelledAsMeant(fold, scope, k)
      ensures LeafValue(eng, r, k) == LeafValue(eng, s, k)
    {
      if k.Column? {
        SpelledKeepsValue(fold, scope, k);
      }
    }
    EverywhereImplies(e, (k: Kind) => SpelledAsMeant(fold, scope, k), (k: Kind) => SpelledAsMeant(fold, scope, k),
                      (k: Kind) => LeafValue(eng, r, k) == LeafValue(eng, s, k));
    SelfAlike(eng, r, s, e);
    EvalAlike(eng, r, s, e, e);
  }

  lemma ItemKeepsValue(fold: Fold, scope: seq<Binding>, eng: Engine, consts: Constants, env: Env, count: Value,
                       p: Projection, index: nat)
    requires PlainItem(p) && AnalyzeItem(ColumnResolver(fold, scope), p, index).Ok?
    requires ClearItem(fold, scope, p.value)
    requires DistinctBindings(fold, scope) && NamedBindings(scope) && Shaped(scope, env) && |env| == |scope|
    ensures var item := AnalyzeItem(ColumnResolver(fold, scope), p, index).value.item;
      && item.Item?
      && Eval(eng, ReadingOf(fold, scope, consts, env, count), p.value)
         == Eval(eng, ReadingOf(Exact(), scope, consts, env, count), item.value)
  {
    if p.value.kind.Column? {
      SameColumnValue(fold, scope, env, p.value.kind.table, p.value.kind.name);
    } else {
      HiddenKeepsValue(fold, scope, eng, consts, env, count, p.value);
    }
  }

  ghost predicate SameItemValue(eng: Engine, r: Reading, s: Reading, a: Projection, b: Projection) {
    a.Item? && b.Item? && Eval(eng, r, a.value) == Eval(eng, s, b.value)
  }

  lemma RowOfItems(f: Resolver, fold: Fold, fold': Fold, scope: seq<Binding>, eng: Engine, r: Reading, s: Reading,
                   env: Env, ps: seq<Projection>)
    requires AnalyzeProjections(f, ps, 0).Ok?
    requires forall i :: 0 <= i < |ps| && AnalyzeItem(f, ps[i], i).Ok? ==>
      SameItemValue(eng, r, s, ps[i], AnalyzeItem(f, ps[i], i).value.item)
    ensures RowCells(fold, scope, eng, r, env, ps)
      == RowCells(fold', scope, eng, s, env, AnalyzeProjections(f, ps, 0).value.items)
  {
    var items := AnalyzeProjections(f, ps, 0).value.items;
    ProjectionsPointwise(f, ps, 0);
    forall i | 0 <= i < |ps|
      ensures SameItemValue(eng, r, s, ps[i], items[i])
    {
      assert AnalyzeItem(f, ps[i], i).Ok?;
    }
    SameItemsSameRow(fold, fold', scope, eng, r, s, env, ps, items);
  }

  lemma SameItemsSameRow(fold: Fold, fold': Fold, scope: seq<Binding>, eng: Engine, r: Reading, s: Reading, env: Env,
                         ps: seq<Projection>, items: seq<Projection>)
    requires |items| == |ps| && forall i :: 0 <= i < |ps| ==> SameItemValue(eng, r, s, ps[i], items[i])
    ensures RowCells(fold, scope, eng, r, env, ps) == RowCells(fold', scope, eng, s, env, items)
  {
    RowCellsOfItems(fold, scope, eng, r, env, ps);
    RowCellsOfItems(fold', scope, eng, s, env, items);
  }

  lemma RowKeepsValue(fold: Fold, scope: seq<Binding>, eng: Engine, consts: Constants, env: Env, count: Value,
                      ps: seq<Projection>)
    requires PlainItems(ps) && ClearItems(fold, scope, ps)
    requires AnalyzeProjections(ColumnResolver(fold, scope), ps, 0).Ok?
    requires DistinctBindings(fold, scope) && NamedBindings(scope) && Shaped(scope, env) && |env| == |scope|
    ensures RowCells(fold, scope, eng, ReadingOf(fold, scope, consts, env, count), env, ps)
         == RowCells(Exact(), scope, eng, ReadingOf(Exact(), scope, consts, env, count), env,
                     AnalyzeProjections(ColumnResolver(fold, scope), ps, 0).value.items)
  {
    var f := ColumnResolver(fold, scope);
    var r, s := ReadingOf(fold, scope, consts, env, count), ReadingOf(Exact(), scope, consts, env, count);
    forall i | 0 <= i < |ps| && AnalyzeItem(f, ps[i], i).Ok?
      ensures SameItemValue(eng, r, s, ps[i], AnalyzeItem(f, ps[i], i).value.item)
    {
      ItemKeepsValue(fold, scope, eng, consts, env, count, ps[i], i);
    }
    RowOfItems(f, fold, Exact(), scope, eng, r, s, env, ps);
  }

  /** The output is column `r`, and its cell is what the canonical name of `r` reads. */
  ghost predicate OutputReads(scope: seq<Binding>, env: Env, output: OutputColumn, r: Resolved, cell: Value) {
    && output.source == Some(SourceOf(r))
    && output.binding == Some(r.binding.name)
    && cell == ColumnValue(Exact(), scope, env, r.binding.name, r.column)
  }

  /** How the label and the cell of an output relate to its lineage. */
  ghost predicate OutputMeans(fold: Fold, scope: seq<Binding>, env: Env, output: OutputColumn, caption: Option<string>,
                              cell: Value) {
    && (caption.Some? ==> fold(caption.value) == fold(output.title))
    && (output.source.Some? ==>
        && caption.Some? && output.binding.Some?
        && exists r: Resolved :: r.binding in scope && OutputReads(scope, env, output, r, cell))
  }

  lemma OutputMeansAt(fold: Fold, scope: seq<Binding>, eng: Engine, consts: Constants, env: Env, count: Value,
                      p: Projection, index: nat, caption: Option<string>)
    requires PlainItem(p) && AnalyzeItem(ColumnResolver(fold, scope), p, index).Ok?
    requires ClearItem(fold, scope, p.value) && [caption] == ItemLabels(fold, scope, p)
    requires DistinctBindings(fold, scope) && NamedBindings(scope) && Shaped(scope, env)
    ensures OutputMeans(fold, scope, env, AnalyzeItem(ColumnResolver(fold, scope), p, index).value.output, caption,
                        Eval(eng, ReadingOf(fold, scope, consts, env, count), p.value))
  {
    assert caption == [caption][0];
    if p.value.kind.Column? {
      var table, name := p.value.kind.table, p.value.kind.name;
      var i, j := ResolveFinds(fold, scope, table, name);
      SameColumnValue(fold, scope, env, table, name);
      var output := AnalyzeItem(ColumnResolver(fold, scope), p, index).value.output;
      assert OutputReads(scope, env, output, Resolve(fold, scope, table, name).value,
                         Eval(eng, ReadingOf(fold, scope, consts, env, count), p.value));
    }
  }

  ghost predicate OutputsMeanAll(fold: Fold, scope: seq<Binding>, env: Env, outputs: seq<OutputColumn>,
                                 labels: seq<Option<string>>, row: seq<Value>) {
    && |outputs| == |row| == |labels|
    && forall i :: 0 <= i < |outputs| ==> OutputMeans(fold, scope, env, outputs[i], labels[i], row[i])
  }

  lemma OutputsOfItems(f: Resolver, fold: Fold, scope: seq<Binding>, eng: Engine, r: Reading, env: Env,
                       ps: seq<Projection>)
    requires AnalyzeProjections(f, ps, 0).Ok? && forall i :: 0 <= i < |ps| ==> ps[i].Item?
    requires forall i, caption ::
      0 <= i < |ps| && AnalyzeItem(f, ps[i], i).Ok? && [caption] == ItemLabels(fold, scope, ps[i]) ==>
      OutputMeans(fold, scope, env, AnalyzeItem(f, ps[i], i).value.output, caption, Eval(eng, r, ps[i].value))
    ensures OutputsMeanAll(fold, scope, env, AnalyzeProjections(f, ps, 0).value.outputs,
                           RowLabels(fold, scope, ps), RowCells(fold, scope, eng, r, env, ps))
  {
    ProjectionsPointwise(f, ps, 0);
    RowCellsOfItems(fold, scope, eng, r, env, ps);
    var outputs, labels, row := AnalyzeProjections(f, ps, 0).value.outputs, RowLabels(fold, scope, ps),
        RowCells(fold, scope, eng, r, env, ps);
    forall i | 0 <= i < |outputs|
      ensures OutputMeans(fold, scope, env, outputs[i], labels[i], row[i])
    {
      assert AnalyzeItem(f, ps[i], i).Ok? && [labels[i]] == ItemLabels(fold, scope, ps[i]);
    }
  }

  lemma OutputsMean(fold: Fold, scope: seq<Binding>, eng: Engine, consts: Constants, env: Env, count: Value,
                    ps: seq<Projection>)
    requires PlainItems(ps) && ClearItems(fold, scope, ps)
    requires AnalyzeProjections(ColumnResolver(fold, scope), ps, 0).Ok?
    requires DistinctBindings(fold, scope) && NamedBindings(scope) && Shaped(scope, env) && |env| == |scope|
    ensures OutputsMeanAll(fold, scope, env, AnalyzeProjections(ColumnResolver(fold, scope), ps, 0).value.outputs,
                           RowLabels(fold, scope, ps),
                           RowCells(fold, scope, eng, ReadingOf(fold, scope, consts, env, count), env, ps))
  {
    var f := ColumnResolver(fold, scope);
    var r := ReadingOf(fold, scope, consts, env, count);
    forall i, caption | 0 <= i < |ps| && AnalyzeItem(f, ps[i], i).Ok? && [caption] == ItemLabels(fold, scope, ps[i])
      ensures OutputMeans(fold, scope, env, AnalyzeItem(f, ps[i], i).value.output, caption, Eval(eng, r, ps[i].value))
    {
      OutputMeansAt(fold, scope, eng, consts, env, count, ps[i], i, caption);
    }
    OutputsOfItems(f, fold, scope, eng, r, env, ps);
  }

  // ----- ORDER BY

  /** A key that names one output reads the cell of that output. */
  lemma KeyOfOutput(fold: Fold, scope: seq<Binding>, env: Env, outputs: seq<OutputColumn>, labels: seq<Option<string>>,
                    row: seq<Value>, name: string, i: nat)
    requires OutputsMeanAll(fold, scope, env, outputs, labels, row) && DistinctBindings(fold, scope)
    requires OnlyAt(outputs, OutputNamed(fold, name), i) && ResolveOrder(fold, scope, outputs, "", name).Ok?
    ensures HasLabel(fold, labels, name, i) && forall k: nat :: HasLabel(fold, labels, name, k) ==> k == i
    ensures var r := ResolveOrder(fold, scope, outputs, "", name).value;
      r.binding in scope && row[i] == ColumnValue(Exact(), scope, env, r.binding.name, r.column)
  {
    FilterOne(outputs, OutputNamed(fold, name));
    assert Filter(outputs, OutputNamed(fold, name)) == [outputs[i]];
    assert OutputMeans(fold, scope, env, outputs[i], labels[i], row[i]);
    var c: Resolved :| c.binding in scope && OutputReads(scope, env, outputs[i], c, row[i]);
    var owner := OwnerOf(outputs[i]);
    var k :| 0 <= k < |scope| && scope[k] == c.binding;
    assert OnlyAt(scope, owner, k);
    FilterOne(scope, owner);
    forall k: nat | HasLabel(fold, labels, name, k)
      ensures k == i
    {
      assert OutputMeans(fold, scope, env, outputs[k], labels[k], row[k]);
    }
  }

  lemma KeyOfColumn(fold: Fold, scope: seq<Binding>, env: Env, outputs: seq<OutputColumn>, labels: seq<Option<string>>,
                    row: seq<Value>, name: string)
    requires OutputsMeanAll(fold, scope, env, outputs, labels, row)
    requires Filter(outputs, OutputNamed(fold, name)) == []
    ensures forall k: nat :: !HasLabel(fold, labels, name, k)
  {
    FilterNone(outputs, OutputNamed(fold, name));
    forall k: nat | k < |outputs|
      ensures !HasLabel(fold, labels, name, k)
    {
      assert OutputMeans(fold, scope, env, outputs[k], labels[k], row[k]);
    }
  }

  /** The key names an output, or is clear as a column. */
  ghost predicate ClearKey(fold: Fold, scope: seq<Binding>, labels: seq<Option<string>>, e: Expr) {
    || (e.kind.Column? && e.kind.table == "" && exists i: nat :: HasLabel(fold, labels, e.kind.name, i))
    || ClearExpr(fold, scope, e)
  }

  /** The rewritten key, always qualified, has the value of the original key. */
  lemma KeyKeepsValue(fold: Fold, scope: seq<Binding>, eng: Engine, consts: Constants, env: Env,
                      outputs: seq<OutputColumn>, labels: seq<Option<string>>, row: seq<Value>,
                      labels': seq<Option<string>>, row': seq<Value>, e: Expr, part: Part)
    requires OutputsMeanAll(fold, scope, env, outputs, labels, row) && ClearKey(fold, scope, labels, e)
    requires DistinctBindings(fold, scope) && NamedBindings(scope) && Shaped(scope, env)
    requires AnalyzeTree(OrderResolver(fold, scope, outputs), part, e).Ok?
    requires e.kind.Column? && e.kids == []
    ensures var r, s := ReadingOf(fold, scope, consts, env, Null), ReadingOf(Exact(), scope, consts, env, Null);
      KeyValue(fold, labels, row, eng, r, e)
      == KeyValue(Exact(), labels', row', eng, s, AnalyzeTree(OrderResolver(fold, scope, outputs), part, e).value.item)
  {
    var f := OrderResolver(fold, scope, outputs);
    var table, name := e.kind.table, e.kind.name;
    AnalyzeTreeResolves(f, part, e);
    var named := OutputNamed(fold, name);
    if table != "" || Filter(outputs, named) == [] {
      assert ResolveOrder(fold, scope, outputs, table, name) == Resolve(fold, scope, table, name);
      if table == "" {
        KeyOfColumn(fold, scope, env, outputs, labels, row, name);
      }
      assert ClearKind(fold, scope, e.kind);
      SameColumnValue(fold, scope, env, table, name);
      var i, j := ResolveFinds(fold, scope, table, name);
    } else {
      FilterOne(outputs, named);
      var i: nat :| OnlyAt(outputs, named, i);
      KeyOfOutput(fold, scope, env, outputs, labels, row, name, i);
    }
  }

  // ----- The whole query

  /** Every column has a single meaning where it is looked up, and keeps it where it is not rewritten. */
  ghost predicate ClearQuery(fold: Fold, scope: seq<Binding>, q: Query) {
    && ClearItems(fold, scope, q.expressions)
    && (forall j :: 0 <= j < |q.joins| && q.joins[j].on.Some? ==> ClearExpr(fold, scope, q.joins[j].on.value))
    && (q.where_.Some? ==> ClearExpr(fold, scope, q.where_.value))
    && (forall k :: 0 <= k < |q.order| ==>
        ClearKey(fold, scope, RowLabels(fold, scope, q.expressions), q.order[k].target))
  }

  ghost predicate NamedTables(schemas: seq<TableSchema>) {
    forall i :: 0 <= i < |schemas| ==> schemas[i].name != ""
  }

  /** The rows of each table have the columns of its schema. */
  ghost predicate Populated(scope: seq<Binding>, tables: seq<seq<Row>>) {
    && |tables| == |scope|
    && forall i: nat, k: nat :: i < |tables| && k < |tables[i]| ==> |tables[i][k]| == |scope[i].table.columns|
  }

  /** The stages of an accepted analysis. */
  lemma AnalyzeStages(fold: Fold, cross: CrossCheck, limits: Limits, q: Query, schemas: seq<TableSchema>)
    requires Analyze(fold, cross, limits, q, schemas).Ok?
    ensures Collect(fold, q, schemas).Ok?
    ensures var scope := Collect(fold, q, schemas).value;
      && ExpandStars(fold, scope, q.expressions).Ok?
      && var working := q.(expressions := ExpandStars(fold, scope, q.expressions).value);
        && AnalyzeClauses(ColumnResolver(fold, scope), OrderResolvers(fold, scope), working)
           == Analyze(fold, cross, limits, q, schemas)
        && Allowed(Analyze(fold, cross, limits, q, schemas).value.query, false)
  {
  }

  ghost predicate ReadyItem(fold: Fold, scope: seq<Binding>, p: Projection) {
    p.Item? && ClearItem(fold, scope, p.value)
  }

  ghost predicate ReadyItems(fold: Fold, scope: seq<Binding>, ps: seq<Projection>) {
    forall i :: 0 <= i < |ps| ==> ReadyItem(fold, scope, ps[i])
  }

  lemma {:induction false} AllColumnItemsGood(bindings: seq<Binding>, good: Projection -> bool)
    requires forall i, k :: 0 <= i < |bindings| && 0 <= k < |ColumnItems(bindings[i])| ==>
      good(ColumnItems(bindings[i])[k])
    ensures forall k :: 0 <= k < |AllColumnItems(bindings)| ==> good(AllColumnItems(bindings)[k])
  {
    if bindings != [] {
      assert forall i :: 0 <= i < |bindings[1..]| ==> bindings[1..][i] == bindings[i + 1];
      AllColumnItemsGood(bindings[1..], good);
    }
  }

  /** What holds of the items written by the caller and of every plain column holds after stars are
      expanded. */
  lemma {:induction false} ExpandedGood(fold: Fold, scope: seq<Binding>, ps: seq<Projection>, good: Projection -> bool)
    requires ExpandStars(fold, scope, ps).Ok?
    requires forall i :: 0 <= i < |ps| && ps[i].Item? ==> good(ps[i])
    requires forall i, k :: 0 <= i < |scope| && 0 <= k < |ColumnItems(scope[i])| ==> good(ColumnItems(scope[i])[k])
    ensures forall k :: 0 <= k < |ExpandStars(fold, scope, ps).value| ==> good(ExpandStars(fold, scope, ps).value[k])
  {
    if ps != [] {
      ExpandedGood(fold, scope, ps[1..], good);
      AllColumnItemsGood(scope, good);
      if ps[0].TableColumns? {
        FilterOne(scope, BindingNamed(fold, ps[0].table));
        var i: nat :| OnlyAt(scope, BindingNamed(fold, ps[0].table), i);
      }
      var first := ExpandItem(fold, scope, ps[0]).value;
      assert forall k :: 0 <= k < |first| ==> good(first[k]);
    }
  }

  /** Items whose rewritten forms are allowed were allowed to begin with. */
  lemma ExpandedPlain(f: Resolver, ps: seq<Projection>)
    requires AnalyzeProjections(f, ps, 0).Ok? && forall i :: 0 <= i < |ps| ==> ps[i].Item?
    requires var items := AnalyzeProjections(f, ps, 0).value.items;
      forall i :: 0 <= i < |items| && items[i].Item? ==> AllowedExpr(items[i].value, false)
    ensures PlainItems(ps) && ItemsResolve(f, ps)
  {
    var items := AnalyzeProjections(f, ps, 0).value.items;
    ProjectionsPointwise(f, ps, 0);
    forall i | 0 <= i < |ps|
      ensures PlainItem(ps[i]) && Resolves(f, ps[i].value.kind)
    {
      assert AnalyzeItem(f, ps[i], i).value.item == items[i];
    }
  }

  ghost function SameRows(scope: seq<Binding>): RowRelation {
    (i: nat, a: Row, b: Row) => a == b && i < |scope| && |a| == |scope[i].table.columns|
  }

  lemma SameRowsMeans(scope: seq<Binding>, a: Env, b: Env)
    requires EnvRel(SameRows(scope), a, b)
    ensures a == b && (|a| <= |scope| ==> Shaped(scope, a))
  {
  }

  lemma HoldsKept(fold: Fold, scope: seq<Binding>, eng: Engine, consts: Constants, env: Env, part: Part,
                  condition: Option<Expr>, condition': Option<Expr>)
    requires condition.Some? <==> condition'.Some?
    requires condition.Some? ==>
      && AnalyzeTree(ColumnResolver(fold, scope), part, condition.value).Ok?
      && condition'.value == AnalyzeTree(ColumnResolver(fold, scope), part, condition.value).value.item
      && ClearExpr(fold, scope, condition.value)
    requires DistinctBindings(fold, scope) && NamedBindings(scope) && Shaped(scope, env)
    ensures Holds(fold, scope, eng, consts, condition, env) == Holds(Exact(), scope, eng, consts, condition', env)
  {
    if condition.Some? {
      TreeKeepsValue(fold, scope, eng, consts, env, Null, part, condition.value);
    }
  }

  lemma {:induction false} BeforeByFlags(eng: Engine, order: seq<OrderKey>, order': seq<OrderKey>, a: seq<Value>,
                                         b: seq<Value>)
    requires |order| == |order'|
    requires forall k :: 0 <= k < |order| ==>
      order[k].descending == order'[k].descending && order[k].nullsFirst == order'[k].nullsFirst
    ensures Before(eng, order, a, b) == Before(eng, order', a, b)
  {
    if order != [] && a != [] && b != [] {
      BeforeByFlags(eng, order[1..], order'[1..], a[1..], b[1..]);
    }
  }

  lemma RowsKept(fold: Fold, scope: seq<Binding>, eng: Engine, consts: Constants, env: Env, count: Value,
                 ps: seq<Projection>, qs: seq<Projection>)
    requires DistinctBindings(fold, scope) && NamedBindings(scope) && |env| == |scope| && Shaped(scope, env)
    requires ExpandStars(fold, scope, ps) == Ok(qs)
    requires PlainItems(qs) && ReadyItems(fold, scope, qs) && ItemsResolve(ColumnResolver(fold, scope), qs)
    requires AnalyzeProjections(ColumnResolver(fold, scope), qs, 0).Ok?
    ensures var a := AnalyzeProjections(ColumnResolver(fold, scope), qs, 0).value;
            var r, s := ReadingOf(fold, scope, consts, env, count), ReadingOf(Exact(), scope, consts, env, count);
      && RowCells(fold, scope, eng, r, env, ps) == RowCells(Exact(), scope, eng, s, env, a.items)
      && OutputsMeanAll(fold, scope, env, a.outputs, RowLabels(fold, scope, ps), RowCells(fold, scope, eng, r, env, ps))
  {
    StarsMean(fold, scope, eng, consts, env, count, ps);
    assert ClearItems(fold, scope, qs) by {
      assert forall i :: 0 <= i < |qs| ==> ReadyItem(fold, scope, qs[i]);
    }
    RowKeepsValue(fold, scope, eng, consts, env, count, qs);
    OutputsMean(fold, scope, eng, consts, env, count, qs);
  }

  /** `a` is the analysis of `q`, whose stars expand to the items `qs`. */
  ghost predicate AnalysisOf(fold: Fold, scope: seq<Binding>, q: Query, qs: seq<Projection>, a: AnalyzedQuery) {
    && DistinctBindings(fold, scope) && NamedBindings(scope) && ClearQuery(fold, scope, q)
    && ExpandStars(fold, scope, q.expressions) == Ok(qs)
    && PlainItems(qs) && ReadyItems(fold, scope, qs) && ItemsResolve(ColumnResolver(fold, scope), qs)
    && AnalyzeClauses(ColumnResolver(fold, scope), OrderResolvers(fold, scope), q.(expressions := qs)) == Ok(a)
    && Allowed(a.query, false) && JoinsMeant(a.query)
  }

  lemma KeyKept(fold: Fold, scope: seq<Binding>, eng: Engine, consts: Constants, env: Env, q: Query,
                qs: seq<Projection>, a: AnalyzedQuery, k: nat)
    requires AnalysisOf(fold, scope, q, qs, a) && |env| == |scope| && Shaped(scope, env)
    requires k < |q.order| == |a.query.order|
    ensures SortKey(fold, scope, eng, consts, q, env)[k] == SortKey(Exact(), scope, eng, consts, a.query, env)[k]
  {
    var g := OrderResolver(fold, scope, a.outputs);
    ClausesParts(ColumnResolver(fold, scope), OrderResolvers(fold, scope), q.(expressions := qs));
    RowsKept(fold, scope, eng, consts, env, Null, q.expressions, qs);
    OrderAnalyzed(g, q.order);
    var e := q.order[k].target;
    assert KeyAnalyzed(g, k, q.order[k], a.query.order[k]);
    assert AllowedKey(a.query.order[k]) && AllowedExpr(a.query.order[k].target, false);
    var r, s := ReadingOf(fold, scope, consts, env, Null), ReadingOf(Exact(), scope, consts, env, Null);
    var labels, labels' := RowLabels(fold, scope, q.expressions), RowLabels(Exact(), scope, a.query.expressions);
    assert ClearKey(fold, scope, labels, e);
    KeyKeepsValue(fold, scope, eng, consts, env, a.outputs, labels, RowCells(fold, scope, eng, r, env, q.expressions),
                  labels', RowCells(Exact(), scope, eng, s, env, a.query.expressions), e, InOrder(k));
  }

  lemma OrderKept(fold: Fold, scope: seq<Binding>, q: Query, qs: seq<Projection>, a: AnalyzedQuery)
    requires AnalysisOf(fold, scope, q, qs, a)
    ensures |a.query.order| == |q.order| && |a.query.joins| == |q.joins| && a.query.limit == q.limit
  {
    ClausesParts(ColumnResolver(fold, scope), OrderResolvers(fold, scope), q.(expressions := qs));
    OrderAnalyzed(OrderResolver(fold, scope, a.outputs), q.order);
    JoinsAnalyzed(ColumnResolver(fold, scope), q.joins);
  }

  lemma KeysKept(fold: Fold, scope: seq<Binding>, eng: Engine, consts: Constants, env: Env, q: Query,
                 qs: seq<Projection>, a: AnalyzedQuery)
    requires AnalysisOf(fold, scope, q, qs, a) && |env| == |scope| && Shaped(scope, env)
    ensures SortKey(fold, scope, eng, consts, q, env) == SortKey(Exact(), scope, eng, consts, a.query, env)
  {
    OrderKept(fold, scope, q, qs, a);
    forall k | 0 <= k < |q.order| {
      KeyKept(fold, scope, eng, consts, env, q, qs, a, k);
    }
  }

  lemma ConditionsKept(fold: Fold, scope: seq<Binding>, eng: Engine, consts: Constants, env: Env, q: Query,
                       qs: seq<Projection>, a: AnalyzedQuery)
    requires AnalysisOf(fold, scope, q, qs, a) && Shaped(scope, env)
    ensures |a.query.joins| == |q.joins|
    ensures forall j :: 0 <= j < |q.joins| ==>
              && a.query.joins[j].side == q.joins[j].side
              && Holds(fold, scope, eng, consts, q.joins[j].on, env)
                 == Holds(Exact(), scope, eng, consts, a.query.joins[j].on, env)
    ensures Holds(fold, scope, eng, consts, q.where_, env) == Holds(Exact(), scope, eng, consts, a.query.where_, env)
  {
    var f := ColumnResolver(fold, scope);
    ClausesParts(f, OrderResolvers(fold, scope), q.(expressions := qs));
    JoinsAnalyzed(f, q.joins);
    forall j | 0 <= j < |q.joins|
      ensures a.query.joins[j].side == q.joins[j].side
      ensures Holds(fold, scope, eng, consts, q.joins[j].on, env)
        == Holds(Exact(), scope, eng, consts, a.query.joins[j].on, env)
    {
      assert JoinAnalyzed(f, j, q.joins[j], a.query.joins[j]);
      HoldsKept(fold, scope, eng, consts, env, InOn(j), q.joins[j].on, a.query.joins[j].on);
    }
    HoldsKept(fold, scope, eng, consts, env, InWhere, q.where_, a.query.where_);
  }

  lemma OrderFlagsKept(fold: Fold, scope: seq<Binding>, eng: Engine, q: Query, qs: seq<Projection>, a: AnalyzedQuery,
                       x: seq<Value>, y: seq<Value>)
    requires AnalysisOf(fold, scope, q, qs, a)
    ensures Before(eng, q.order, x, y) == Before(eng, a.query.order, x, y)
  {
    var g := OrderResolver(fold, scope, a.outputs);
    ClausesParts(ColumnResolver(fold, scope), OrderResolvers(fold, scope), q.(expressions := qs));
    OrderAnalyzed(g, q.order);
    assert forall k :: 0 <= k < |q.order| ==> KeyAnalyzed(g, k, q.order[k], a.query.order[k]);
    BeforeByFlags(eng, q.order, a.query.order, x, y);
  }

  lemma CountingAppend(ps: seq<Projection>, qs: seq<Projection>)
    ensures Counting(ps + qs) == (Counting(ps) || Counting(qs))
  {
    assert forall i :: 0 <= i < |ps| ==> (ps + qs)[i] == ps[i];
    assert forall i :: 0 <= i < |qs| ==> (ps + qs)[|ps| + i] == qs[i];
  }

  lemma CountingItem(fold: Fold, scope: seq<Binding>, p: Projection)
    requires ExpandItem(fold, scope, p).Ok?
    ensures Counting(ExpandItem(fold, scope, p).value) == IsCount(p)
  {
    AllColumnItemsAreItems(scope);
    var items := ExpandItem(fold, scope, p).value;
    assert p.Item? ==> items[0] == p;
    assert !p.Item? ==> forall k :: 0 <= k < |items| ==> items[k].Item? && !HasCount(items[k].value);
  }

  lemma {:induction false} CountingExpanded(fold: Fold, scope: seq<Binding>, ps: seq<Projection>)
    requires ExpandStars(fold, scope, ps).Ok?
    ensures Counting(ps) == Counting(ExpandStars(fold, scope, ps).value)
  {
    if ps != [] {
      CountingExpanded(fold, scope, ps[1..]);
      CountingItem(fold, scope, ps[0]);
      CountingAppend(ExpandItem(fold, scope, ps[0]).value, ExpandStars(fold, scope, ps[1..]).value);
      CountingAppend([ps[0]], ps[1..]);
      assert [ps[0]] + ps[1..] == ps;
      assert Counting([ps[0]]) == IsCount(ps[0]) by {
        assert [ps[0]][0] == ps[0];
      }
    }
  }

  lemma CountingOfItems(f: Resolver, ps: seq<Projection>)
    requires AnalyzeProjections(f, ps, 0).Ok?
    ensures Counting(ps) == Counting(AnalyzeProjections(f, ps, 0).value.items)
  {
    var items := AnalyzeProjections(f, ps, 0).value.items;
    ProjectionsPointwise(f, ps, 0);
    forall i | 0 <= i < |ps|
      ensures IsCount(ps[i]) == IsCount(items[i])
    {
      assert AnalyzeItem(f, ps[i], i).value.item == items[i];
    }
    assert forall i :: 0 <= i < |ps| ==> IsCount(ps[i]) == IsCount(items[i]);
  }

  lemma CountingKept(fold: Fold, scope: seq<Binding>, q: Query, qs: seq<Projection>, a: AnalyzedQuery)
    requires AnalysisOf(fold, scope, q, qs, a)
    ensures Counting(q.expressions) == Counting(a.query.expressions)
  {
    CountingExpanded(fold, scope, q.expressions);
    ClausesParts(ColumnResolver(fold, scope), OrderResolvers(fold, scope), q.(expressions := qs));
    CountingOfItems(ColumnResolver(fold, scope), qs);
  }

  /** The plans of the two queries choose and order rows alike. */
  lemma SelectionKept(fold: Fold, scope: seq<Binding>, eng: Engine, consts: Constants, q: Query, qs: seq<Projection>,
                      a: AnalyzedQuery)
    requires AnalysisOf(fold, scope, q, qs, a)
    requires Meant(q) && |scope| == TableCount(q) == TableCount(a.query)
    ensures var p, p' := PlanOf(fold, scope, eng, consts, q), PlanOf(Exact(), scope, eng, consts, a.query);
      && OnAgrees(SameRows(scope), |scope|, p.keep, p'.keep) && KeysAgree(SameRows(scope), |scope|, p, p')
      && forall x, y :: p.before(x, y) == p'.before(x, y)
  {
    var rel := SameRows(scope);
    var p, p' := PlanOf(fold, scope, eng, consts, q), PlanOf(Exact(), scope, eng, consts, a.query);
    forall x, y | EnvRel(rel, x, y) && |x| == |scope|
      ensures p.keep(x) == p'.keep(y) && p.key(x) == p'.key(y)
    {
      SameRowsMeans(scope, x, y);
      ConditionsKept(fold, scope, eng, consts, x, q, qs, a);
      KeysKept(fold, scope, eng, consts, x, q, qs, a);
    }
    forall x, y
      ensures p.before(x, y) == p'.before(x, y)
    {
      OrderFlagsKept(fold, scope, eng, q, qs, a, x, y);
    }
  }

  lemma JoinPlansKept(fold: Fold, scope: seq<Binding>, eng: Engine, consts: Constants, q: Query, qs: seq<Projection>,
                      a: AnalyzedQuery, j: nat)
    requires AnalysisOf(fold, scope, q, qs, a)
    requires Meant(q) && |scope| == TableCount(q) == TableCount(a.query) && |a.query.joins| == |q.joins|
        && j < |q.joins|
    ensures var p, p' := PlanOf(fold, scope, eng, consts, q).joins[j],
        PlanOf(Exact(), scope, eng, consts, a.query).joins[j];
      p.outer == p'.outer && p.width == p'.width && OnAgrees(SameRows(scope), j + 2, p.on, p'.on)
  {
    var rel := SameRows(scope);
    var p, p' := PlanOf(fold, scope, eng, consts, q).joins[j], PlanOf(Exact(), scope, eng, consts, a.query).joins[j];
    assert EnvRel(rel, [], []);
    ConditionsKept(fold, scope, eng, consts, [], q, qs, a);
    forall x, y | EnvRel(rel, x, y) && |x| == j + 2
      ensures p.on(x) == p'.on(y)
    {
      SameRowsMeans(scope, x, y);
      ConditionsKept(fold, scope, eng, consts, x, q, qs, a);
    }
  }

  lemma OutputKept(fold: Fold, scope: seq<Binding>, eng: Engine, consts: Constants, q: Query, qs: seq<Projection>,
                   a: AnalyzedQuery)
    requires AnalysisOf(fold, scope, q, qs, a)
    requires Meant(q) && |scope| == TableCount(q) == TableCount(a.query)
    ensures RowsAgree(SameRows(scope), |scope|, PlanOf(fold, scope, eng, consts, q),
                      PlanOf(Exact(), scope, eng, consts, a.query), (x, y) => x == y)
  {
    var rel := SameRows(scope);
    var p, p' := PlanOf(fold, scope, eng, consts, q), PlanOf(Exact(), scope, eng, consts, a.query);
    ClausesParts(ColumnResolver(fold, scope), OrderResolvers(fold, scope), q.(expressions := qs));
    forall x, y, count: nat | EnvRel(rel, x, y) && |x| == |scope|
      ensures p.row(x, count) == p'.row(y, count)
    {
      SameRowsMeans(scope, x, y);
      RowsKept(fold, scope, eng, consts, x, Int(count), q.expressions, qs);
    }
  }

  lemma JoinsPlansKept(fold: Fold, scope: seq<Binding>, eng: Engine, consts: Constants, q: Query, qs: seq<Projection>,
                       a: AnalyzedQuery)
    requires AnalysisOf(fold, scope, q, qs, a)
    requires Meant(q) && |scope| == TableCount(q) == TableCount(a.query)
    ensures var p, p' := PlanOf(fold, scope, eng, consts, q), PlanOf(Exact(), scope, eng, consts, a.query);
      && |p.joins| == |p'.joins| && p.top == p'.top
      && forall j: nat :: j < |p.joins| ==>
        && p.joins[j].outer == p'.joins[j].outer && p.joins[j].width == p'.joins[j].width
        && SameRows(scope)(j + 1, Nulls(p.joins[j].width), Nulls(p.joins[j].width))
        && OnAgrees(SameRows(scope), j + 2, p.joins[j].on, p'.joins[j].on)
  {
    OrderKept(fold, scope, q, qs, a);
    forall j: nat | j < |q.joins| {
      JoinPlansKept(fold, scope, eng, consts, q, qs, a, j);
    }
  }

  lemma PlansKept(fold: Fold, scope: seq<Binding>, eng: Engine, consts: Constants, q: Query, qs: seq<Projection>,
                  a: AnalyzedQuery)
    requires AnalysisOf(fold, scope, q, qs, a)
    requires Meant(q) && |scope| == TableCount(q) == TableCount(a.query)
    ensures var p, p' := PlanOf(fold, scope, eng, consts, q), PlanOf(Exact(), scope, eng, consts, a.query);
      && PlansAgree(SameRows(scope), |scope|, p, p')
      && RowsAgree(SameRows(scope), |scope|, p, p', (x, y) => x == y)
      && p.top == p'.top
  {
    CountingKept(fold, scope, q, qs, a);
    SelectionKept(fold, scope, eng, consts, q, qs, a);
    OutputKept(fold, scope, eng, consts, q, qs, a);
    JoinsPlansKept(fold, scope, eng, consts, q, qs, a);
  }

  /** A query and its analysis mean the same. */
  lemma AnalysisOfMeans(fold: Fold, scope: seq<Binding>, eng: Engine, consts: Constants, tables: seq<seq<Row>>,
                        q: Query, qs: seq<Projection>, a: AnalyzedQuery)
    requires AnalysisOf(fold, scope, q, qs, a) && Meant(q) && |scope| == TableCount(q) && Populated(scope, tables)
    ensures TableCount(a.query) == TableCount(q) && Meant(a.query)
    ensures Meaning(fold, scope, eng, consts, tables, q) == Meaning(Exact(), scope, eng, consts, tables, a.query)
  {
    ClausesParts(ColumnResolver(fold, scope), OrderResolvers(fold, scope), q.(expressions := qs));
    JoinsAnalyzed(ColumnResolver(fold, scope), q.joins);
    PlansKept(fold, scope, eng, consts, q, qs, a);
    var p, p' := PlanOf(fold, scope, eng, consts, q), PlanOf(Exact(), scope, eng, consts, a.query);
    AnswersAgree(SameRows(scope), p, p', tables, tables, Widths(scope), (x, y) => x == y);
    assert Answer(p, tables, Widths(scope)) == Answer(p', tables, Widths(scope));
  }

  /** What the analysis accepts has a meaning, and so has what it makes of it. */
  lemma AnalysisIsMeant(fold: Fold, cross: CrossCheck, limits: Limits, q: Query, schemas: seq<TableSchema>)
    requires Grammatical(q) && Analyze(fold, cross, limits, q, schemas).Ok?
    ensures Meant(q) && Meant(Analyze(fold, cross, limits, q, schemas).value.query)
  {
    AnalyzeStages(fold, cross, limits, q, schemas);
    var scope, a := Collect(fold, q, schemas).value, Analyze(fold, cross, limits, q, schemas).value;
    var f := ColumnResolver(fold, scope);
    ClausesParts(f, OrderResolvers(fold, scope), q.(expressions := ExpandStars(fold, scope, q.expressions).value));
    JoinsAnalyzed(f, q.joins);
    AllowedIsMeant(a.query, false);
    forall j | 0 <= j < |q.joins|
      ensures JoinMeant(q.joins[j])
    {
      assert JoinAnalyzed(f, j, q.joins[j], a.query.joins[j]) && JoinMeant(a.query.joins[j]);
    }
  }

  /** MAIN RESULT. Whenever the analysis accepts a query, the rewritten query read with exact names
      gives the same rows in the same order as the caller's query read under case folding. */
  lemma AnalysisPreservesMeaning(fold: Fold, cross: CrossCheck, limits: Limits, q: Query, schemas: seq<TableSchema>,
                                 eng: Engine, consts: Constants, tables: seq<seq<Row>>)
    requires Grammatical(q) && NamedTables(schemas)
    requires Analyze(fold, cross, limits, q, schemas).Ok?
    requires ClearQuery(fold, Collect(fold, q, schemas).value, q)
    requires Populated(Collect(fold, q, schemas).value, tables)
    ensures Meant(q) && Meant(Analyze(fold, cross, limits, q, schemas).value.query)
    ensures var scope, a := Collect(fold, q, schemas).value, Analyze(fold, cross, limits, q, schemas).value;
      && |scope| == TableCount(q) == TableCount(a.query)
      && Meaning(fold, scope, eng, consts, tables, q) == Meaning(Exact(), scope, eng, consts, tables, a.query)
  {
    var scope, a := Collect(fold, q, schemas).value, Analyze(fold, cross, limits, q, schemas).value;
    AnalysisHolds(fold, cross, limits, q, schemas);
    AnalysisIsMeant(fold, cross, limits, q, schemas);
    AnalysisOfMeans(fold, scope, eng, consts, tables, q, ExpandStars(fold, scope, q.expressions).value, a);
  }

  /** An accepted analysis works on plain items only. */
  lemma AnalyzedItemsPlain(fold: Fold, cross: CrossCheck, limits: Limits, q: Query, schemas: seq<TableSchema>)
    requires Analyze(fold, cross, limits, q, schemas).Ok?
    ensures var scope := Collect(fold, q, schemas).value;
      && DistinctBindings(fold, scope) && (Grammatical(q) ==> |scope| == TableCount(q))
      && (NamedTables(schemas) ==> NamedBindings(scope))
      && ExpandStars(fold, scope, q.expressions).Ok?
      && PlainItems(ExpandStars(fold, scope, q.expressions).value)
      && ItemsResolve(ColumnResolver(fold, scope), ExpandStars(fold, scope, q.expressions).value)
  {
    AnalyzeStages(fold, cross, limits, q, schemas);
    CollectPairs(fold, q, schemas);
    var scope := Collect(fold, q, schemas).value;
    var f := ColumnResolver(fold, scope);
    ExpandedItems(fold, scope, q.expressions);
    var qs := ExpandStars(fold, scope, q.expressions).value;
    ClausesParts(f, OrderResolvers(fold, scope), q.(expressions := qs));
    ExpandedPlain(f, qs);
  }

  lemma AnalysisHolds(fold: Fold, cross: CrossCheck, limits: Limits, q: Query, schemas: seq<TableSchema>)
    requires Grammatical(q) && NamedTables(schemas)
    requires Analyze(fold, cross, limits, q, schemas).Ok?
    requires ClearQuery(fold, Collect(fold, q, schemas).value, q)
    ensures var scope, a := Collect(fold, q, schemas).value, Analyze(fold, cross, limits, q, schemas).value;
      && |scope| == TableCount(q)
      && ExpandStars(fold, scope, q.expressions).Ok?
      && AnalysisOf(fold, scope, q, ExpandStars(fold, scope, q.expressions).value, a)
  {
    AnalyzeStages(fold, cross, limits, q, schemas);
    AnalyzedItemsPlain(fold, cross, limits, q, schemas);
    AnalysisIsMeant(fold, cross, limits, q, schemas);
    var scope := Collect(fold, q, schemas).value;
    ExpandedGood(fold, scope, q.expressions, (p: Projection) => ReadyItem(fold, scope, p));
  }
}
