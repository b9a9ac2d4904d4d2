/** `security/lineage.py`: expand stars, resolve every column to a reflected source, and rebuild the
    query with canonical qualified names. */
module Lineage {
  import opened Outcomes
  import opened Ast
  import opened Scope
  import opened Sequences
  import opened Allowlist

  datatype SourceColumn = SourceColumn(schema: string, table: string, column: string)

  datatype OutputKind = ColumnOutput | CountOutput | LiteralOutput

  datatype OutputColumn = OutputColumn(title: string, kind: OutputKind, source: Option<SourceColumn>,
                                       binding: Option<string>)

  datatype ColumnRef = ColumnRef(node: Position, source: SourceColumn)

  datatype AnalyzedQuery = AnalyzedQuery(query: Query, outputs: seq<OutputColumn>, references: seq<ColumnRef>)

  /** A column of one binding. */
  datatype Resolved = Resolved(binding: Binding, column: string)

  function SourceOf(r: Resolved): SourceColumn {
    SourceColumn(r.binding.table.schema, r.binding.table.name, r.column)
  }

  function KindOf(r: Resolved): Kind {
    Column(r.binding.name, r.column)
  }

  // ----- Bindings

  function TableRefs(q: Query): seq<TableRef> {
    (if q.from_.Some? then [q.from_.value] else [])
    + seq(|q.joins|, j requires 0 <= j < |q.joins| => q.joins[j].table)
  }

  function BindingName(node: TableRef, table: TableSchema): string {
    if node.alias != "" then node.alias else table.name
  }

  function CollectFrom(fold: Fold, nodes: seq<TableRef>, schemas: seq<TableSchema>,
                       seen: set<string>): Result<seq<Binding>>
    requires |nodes| == |schemas|
  {
    if nodes == [] then Ok([])
    else
      var name := BindingName(nodes[0], schemas[0]);
      if fold(name) in seen then Rejected(DuplicateBinding)
      else
        var rest :- CollectFrom(fold, nodes[1..], schemas[1..], seen + {fold(name)});
        Ok([Binding(name, schemas[0])] + rest)
  }

  function Collect(fold: Fold, q: Query, schemas: seq<TableSchema>): Result<seq<Binding>> {
    var nodes := TableRefs(q);
    if |nodes| != |schemas| then Rejected(TableResolutionMismatch)
    else CollectFrom(fold, nodes, schemas, {})
  }

  // ----- Resolving one column

  function ColumnNamed(fold: Fold, name: string): string -> bool {
    (column: string) => fold(column) == fold(name)
  }

  function BindingNamed(fold: Fold, table: string): Binding -> bool {
    (b: Binding) => fold(b.name) == fold(table)
  }

  function CanonicalColumn(fold: Fold, b: Binding, name: string): Option<string> {
    var matches := Filter(b.table.columns, ColumnNamed(fold, name));
    if |matches| == 1 then Some(matches[0]) else None
  }

  function Candidates(fold: Fold, bindings: seq<Binding>, name: string): seq<Resolved> {
    if bindings == [] then []
    else
      var canonical := CanonicalColumn(fold, bindings[0], name);
      (if canonical.Some? then [Resolved(bindings[0], canonical.value)] else [])
      + Candidates(fold, bindings[1..], name)
  }

  function Resolve(fold: Fold, bindings: seq<Binding>, table: string, name: string): Result<Resolved> {
    if table != "" then
      var matching := Filter(bindings, BindingNamed(fold, table));
      if |matching| != 1 then Rejected(QualifierUnknown)
      else
        var canonical := CanonicalColumn(fold, matching[0], name);
        if canonical.None? then Rejected(ColumnNotFound) else Ok(Resolved(matching[0], canonical.value))
    else
      var candidates := Candidates(fold, bindings, name);
      if |candidates| != 1 then Rejected(ColumnAmbiguous) else Ok(candidates[0])
  }

  // ----- Stars

  function ColumnItems(b: Binding): seq<Projection> {
    seq(|b.table.columns|, j requires 0 <= j < |b.table.columns| => Item(Leaf(Column(b.name, b.table.columns[j])), ""))
  }

  function AllColumnItems(bindings: seq<Binding>): seq<Projection> {
    if bindings == [] then [] else ColumnItems(bindings[0]) + AllColumnItems(bindings[1..])
  }

  function ExpandItem(fold: Fold, bindings: seq<Binding>, p: Projection): Result<seq<Projection>> {
    match p
    case AllColumns => Ok(AllColumnItems(bindings))
    case TableColumns(table) =>
      var chosen := Filter(bindings, BindingNamed(fold, table));
      if |chosen| != 1 then Rejected(QualifierUnknown) else Ok(ColumnItems(chosen[0]))
    case Item(_, _) => Ok([p])
  }

  function ExpandStars(fold: Fold, bindings: seq<Binding>, ps: seq<Projection>): Result<seq<Projection>> {
    if ps == [] then Ok([])
    else
      var first :- ExpandItem(fold, bindings, ps[0]);
      var rest :- ExpandStars(fold, bindings, ps[1..]);
      Ok(first + rest)
  }

  /** How a stage resolves the qualifier and name of a column reference. */
  type Resolver = (string, string) -> Result<Resolved>

  // ----- Projections

  datatype Projected = Projected(items: seq<Projection>, outputs: seq<OutputColumn>, refs: seq<ColumnRef>)

  /** One select-list item after analysis. */
  datatype ItemAnalysis = ItemAnalysis(item: Projection, output: OutputColumn, refs: seq<ColumnRef>)

  function Label(alias: string, fallback: string): string {
    if alias != "" then alias else fallback
  }

  /** The outcome for the select-list item at 0-based position `index`. */
  function AnalyzeItem(f: Resolver, p: Projection, index: nat): Result<ItemAnalysis> {
    var unnamed := "column_" + Numeral(index + 1);
    match p
    case Item(value, alias) =>
      if value.kind.Column? then
        var r :- f(value.kind.table, value.kind.name);
        Ok(ItemAnalysis(
             Item(Node(KindOf(r), value.kids), alias),
             OutputColumn(Label(alias, r.column), ColumnOutput, Some(SourceOf(r)), Some(r.binding.name)),
             [ColumnRef(Position(InProjection(index), []), SourceOf(r))]))
      else
        Ok(ItemAnalysis(p, OutputColumn(Label(alias, unnamed), if value.kind.CountStar? then CountOutput
                                        else LiteralOutput, None, None), []))
    case _ => Ok(ItemAnalysis(p, OutputColumn(unnamed, LiteralOutput, None, None), []))
  }

  /** The outcome for the items from position `from` on. */
  function AnalyzeProjections(f: Resolver, ps: seq<Projection>, from: nat): Result<Projected>
    requires from <= |ps|
    decreases |ps| - from
  {
    if from == |ps| then Ok(Projected([], [], []))
    else
      var first :- AnalyzeItem(f, ps[from], from);
      var rest :- AnalyzeProjections(f, ps, from + 1);
      Ok(Projected([first.item] + rest.items, [first.output] + rest.outputs, first.refs + rest.refs))
  }

  // ----- Expressions

  /** A rewritten part of the query with the references found in it. */
  datatype Edited<T> = Edited(item: T, refs: seq<ColumnRef>)

  function Qualified(f: Resolver, kind: Kind): Kind {
    if kind.Column? && f(kind.table, kind.name).Ok? then KindOf(f(kind.table, kind.name).value) else kind
  }

  /** References for the columns of `e` at `paths`, or the first rejection among them. */
  function TreeRefs(f: Resolver, part: Part, e: Expr, paths: seq<Path>): Result<seq<ColumnRef>>
    requires forall i :: 0 <= i < |paths| ==> ColumnAt(e, paths[i])
  {
    if paths == [] then Ok([])
    else
      assert ColumnAt(e, paths[0]);
      var kind := At(e, paths[0]).value.kind;
      var r :- f(kind.table, kind.name);
      var rest :- TreeRefs(f, part, e, paths[1..]);
      Ok([ColumnRef(Position(part, paths[0]), SourceOf(r))] + rest)
  }

  function AnalyzeTree(f: Resolver, part: Part, e: Expr): Result<Edited<Expr>> {
    ColumnPathsComplete(e);
    assert forall i :: 0 <= i < |ColumnPaths(e)| ==> ColumnPaths(e)[i] in ColumnPaths(e);
    var refs :- TreeRefs(f, part, e, ColumnPaths(e));
    Ok(Edited(MapKinds(e, (k: Kind) => Qualified(f, k)), refs))
  }

  function AnalyzeJoin(f: Resolver, join: Join, index: nat): Result<Edited<Join>> {
    if join.on.None? then Ok(Edited(join, []))
    else
      var tree :- AnalyzeTree(f, InOn(index), join.on.value);
      Ok(Edited(join.(on := Some(tree.item)), tree.refs))
  }

  function AnalyzeJoins(f: Resolver, joins: seq<Join>, from: nat): Result<Edited<seq<Join>>>
    requires from <= |joins|
    decreases |joins| - from
  {
    if from == |joins| then Ok(Edited([], []))
    else
      var first :- AnalyzeJoin(f, joins[from], from);
      var rest :- AnalyzeJoins(f, joins, from + 1);
      Ok(Edited([first.item] + rest.item, first.refs + rest.refs))
  }

  function AnalyzeWhere(f: Resolver, condition: Option<Expr>): Result<Edited<Option<Expr>>> {
    if condition.None? then Ok(Edited(None, []))
    else
      var tree :- AnalyzeTree(f, InWhere, condition.value);
      Ok(Edited(Some(tree.item), tree.refs))
  }

  function AnalyzeKey(f: Resolver, key: OrderKey, index: nat): Result<Edited<OrderKey>> {
    var tree :- AnalyzeTree(f, InOrder(index), key.target);
    Ok(Edited(key.(target := tree.item), tree.refs))
  }

  function AnalyzeOrder(f: Resolver, keys: seq<OrderKey>, from: nat): Result<Edited<seq<OrderKey>>>
    requires from <= |keys|
    decreases |keys| - from
  {
    if from == |keys| then Ok(Edited([], []))
    else
      var first :- AnalyzeKey(f, keys[from], from);
      var rest :- AnalyzeOrder(f, keys, from + 1);
      Ok(Edited([first.item] + rest.item, first.refs + rest.refs))
  }

  function ColumnResolver(fold: Fold, bindings: seq<Binding>): Resolver {
    (table: string, name: string) => Resolve(fold, bindings, table, name)
  }

  function OutputNamed(fold: Fold, name: string): OutputColumn -> bool {
    (o: OutputColumn) => fold(o.title) == fold(name)
  }

  function OwnerOf(o: OutputColumn): Binding -> bool {
    (b: Binding) => Some(b.name) == o.binding
  }

  /** An unqualified ORDER BY name means an output label before it means a column. */
  function ResolveOrder(fold: Fold, bindings: seq<Binding>, outputs: seq<OutputColumn>, table: string,
                        name: string): Result<Resolved> {
    var matches := if table != "" then [] else Filter(outputs, OutputNamed(fold, name));
    if matches == [] then Resolve(fold, bindings, table, name)
    else if |matches| != 1 || matches[0].source.None? then Rejected(OrderOutputAmbiguous)
    else
      var owners := Filter(bindings, OwnerOf(matches[0]));
      if owners == [] then Rejected(OrderOutputAmbiguous)
      else Ok(Resolved(owners[0], matches[0].source.value.column))
  }

  function OrderResolver(fold: Fold, bindings: seq<Binding>, outputs: seq<OutputColumn>): Resolver {
    (table: string, name: string) => ResolveOrder(fold, bindings, outputs, table, name)
  }

  // ----- The whole query

  /** A second opinion on the rewritten query that can only reject it. */
  type CrossCheck = (Query, seq<TableSchema>) -> bool

  /** Analyses the clauses in turn; ORDER BY is resolved by `g` once the outputs are known. */
  function AnalyzeClauses(f: Resolver, g: seq<OutputColumn> -> Resolver, q: Query): Result<AnalyzedQuery> {
    var ps :- AnalyzeProjections(f, q.expressions, 0);
    var js :- AnalyzeJoins(f, q.joins, 0);
    var ws :- AnalyzeWhere(f, q.where_);
    var os :- AnalyzeOrder(g(ps.outputs), q.order, 0);
    Ok(AnalyzedQuery(
         q.(expressions := ps.items, joins := js.item, where_ := ws.item, order := os.item),
         ps.outputs,
         ps.refs + js.refs + ws.refs + os.refs))
  }

  function OrderResolvers(fold: Fold, bindings: seq<Binding>): seq<OutputColumn> -> Resolver {
    (outputs: seq<OutputColumn>) => OrderResolver(fold, bindings, outputs)
  }

  function Analyze(fold: Fold, cross: CrossCheck, limits: Limits, q: Query,
                   schemas: seq<TableSchema>): Result<AnalyzedQuery> {
    var bindings :- Collect(fold, q, schemas);
    var expanded :- ExpandStars(fold, bindings, q.expressions);
    var working := q.(expressions := expanded);
    var _ :- CheckLimits(working, limits);
    var analyzed :- AnalyzeClauses(ColumnResolver(fold, bindings), OrderResolvers(fold, bindings), working);
    var _ :- ValidateAllowlist(analyzed.query, false);
    if !cross(analyzed.query, schemas) then Rejected(QualifyFailed) else Ok(analyzed)
  }
}
