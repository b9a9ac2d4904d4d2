/** `security/schema.py`, `resolve_tables`: every table of the query is matched with one reflected
    table and rewritten to its reflected name. */
module Schema {
  import opened Outcomes
  import opened Ast
  import opened Scope
  import opened Sequences
  import opened Allowlist
  import opened Lineage
  import opened Accumulation

  /** A reflected table: its schema and its name. */
  type TableName = (string, string)

  /** Reflected columns of a table, or the reason for which there are none. */
  type ColumnSource = (string, string) -> Result<seq<string>>

  function TableNamed(fold: Fold, schema: string, name: string): TableName -> bool {
    (t: TableName) => fold(t.1) == fold(name) && (schema == "" || fold(t.0) == fold(schema))
  }

  function Match(fold: Fold, available: seq<TableName>, schema: string, name: string): Result<TableName> {
    var matches := Filter(available, TableNamed(fold, schema, name));
    if |matches| != 1 then Rejected(TableNotFound) else Ok(matches[0])
  }

  datatype ResolvedTable = ResolvedTable(schema: TableSchema, node: TableRef)

  function ResolveTable(fold: Fold, hasSchema: bool, available: seq<TableName>, columns: ColumnSource,
                        t: TableRef): Result<ResolvedTable> {
    if t.catalog != "" || !t.plain then Rejected(TableScope)
    else if !hasSchema && t.db != "" then Rejected(TableScope)
    else
      var found :- Match(fold, available, t.db, t.name);
      var names :- columns(found.0, found.1);
      Ok(ResolvedTable(TableSchema(found.0, found.1, names),
                       t.(name := found.1, db := if hasSchema then found.0 else t.db)))
  }

  type TableResolver = TableRef -> Result<ResolvedTable>

  function ResolverFor(fold: Fold, hasSchema: bool, available: seq<TableName>, columns: ColumnSource): TableResolver {
    (t: TableRef) => ResolveTable(fold, hasSchema, available, columns, t)
  }

  function ResolveEach(f: TableResolver, ts: seq<TableRef>): Result<seq<ResolvedTable>> {
    if ts == [] then Ok([])
    else
      var first :- f(ts[0]);
      var rest :- ResolveEach(f, ts[1..]);
      Ok([first] + rest)
  }

  /** Puts the tables back where `TableRefs` found them. */
  function WithTables(q: Query, ts: seq<TableRef>): Query
    requires |ts| == |TableRefs(q)|
  {
    var n := if q.from_.Some? then 1 else 0;
    q.(from_ := if q.from_.Some? then Some(ts[0]) else None,
       joins := seq(|q.joins|, j requires 0 <= j < |q.joins| => q.joins[j].(table := ts[n + j])))
  }

  datatype ResolvedQuery = ResolvedQuery(query: Query, schemas: seq<TableSchema>)

  function NodesOf(rs: seq<ResolvedTable>): seq<TableRef> {
    seq(|rs|, i requires 0 <= i < |rs| => rs[i].node)
  }

  function SchemasOf(rs: seq<ResolvedTable>): seq<TableSchema> {
    seq(|rs|, i requires 0 <= i < |rs| => rs[i].schema)
  }

  function ResolveAll(f: TableResolver, q: Query): Result<ResolvedQuery> {
    ResolveEachPointwise(f, TableRefs(q));
    var rs :- ResolveEach(f, TableRefs(q));
    Ok(ResolvedQuery(WithTables(q, NodesOf(rs)), SchemasOf(rs)))
  }

  function ResolveTables(fold: Fold, hasSchema: bool, available: seq<TableName>, columns: ColumnSource,
                         q: Query): Result<ResolvedQuery> {
    ResolveAll(ResolverFor(fold, hasSchema, available, columns), q)
  }

  // ----- Facts

  lemma {:induction false} ResolveEachPointwise(f: TableResolver, ts: seq<TableRef>)
    ensures ResolveEach(f, ts).Ok? ==>
      var rs := ResolveEach(f, ts).value;
      |rs| == |ts| && forall i :: 0 <= i < |ts| ==> f(ts[i]) == Ok(rs[i])
  {
    if ts != [] {
      ResolveEachPointwise(f, ts[1..]);
    }
  }

  /** The table reference names reflected table `k` and no other. */
  ghost predicate NamesTable(fold: Fold, available: seq<TableName>, t: TableRef, k: nat) {
    OnlyAt(available, TableNamed(fold, t.db, t.name), k)
  }

  /** A resolved table is the only reflected table that the reference can mean. */
  lemma ResolvedTableIsNamed(fold: Fold, hasSchema: bool, available: seq<TableName>, columns: ColumnSource,
                             t: TableRef) returns (k: nat)
    requires ResolveTable(fold, hasSchema, available, columns, t).Ok?
    ensures NamesTable(fold, available, t, k)
    ensures var r := ResolveTable(fold, hasSchema, available, columns, t).value;
      && available[k] == (r.schema.schema, r.schema.name)
      && columns(r.schema.schema, r.schema.name) == Ok(r.schema.columns)
      && r.node.name == r.schema.name && r.node.alias == t.alias && (hasSchema ==> r.node.db == r.schema.schema)
  {
    FilterOne(available, TableNamed(fold, t.db, t.name));
    k :| OnlyAt(available, TableNamed(fold, t.db, t.name), k);
  }

  /** The reference can mean reflected table `k`, under case folding. */
  ghost predicate CanMean(fold: Fold, available: seq<TableName>, t: TableRef, k: nat) {
    k < |available| && fold(available[k].1) == fold(t.name) && (t.db == "" || fold(available[k].0) == fold(t.db))
  }

  /** The reference means reflected table `k`: no other entry of the catalog fits. */
  ghost predicate MeansOnly(fold: Fold, available: seq<TableName>, t: TableRef, k: nat) {
    CanMean(fold, available, t, k) && forall i: nat :: CanMean(fold, available, t, i) ==> i == k
  }

  ghost predicate TableAccepted(fold: Fold, hasSchema: bool, available: seq<TableName>, columns: ColumnSource,
                                t: TableRef) {
    && t.catalog == "" && t.plain && (hasSchema || t.db == "")
    && exists k: nat :: MeansOnly(fold, available, t, k) && columns(available[k].0, available[k].1).Ok?
  }

  /** MAIN RESULT. A table is accepted exactly when it is named by an identifier without a catalog, with a
      schema only where the dialect has schemas, means exactly one reflected table, and that table has
      reflected columns; then it becomes that table under its reflected name. */
  lemma TableExactly(fold: Fold, hasSchema: bool, available: seq<TableName>, columns: ColumnSource, t: TableRef)
    ensures ResolveTable(fold, hasSchema, available, columns, t).Ok? <==>
      TableAccepted(fold, hasSchema, available, columns, t)
    ensures var r := ResolveTable(fold, hasSchema, available, columns, t);
      forall k: nat :: r.Ok? && MeansOnly(fold, available, t, k) ==>
        var (schema, name) := available[k];
        r.value.schema == TableSchema(schema, name, columns(schema, name).value)
        && r.value.node == TableRef(true, "", if hasSchema then schema else "", name, t.alias)
  {
    FilterOne(available, TableNamed(fold, t.db, t.name));
    forall k: nat
      ensures MeansOnly(fold, available, t, k) <==> OnlyAt(available, TableNamed(fold, t.db, t.name), k)
    {
      MeansIsOnly(fold, available, t, k);
    }
  }

  lemma MeansIsOnly(fold: Fold, available: seq<TableName>, t: TableRef, k: nat)
    ensures MeansOnly(fold, available, t, k) <==> OnlyAt(available, TableNamed(fold, t.db, t.name), k)
  {
    assert forall i: nat :: i < |available| ==>
      (CanMean(fold, available, t, i) <==> TableNamed(fold, t.db, t.name)(available[i]));
    if OnlyAt(available, TableNamed(fold, t.db, t.name), k) {
      assert CanMean(fold, available, t, k);
    }
  }

  /** References whose names fold alike are resolved alike. */
  lemma TableIgnoresSpelling(fold: Fold, hasSchema: bool, available: seq<TableName>, columns: ColumnSource, t: TableRef,
                             t': TableRef)
    requires t' == t.(db := t'.db, name := t'.name) && (t.db == "" <==> t'.db == "")
    requires fold(t.db) == fold(t'.db) && fold(t.name) == fold(t'.name)
    ensures ResolveTable(fold, hasSchema, available, columns, t)
      == ResolveTable(fold, hasSchema, available, columns, t')
  {
    FilterSame(available, TableNamed(fold, t.db, t.name), TableNamed(fold, t'.db, t'.name));
  }

  lemma {:induction false} EachExactly(f: TableResolver, ts: seq<TableRef>)
    ensures ResolveEach(f, ts).Ok? <==> forall i :: 0 <= i < |ts| ==> f(ts[i]).Ok?
  {
    if ts != [] {
      EachExactly(f, ts[1..]);
      assert forall i :: 1 <= i < |ts| ==> ts[i] == ts[1..][i - 1];
    }
  }

  /** A statement is resolved exactly when each of its tables is. */
  lemma TablesExactly(fold: Fold, hasSchema: bool, available: seq<TableName>, columns: ColumnSource, q: Query)
    ensures ResolveTables(fold, hasSchema, available, columns, q).Ok? <==>
      forall i :: 0 <= i < |TableRefs(q)| ==> TableAccepted(fold, hasSchema, available, columns, TableRefs(q)[i])
  {
    forall i | 0 <= i < |TableRefs(q)| {
      TableExactly(fold, hasSchema, available, columns, TableRefs(q)[i]);
    }
    EachExactly(ResolverFor(fold, hasSchema, available, columns), TableRefs(q));
  }

  /** The rewritten reference resolves to the same table again, if a table that was named with a
      schema has one. */
  lemma ResolveTableAgain(fold: Fold, hasSchema: bool, available: seq<TableName>, columns: ColumnSource, t: TableRef)
    requires ResolveTable(fold, hasSchema, available, columns, t).Ok?
    requires t.db != "" ==> ResolveTable(fold, hasSchema, available, columns, t).value.schema.schema != ""
    ensures var r := ResolveTable(fold, hasSchema, available, columns, t).value;
      ResolveTable(fold, hasSchema, available, columns, r.node) == Ok(r)
  {
    var r := ResolveTable(fold, hasSchema, available, columns, t).value;
    var k := ResolvedTableIsNamed(fold, hasSchema, available, columns, t);
    assert NamesTable(fold, available, r.node, k) by {
      forall i | 0 <= i < |available| && TableNamed(fold, r.node.db, r.node.name)(available[i])
        ensures i == k
      {
        assert TableNamed(fold, t.db, t.name)(available[i]);
      }
    }
    FilterOne(available, TableNamed(fold, r.node.db, r.node.name));
  }

  /** Folding keeps whether a name is reserved for temporary tables. */
  ghost predicate KeepsReserved(fold: Fold) {
    forall s, t :: fold(s) == fold(t) ==> Reserved(s) == Reserved(t)
  }

  /** `q'` differs from `q` in the names of its tables. */
  ghost predicate SameButTables(q: Query, q': Query) {
    && (q'.from_.Some? <==> q.from_.Some?) && |q'.joins| == |q.joins|
    && q' == q.(from_ := q'.from_, joins := q'.joins)
    && forall j :: 0 <= j < |q.joins| ==> q'.joins[j] == q.joins[j].(table := q'.joins[j].table)
  }

  /** The table of the schema is one that `t` can mean, and it is the only one. */
  ghost predicate TableMeant(fold: Fold, available: seq<TableName>, t: TableRef, schema: TableSchema) {
    exists k: nat :: NamesTable(fold, available, t, k) && available[k] == (schema.schema, schema.name)
  }

  /** The tables of `q` are paired with the schemas of `r`, under the aliases of `q`. */
  ghost predicate TablesPaired(fold: Fold, available: seq<TableName>, q: Query, r: ResolvedQuery) {
    && |TableRefs(r.query)| == |r.schemas| == |TableRefs(q)|
    && forall i :: 0 <= i < |r.schemas| ==>
      TableRefs(r.query)[i].alias == TableRefs(q)[i].alias && TableMeant(fold, available, TableRefs(q)[i], r.schemas[i])
  }

  /** MAIN RESULT. Table resolution pairs each table with the one reflected table it names, leaves
      everything but table names alone, and stays inside the allowlist. */
  lemma TablesResolved(fold: Fold, hasSchema: bool, available: seq<TableName>, columns: ColumnSource, q: Query)
    requires ResolveTables(fold, hasSchema, available, columns, q).Ok?
    ensures var r := ResolveTables(fold, hasSchema, available, columns, q).value;
      && TablesPaired(fold, available, q, r) && SameButTables(q, r.query)
      && (KeepsReserved(fold) && Allowed(q, false) ==> Allowed(r.query, false))
  {
    var ts := TableRefs(q);
    var f := ResolverFor(fold, hasSchema, available, columns);
    ResolveEachPointwise(f, ts);
    var rs := ResolveEach(f, ts).value;
    forall i | 0 <= i < |ts|
      ensures TableSettled(fold, available, ts[i], rs[i])
    {
      OneTableSettled(fold, hasSchema, available, columns, ts[i], rs[i]);
    }
    SettledTables(fold, available, q, rs);
  }

  lemma OneTableSettled(fold: Fold, hasSchema: bool, available: seq<TableName>, columns: ColumnSource, t: TableRef,
                        r: ResolvedTable)
    requires ResolveTable(fold, hasSchema, available, columns, t) == Ok(r)
    ensures TableSettled(fold, available, t, r)
  {
    var k := ResolvedTableIsNamed(fold, hasSchema, available, columns, t);
  }

  /** `r` is the one reflected table that `t` can mean, under the alias of `t`. */
  ghost predicate TableSettled(fold: Fold, available: seq<TableName>, t: TableRef, r: ResolvedTable) {
    && r.node.alias == t.alias && TableMeant(fold, available, t, r.schema)
    && (KeepsReserved(fold) && AllowedTable(t) ==> AllowedTable(r.node))
  }

  lemma SettledTables(fold: Fold, available: seq<TableName>, q: Query, rs: seq<ResolvedTable>)
    requires |rs| == |TableRefs(q)| && forall i :: 0 <= i < |rs| ==>
      TableSettled(fold, available, TableRefs(q)[i], rs[i])
    ensures var r := ResolvedQuery(WithTables(q, NodesOf(rs)), SchemasOf(rs));
      && TablesPaired(fold, available, q, r) && SameButTables(q, r.query)
      && (KeepsReserved(fold) && Allowed(q, false) ==> Allowed(r.query, false))
  {
    TableRefsOf(q, NodesOf(rs));
    forall i | 0 <= i < |rs|
      ensures NodesOf(rs)[i].alias == TableRefs(q)[i].alias
          && TableMeant(fold, available, TableRefs(q)[i], SchemasOf(rs)[i])
    {
      assert TableSettled(fold, available, TableRefs(q)[i], rs[i]);
    }
    if KeepsReserved(fold) && Allowed(q, false) {
      TablesAllowed(q, NodesOf(rs));
    }
  }

  lemma TableRefsOf(q: Query, ts: seq<TableRef>)
    requires |ts| == |TableRefs(q)|
    ensures TableRefs(WithTables(q, ts)) == ts
  {
  }

  lemma TablesAllowed(q: Query, ts: seq<TableRef>)
    requires |ts| == |TableRefs(q)| && Allowed(q, false)
    requires forall i :: 0 <= i < |ts| && AllowedTable(TableRefs(q)[i]) ==> AllowedTable(ts[i])
    ensures Allowed(WithTables(q, ts), false)
  {
    var n := if q.from_.Some? then 1 else 0;
    assert q.from_.Some? ==> TableRefs(q)[0] == q.from_.value;
    var q' := WithTables(q, ts);
    forall j | 0 <= j < |q.joins|
      ensures AllowedJoin(q'.joins[j])
    {
      assert q'.joins[j] == q.joins[j].(table := ts[n + j]);
      assert TableRefs(q)[n + j] == q.joins[j].table;
      assert AllowedJoin(q.joins[j]);
    }
  }

  /** The loop as it is written: each table node is rewritten in place as it is resolved. */
  method ResolveTablesInPlace(fold: Fold, hasSchema: bool, available: seq<TableName>, columns: ColumnSource,
                              q: Select) returns (r: Result<seq<TableSchema>>)
    modifies q
    ensures ResolveTables(fold, hasSchema, available, columns, old(q.Contents())) ==
            if r.Rejected? then Rejected(r.reason) else Ok(ResolvedQuery(q.Contents(), r.value))
  {
    r := ResolveEachInPlace(ResolverFor(fold, hasSchema, available, columns), q);
  }

  method ResolveEachInPlace(f: TableResolver, q: Select) returns (r: Result<seq<TableSchema>>)
    modifies q
    ensures ResolveAll(f, old(q.Contents())) == if r.Rejected? then Rejected(r.reason)
      else Ok(ResolvedQuery(q.Contents(), r.value))
  {
    ghost var was := q.Contents();
    var nodes := TableRefs(q.Contents());
    ghost var all := ResolveEach(f, nodes);
    var resolved: seq<ResolvedTable> := [];
    var i := 0;
    ResolvingStarts(f, was, nodes);
    while i < |nodes|
      invariant 0 <= i <= |nodes| && |resolved| == i
      invariant q.Contents() == WithTables(was, NodesOf(resolved) + nodes[i..])
      invariant all == After(resolved, ResolveEach(f, nodes[i..]))
    {
      var one := f(nodes[i]);
      ResolvingGoesOn(f, nodes, i, resolved);
      if one.Rejected? {
        return Rejected(one.reason);
      }
      TableSet(was, resolved, one.value, nodes, i);
      SetTable(q, i, one.value.node);
      resolved := resolved + [one.value];
      i := i + 1;
    }
    assert nodes[i..] == [];
    assert NodesOf(resolved) + [] == NodesOf(resolved) && resolved + [] == resolved;
    r := Ok(SchemasOf(resolved));
  }

  lemma ResolvingStarts(f: TableResolver, q: Query, nodes: seq<TableRef>)
    requires nodes == TableRefs(q)
    ensures q == WithTables(q, NodesOf([]) + nodes[0..])
    ensures ResolveEach(f, nodes) == After([], ResolveEach(f, nodes[0..]))
  {
    assert nodes[0..] == nodes && NodesOf([]) + nodes == nodes;
    assert WithTables(q, nodes).joins == q.joins;
    AfterNone(ResolveEach(f, nodes));
  }

  lemma ResolvingGoesOn(f: TableResolver, nodes: seq<TableRef>, i: nat, resolved: seq<ResolvedTable>)
    requires i < |nodes|
    ensures After(resolved, ResolveEach(f, nodes[i..])) ==
            if f(nodes[i]).Rejected? then Rejected(f(nodes[i]).reason)
            else After(resolved + [f(nodes[i]).value], ResolveEach(f, nodes[i + 1..]))
  {
    assert nodes[i..][1..] == nodes[i + 1..];
    if f(nodes[i]).Ok? {
      AfterNext(resolved, [f(nodes[i]).value], ResolveEach(f, nodes[i + 1..]));
    }
  }

  /** Setting the next table in the statement resolved so far. */
  lemma TableSet(q: Query, done: seq<ResolvedTable>, next: ResolvedTable, nodes: seq<TableRef>, i: nat)
    requires |done| == i < |nodes| == |TableRefs(q)|
    ensures var before := WithTables(q, NodesOf(done) + nodes[i..]);
      && i < |TableRefs(before)| == |nodes|
      && WithTables(before, TableRefs(before)[i := next.node]) == WithTables(q, NodesOf(done + [next]) + nodes[i + 1..])
  {
    var ts := NodesOf(done) + nodes[i..];
    TableRefsOf(q, ts);
    WithTablesTwice(q, ts, ts[i := next.node]);
    NextNode(done, next, nodes, i);
  }

  lemma WithTablesTwice(q: Query, ts: seq<TableRef>, us: seq<TableRef>)
    requires |ts| == |us| == |TableRefs(q)|
    ensures |TableRefs(WithTables(q, ts))| == |us| && WithTables(WithTables(q, ts), us) == WithTables(q, us)
  {
  }

  lemma NextNode(done: seq<ResolvedTable>, next: ResolvedTable, nodes: seq<TableRef>, i: nat)
    requires |done| == i < |nodes|
    ensures (NodesOf(done) + nodes[i..])[i := next.node] == NodesOf(done + [next]) + nodes[i + 1..]
  {
  }

  /** `table.set(...)` on table `i` in FROM and JOIN order. */
  method SetTable(q: Select, i: nat, t: TableRef)
    requires i < |TableRefs(q.Contents())|
    modifies q
    ensures q.Contents() == WithTables(old(q.Contents()), TableRefs(old(q.Contents()))[i := t])
  {
    ghost var was := q.Contents();
    var n := if q.from_.Some? then 1 else 0;
    if i < n {
      q.from_ := Some(t);
    } else {
      q.joins := q.joins[i - n := q.joins[i - n].(table := t)];
    }
    assert q.joins == WithTables(was, TableRefs(was)[i := t]).joins;
  }
}
