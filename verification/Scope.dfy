/** Reflected tables, the names under which a query reads them, and how a name in the query finds
    a column. Names are compared after folding; `fold` stands for `str.casefold`, and no property
    of it is assumed unless a lemma asks for it. */
module Scope {

  type Fold = string -> string

  datatype TableSchema = TableSchema(schema: string, name: string, columns: seq<string>)

  /** A table of the query together with the name it is read through. */
  datatype Binding = Binding(name: string, table: TableSchema)

  function Exact(): Fold {
    (s: string) => s
  }

  /** The reference `table.name` can mean column `j` of binding `i`; an empty `table` means any. */
  ghost predicate Names(fold: Fold, scope: seq<Binding>, table: string, name: string, i: nat, j: nat) {
    && i < |scope|
    && j < |scope[i].table.columns|
    && (table == "" || fold(scope[i].name) == fold(table))
    && fold(scope[i].table.columns[j]) == fold(name)
  }

  /** The reference means column `j` of binding `i` and nothing else. */
  ghost predicate NamesOnly(fold: Fold, scope: seq<Binding>, table: string, name: string, i: nat, j: nat) {
    && Names(fold, scope, table, name, i, j)
    && forall i': nat, j': nat :: Names(fold, scope, table, name, i', j') ==> i' == i && j' == j
  }

  /** The qualifier of `table.*` picks binding `i` and no other. */
  ghost predicate QualifiesOnly(fold: Fold, scope: seq<Binding>, table: string, i: nat) {
    && i < |scope|
    && fold(scope[i].name) == fold(table)
    && forall k :: 0 <= k < |scope| && fold(scope[k].name) == fold(table) ==> k == i
  }

  ghost predicate DistinctBindings(fold: Fold, scope: seq<Binding>) {
    forall i, j :: 0 <= i < j < |scope| ==> fold(scope[i].name) != fold(scope[j].name)
  }
}
