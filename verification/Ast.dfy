/** The syntax tree of the restricted SELECT, as the parser hands it to the security stages.

    An expression is a node with a kind and an ordered list of children. A node is identified by its
    position: the clause it is in and the child indices that lead to it from the root of the clause.
    Editing a node in place (`column.set(...)`, `literal.replace(...)`) changes the kind found at
    one position and nothing else. */
module Ast {
  import opened Outcomes

  type Path = seq<nat>

  datatype CompareOp = EQ | NEQ | GT | GTE | LT | LTE

  /** `Column.table` is "" when the reference is unqualified. `Other` is any node whose type or
      options are outside the supported subset. */
  datatype Kind =
    | Column(table: string, name: string)
    | Text(text: string)
    | Number(digits: string)
    | NullLiteral
    | CountStar
    | Neg
    | Compare(op: CompareOp)
    | And
    | Or
    | Paren
    | Is
    | In
    | Placeholder(name: string)
    | Other(name: string)

  datatype Expr = Node(kind: Kind, kids: seq<Expr>)

  function Leaf(kind: Kind): Expr {
    Node(kind, [])
  }

  /** One item of the select list. `alias` is "" when there is none. */
  datatype Projection =
    | AllColumns
    | TableColumns(table: string)
    | Item(value: Expr, alias: string)

  /** `plain` says that the table is named by an identifier; `alias` is "" when there is none. */
  datatype TableRef = TableRef(plain: bool, catalog: string, db: string, name: string, alias: string)

  datatype Join = Join(table: TableRef, on: Option<Expr>, side: string, joinKind: string)

  datatype OrderKey = OrderKey(target: Expr, descending: bool, nullsFirst: bool)

  datatype Limit = Rows(count: nat) | OtherLimit

  /** `extras` names the clauses present that are outside the supported subset. */
  datatype Query = Query(
    expressions: seq<Projection>,
    from_: Option<TableRef>,
    joins: seq<Join>,
    where_: Option<Expr>,
    order: seq<OrderKey>,
    limit: Option<Limit>,
    extras: seq<string>)

  /** The clause a node belongs to. */
  datatype Part = InProjection(item: nat) | InOn(join: nat) | InWhere | InOrder(key: nat)

  datatype Position = Position(part: Part, path: Path)

  /** The mutable statement that the stages edit in place. */
  class Select {
    var expressions: seq<Projection>
    var from_: Option<TableRef>
    var joins: seq<Join>
    var where_: Option<Expr>
    var order: seq<OrderKey>
    var limit: Option<Limit>
    var extras: seq<string>

    function Contents(): Query
      reads this
    {
      Query(expressions, from_, joins, where_, order, limit, extras)
    }

    constructor (q: Query)
      ensures Contents() == q
    {
      expressions, from_, joins := q.expressions, q.from_, q.joins;
      where_, order, limit, extras := q.where_, q.order, q.limit, q.extras;
    }
  }

  // ----- Nodes by position

  function At(e: Expr, path: Path): Option<Expr>
    decreases |path|
  {
    if path == [] then Some(e)
    else if path[0] < |e.kids| then At(e.kids[path[0]], path[1..])
    else None
  }

  /** Replaces the kinds at the given positions; `here` is the position of `e` itself. */
  function Patch(e: Expr, here: Path, edits: map<Path, Kind>): Expr {
    Node(if here in edits then edits[here] else e.kind,
         seq(|e.kids|, i requires 0 <= i < |e.kids| => Patch(e.kids[i], here + [i], edits)))
  }

  /** Applies `f` to the kind of every node. */
  function MapKinds(e: Expr, f: Kind -> Kind): Expr {
    Node(f(e.kind), seq(|e.kids|, i requires 0 <= i < |e.kids| => MapKinds(e.kids[i], f)))
  }

  /** `p` holds of the kind of every node. */
  ghost predicate Everywhere(e: Expr, p: Kind -> bool) {
    p(e.kind) && forall i :: 0 <= i < |e.kids| ==> Everywhere(e.kids[i], p)
  }

  lemma {:induction false} EverywhereAt(e: Expr, p: Kind -> bool, path: Path)
    requires Everywhere(e, p) && At(e, path).Some?
    ensures p(At(e, path).value.kind)
    decreases |path|
  {
    if path != [] {
      EverywhereAt(e.kids[path[0]], p, path[1..]);
    }
  }

  lemma {:induction false} AtEverywhere(e: Expr, p: Kind -> bool)
    requires forall path :: At(e, path).Some? ==> p(At(e, path).value.kind)
    ensures Everywhere(e, p)
  {
    assert At(e, []) == Some(e);
    forall i | 0 <= i < |e.kids|
      ensures Everywhere(e.kids[i], p)
    {
      forall path | At(e.kids[i], path).Some?
        ensures p(At(e.kids[i], path).value.kind)
      {
        assert At(e, [i] + path) == At(e.kids[i], path);
      }
      AtEverywhere(e.kids[i], p);
    }
  }

  /** A node together with its position. */
  type Placed = (Path, Expr)

  function Size(e: Expr): nat
    decreases e, 0
  {
    1 + SizeOfAll(e.kids)
  }

  function SizeOfAll(es: seq<Expr>): nat
    decreases es, 1
  {
    if es == [] then 0 else Size(es[0]) + SizeOfAll(es[1..])
  }

  function QueueSize(queue: seq<Placed>): nat {
    if queue == [] then 0 else Size(queue[0].1) + QueueSize(queue[1..])
  }

  function PlacedKids(node: Placed): seq<Placed> {
    seq(|node.1.kids|, i requires 0 <= i < |node.1.kids| => (node.0 + [i], node.1.kids[i]))
  }

  lemma {:induction false} QueueSizeAppend(a: seq<Placed>, b: seq<Placed>)
    ensures QueueSize(a + b) == QueueSize(a) + QueueSize(b)
  {
    if a == [] {
      assert a + b == b;
    } else {
      assert (a + b)[1..] == a[1..] + b;
      QueueSizeAppend(a[1..], b);
    }
  }

  lemma {:induction false} QueueSizeKids(path: Path, kids: seq<Expr>, queue: seq<Placed>)
    requires |queue| == |kids| && forall i :: 0 <= i < |kids| ==> queue[i].1 == kids[i]
    ensures QueueSize(queue) == SizeOfAll(kids)
  {
    if kids != [] {
      QueueSizeKids(path, kids[1..], queue[1..]);
    }
  }

  /** Breadth-first order, as `walk` and `find_all` visit nodes. */
  function Walk(queue: seq<Placed>): seq<Placed>
    decreases QueueSize(queue)
  {
    if queue == [] then []
    else
      QueueSizeKids(queue[0].0, queue[0].1.kids, PlacedKids(queue[0]));
      QueueSizeAppend(queue[1..], PlacedKids(queue[0]));
      [queue[0]] + Walk(queue[1..] + PlacedKids(queue[0]))
  }

  /** Every node of a clause with its position. */
  function Nodes(e: Expr): seq<Placed> {
    Walk([([], e)])
  }

  function SelectPaths(nodes: seq<Placed>, p: Kind -> bool): seq<Path> {
    if nodes == [] then []
    else (if p(nodes[0].1.kind) then [nodes[0].0] else []) + SelectPaths(nodes[1..], p)
  }

  /** The positions of the column references below `e`, in the order of `find_all`. */
  function ColumnPaths(e: Expr): seq<Path> {
    SelectPaths(Nodes(e), (k: Kind) => k.Column?)
  }

  // ----- The walk meets every node exactly once

  ghost predicate Under(node: Placed, x: Placed) {
    node.0 <= x.0 && At(node.1, x.0[|node.0|..]) == Some(x.1)
  }

  ghost predicate Antichain(queue: seq<Placed>) {
    forall i, j :: 0 <= i < |queue| && 0 <= j < |queue| && i != j ==> !(queue[i].0 <= queue[j].0)
  }

  lemma {:induction false} UnderKids(node: Placed, x: Placed)
    ensures Under(node, x) <==> x == node || exists i :: 0 <= i < |node.1.kids| && Under(PlacedKids(node)[i], x)
  {
    var kids := PlacedKids(node);
    if Under(node, x) && x.0 != node.0 {
      var rest := x.0[|node.0|..];
      var i := rest[0];
      assert x.0 == node.0 + [i] + rest[1..];
      assert x.0[|node.0| + 1..] == rest[1..];
      assert Under(kids[i], x);
    }
    if Under(node, x) && x.0 == node.0 {
      assert x.0[|node.0|..] == [];
    }
    forall i | 0 <= i < |kids| && Under(kids[i], x)
      ensures Under(node, x)
    {
      var rest := x.0[|node.0|..];
      assert kids[i].0 == node.0 + [i] <= x.0;
      assert rest[0] == i && rest[1..] == x.0[|node.0| + 1..];
    }
    if x == node {
      assert x.0[|node.0|..] == [];
    }
  }

  lemma {:induction false} WalkMeets(queue: seq<Placed>, x: Placed)
    ensures x in Walk(queue) <==> exists i :: 0 <= i < |queue| && Under(queue[i], x)
    decreases QueueSize(queue)
  {
    if queue != [] {
      var kids := PlacedKids(queue[0]);
      QueueSizeKids(queue[0].0, queue[0].1.kids, kids);
      QueueSizeAppend(queue[1..], kids);
      var next := queue[1..] + kids;
      WalkMeets(next, x);
      UnderKids(queue[0], x);
      assert forall i :: 1 <= i < |queue| ==> next[i - 1] == queue[i];
      assert forall i :: 0 <= i < |kids| ==> next[|queue| - 1 + i] == kids[i];
    }
  }

  lemma PrefixOfExtension(r: Path, p: Path, i: nat)
    ensures r <= p + [i] <==> r <= p || r == p + [i]
    ensures p + [i] <= r ==> p <= r
  {
    if r <= p + [i] && |r| <= |p| {
      assert r == (p + [i])[..|r|] == p[..|r|];
    }
  }

  lemma AntichainStep(queue: seq<Placed>)
    requires queue != [] && Antichain(queue)
    ensures Antichain(queue[1..] + PlacedKids(queue[0]))
  {
    var next := queue[1..] + PlacedKids(queue[0]);
    var p, n := queue[0].0, |queue| - 1;
    forall i, j | 0 <= i < |next| && 0 <= j < |next| && i != j
      ensures !(next[i].0 <= next[j].0)
    {
      if j >= n {
        PrefixOfExtension(next[i].0, p, j - n);
      }
      if i >= n {
        PrefixOfExtension(next[j].0, p, i - n);
        assert (p + [i - n])[|p|] == i - n;
      }
    }
  }

  ghost predicate Distinct<T(!new)>(s: seq<T>) {
    forall i, j :: 0 <= i < j < |s| ==> s[i] != s[j]
  }

  ghost predicate DistinctPositions(s: seq<Placed>) {
    forall i, j :: 0 <= i < j < |s| ==> s[i].0 != s[j].0
  }

  lemma {:induction false} WalkDistinct(queue: seq<Placed>)
    requires Antichain(queue)
    ensures DistinctPositions(Walk(queue))
    decreases QueueSize(queue)
  {
    if queue != [] {
      var kids := PlacedKids(queue[0]);
      QueueSizeKids(queue[0].0, queue[0].1.kids, kids);
      QueueSizeAppend(queue[1..], kids);
      var next := queue[1..] + kids;
      AntichainStep(queue);
      WalkDistinct(next);
      forall x | x in Walk(next)
        ensures x.0 != queue[0].0
      {
        WalkMeets(next, x);
        var i :| 0 <= i < |next| && Under(next[i], x);
        if i < |queue| - 1 {
          assert next[i] == queue[i + 1];
        } else {
          assert next[i].0 == queue[0].0 + [i - (|queue| - 1)];
        }
      }
    }
  }

  /** Visiting a clause yields each of its nodes once, at the position that leads to it. */
  lemma NodesAreThePositions(e: Expr)
    ensures forall x :: x in Nodes(e) <==> At(e, x.0) == Some(x.1)
    ensures DistinctPositions(Nodes(e))
  {
    var queue: seq<Placed> := [([], e)];
    WalkDistinct(queue);
    forall x: Placed
      ensures x in Nodes(e) <==> At(e, x.0) == Some(x.1)
    {
      WalkMeets(queue, x);
      assert x.0[0..] == x.0;
      assert Under(queue[0], x) <==> At(e, x.0) == Some(x.1);
    }
  }

  lemma {:induction false} SelectPathsMembers(nodes: seq<Placed>, p: Kind -> bool)
    requires DistinctPositions(nodes)
    ensures forall path :: path in SelectPaths(nodes, p) <==> exists x :: x in nodes && x.0 == path && p(x.1.kind)
    ensures Distinct(SelectPaths(nodes, p))
  {
    if nodes != [] {
      SelectPathsMembers(nodes[1..], p);
      assert nodes == [nodes[0]] + nodes[1..];
      assert forall x :: x in nodes[1..] ==> x.0 != nodes[0].0;
      assert nodes[0].0 !in SelectPaths(nodes[1..], p);
    }
  }

  predicate ColumnAt(e: Expr, path: Path) {
    At(e, path).Some? && At(e, path).value.kind.Column?
  }

  /** `find_all` yields exactly the nodes of the wanted kind, each once. */
  lemma KindPathsComplete(e: Expr, p: Kind -> bool)
    ensures forall path :: path in SelectPaths(Nodes(e), p) <==> At(e, path).Some? && p(At(e, path).value.kind)
    ensures Distinct(SelectPaths(Nodes(e), p))
  {
    NodesAreThePositions(e);
    var nodes := Nodes(e);
    SelectPathsMembers(nodes, p);
    forall path
      ensures path in SelectPaths(nodes, p) <==> At(e, path).Some? && p(At(e, path).value.kind)
    {
      if At(e, path).Some? && p(At(e, path).value.kind) {
        assert (path, At(e, path).value) in nodes;
      }
    }
  }

  lemma ColumnPathsComplete(e: Expr)
    ensures forall path :: path in ColumnPaths(e) <==> ColumnAt(e, path)
    ensures Distinct(ColumnPaths(e))
  {
    KindPathsComplete(e, (k: Kind) => k.Column?);
  }

  // ----- Edits

  lemma {:induction false} PatchNothing(e: Expr, here: Path)
    ensures Patch(e, here, map[]) == e
  {
    forall i | 0 <= i < |e.kids| {
      PatchNothing(e.kids[i], here + [i]);
    }
  }

  /** An edit is seen at its own position and nowhere else. */
  lemma {:induction false} AtPatch(e: Expr, here: Path, edits: map<Path, Kind>, path: Path)
    ensures At(Patch(e, here, edits), path).Some? <==> At(e, path).Some?
    ensures At(e, path).Some? ==>
              At(Patch(e, here, edits), path).value == Patch(At(e, path).value, here + path, edits)
    decreases |path|
  {
    if path == [] {
      assert here + path == here;
    } else if path[0] < |e.kids| {
      AtPatch(e.kids[path[0]], here + [path[0]], edits, path[1..]);
      assert here + [path[0]] + path[1..] == here + path;
    }
  }

  /** Editing one position after others is one simultaneous edit. */
  lemma {:induction false} PatchStep(e: Expr, here: Path, edits: map<Path, Kind>, path: Path, kind: Kind)
    ensures Patch(Patch(e, here, edits), here, map[path := kind]) == Patch(e, here, edits[path := kind])
  {
    forall i | 0 <= i < |e.kids| {
      PatchStep(e.kids[i], here + [i], edits, path, kind);
    }
  }

  /** Editing every node that `f` changes, wherever it is, is applying `f` to the whole tree. */
  lemma {:induction false} PatchIsMap(e: Expr, here: Path, edits: map<Path, Kind>, f: Kind -> Kind)
    requires forall path :: At(e, path).Some? ==>
                              f(At(e, path).value.kind) ==
                              if here + path in edits then edits[here + path] else At(e, path).value.kind
    ensures Patch(e, here, edits) == MapKinds(e, f)
  {
    assert At(e, []) == Some(e) && here + [] == here;
    forall i | 0 <= i < |e.kids|
      ensures Patch(e.kids[i], here + [i], edits) == MapKinds(e.kids[i], f)
    {
      forall path | At(e.kids[i], path).Some?
        ensures f(At(e.kids[i], path).value.kind) ==
                if here + [i] + path in edits then edits[here + [i] + path] else At(e.kids[i], path).value.kind
      {
        assert At(e, [i] + path) == At(e.kids[i], path);
        assert here + ([i] + path) == here + [i] + path;
      }
      PatchIsMap(e.kids[i], here + [i], edits, f);
    }
  }

  lemma {:induction false} AtMap(e: Expr, f: Kind -> Kind, path: Path)
    ensures At(MapKinds(e, f), path).Some? <==> At(e, path).Some?
    ensures At(e, path).Some? ==> At(MapKinds(e, f), path).value == MapKinds(At(e, path).value, f)
    decreases |path|
  {
    if path != [] && path[0] < |e.kids| {
      AtMap(e.kids[path[0]], f, path[1..]);
    }
  }
}
