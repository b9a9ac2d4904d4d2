/** The loops of `security/lineage.py`, which edit a copy of the statement in place, proved to compute
    what `Lineage` specifies. */
module LineageMethods {
  import opened Outcomes
  import opened Ast
  import opened Scope
  import opened Sequences
  import opened Allowlist
  import opened Lineage
  import opened Accumulation

  // ----- Bindings

  method CollectBindings(fold: Fold, q: Query, schemas: seq<TableSchema>) returns (r: Result<seq<Binding>>)
    ensures r == Collect(fold, q, schemas)
  {
    var nodes := TableRefs(q);
    if |nodes| != |schemas| {
      return Rejected(TableResolutionMismatch);
    }
    var bindings: seq<Binding>, seen: set<string> := [], {};
    var i := 0;
    assert nodes[0..] == nodes && schemas[0..] == schemas;
    AfterNone(CollectFrom(fold, nodes, schemas, {}));
    while i < |nodes|
      invariant 0 <= i <= |nodes|
      invariant Collect(fold, q, schemas) == After(bindings, CollectFrom(fold, nodes[i..], schemas[i..], seen))
    {
      var name := BindingName(nodes[i], schemas[i]);
      assert nodes[i..][1..] == nodes[i + 1..] && schemas[i..][1..] == schemas[i + 1..];
      if fold(name) in seen {
        return Rejected(DuplicateBinding);
      }
      AfterNext(bindings, [Binding(name, schemas[i])],
                CollectFrom(fold, nodes[i + 1..], schemas[i + 1..], seen + {fold(name)}));
      seen := seen + {fold(name)};
      bindings := bindings + [Binding(name, schemas[i])];
      i := i + 1;
    }
    assert bindings + [] == bindings;
    return Ok(bindings);
  }

  // ----- Stars

  method ExpandStarsInPlace(fold: Fold, q: Select, bindings: seq<Binding>) returns (r: Result<()>)
    modifies q
    ensures var expanded := ExpandStars(fold, bindings, old(q.expressions));
      if expanded.Rejected? then r == Rejected(expanded.reason) && q.Contents() == old(q.Contents())
      else r.Ok? && q.Contents() == old(q.Contents()).(expressions := expanded.value)
  {
    var ps := q.expressions;
    var expanded: seq<Projection> := [];
    var i := 0;
    assert ps[0..] == ps;
    AfterNone(ExpandStars(fold, bindings, ps));
    while i < |ps|
      invariant 0 <= i <= |ps| && q.Contents() == old(q.Contents())
      invariant ExpandStars(fold, bindings, ps) == After(expanded, ExpandStars(fold, bindings, ps[i..]))
    {
      assert ps[i..][1..] == ps[i + 1..];
      var chosen: seq<Projection>;
      match ps[i] {
        case AllColumns =>
          chosen := ColumnItemsOf(bindings);
        case TableColumns(table) =>
          var found := Filter(bindings, BindingNamed(fold, table));
          if |found| != 1 {
            return Rejected(QualifierUnknown);
          }
          chosen := ColumnItems(found[0]);
        case Item(_, _) =>
          chosen := [ps[i]];
      }
      AfterNext(expanded, chosen, ExpandStars(fold, bindings, ps[i + 1..]));
      expanded := expanded + chosen;
      i := i + 1;
    }
    assert expanded + [] == expanded;
    q.expressions := expanded;
    return Ok(());
  }

  method ColumnItemsOf(bindings: seq<Binding>) returns (items: seq<Projection>)
    ensures items == AllColumnItems(bindings)
  {
    items := [];
    var i := |bindings|;
    while i > 0
      invariant 0 <= i <= |bindings| && items == AllColumnItems(bindings[i..])
    {
      i := i - 1;
      assert bindings[i..][1..] == bindings[i + 1..];
      items := ColumnItems(bindings[i]) + items;
    }
    assert bindings[0..] == bindings;
  }

  // ----- Projections

  function AfterItems(items: seq<Projection>, outputs: seq<OutputColumn>, refs: seq<ColumnRef>,
                      rest: Result<Projected>): Result<Projected> {
    if rest.Rejected? then rest
    else Ok(Projected(items + rest.value.items, outputs + rest.value.outputs, refs + rest.value.refs))
  }

  lemma AfterNoItems(rest: Result<Projected>)
    ensures AfterItems([], [], [], rest) == rest
  {
    if rest.Ok? {
      assert [] + rest.value.items == rest.value.items && [] + rest.value.outputs == rest.value.outputs;
      assert [] + rest.value.refs == rest.value.refs;
    }
  }

  lemma AfterNextItem(items: seq<Projection>, outputs: seq<OutputColumn>, refs: seq<ColumnRef>, next: ItemAnalysis,
                      rest: Result<Projected>)
    ensures AfterItems(items + [next.item], outputs + [next.output], refs + next.refs, rest) ==
            AfterItems(items, outputs, refs, if rest.Rejected? then rest
                                             else Ok(Projected([next.item] + rest.value.items,
                                                               [next.output] + rest.value.outputs,
                                                               next.refs + rest.value.refs)))
  {
    if rest.Ok? {
      assert items + [next.item] + rest.value.items == items + ([next.item] + rest.value.items);
      assert outputs + [next.output] + rest.value.outputs == outputs + ([next.output] + rest.value.outputs);
      assert refs + next.refs + rest.value.refs == refs + (next.refs + rest.value.refs);
    }
  }

  lemma ItemsStep(f: Resolver, ps: seq<Projection>, i: nat, items: seq<Projection>, outputs: seq<OutputColumn>,
                  refs: seq<ColumnRef>)
    requires i < |ps|
    ensures var one := AnalyzeItem(f, ps[i], i);
      AfterItems(items, outputs, refs, AnalyzeProjections(f, ps, i)) ==
      if one.Rejected? then Rejected(one.reason)
      else AfterItems(items + [one.value.item], outputs + [one.value.output], refs + one.value.refs,
                      AnalyzeProjections(f, ps, i + 1))
  {
    var one := AnalyzeItem(f, ps[i], i);
    if one.Ok? {
      AfterNextItem(items, outputs, refs, one.value, AnalyzeProjections(f, ps, i + 1));
    }
  }

  /** Replacing the first of the elements still to come. */
  lemma ReplaceNext<T>(done: seq<T>, s: seq<T>, i: nat, x: T)
    requires |done| == i < |s|
    ensures (done + s[i..])[i := x] == (done + [x]) + s[i + 1..]
  {
  }

  method AnalyzeProjectionsInPlace(f: Resolver, q: Select) returns (r: Result<(seq<OutputColumn>, seq<ColumnRef>)>)
    modifies q
    ensures var analyzed := AnalyzeProjections(f, old(q.expressions), 0);
      if analyzed.Rejected? then r == Rejected(analyzed.reason)
      else (&& r == Ok((analyzed.value.outputs, analyzed.value.refs))
            && q.Contents() == old(q.Contents()).(expressions := analyzed.value.items))
  {
    var ps := q.expressions;
    var outputs: seq<OutputColumn>, refs: seq<ColumnRef> := [], [];
    var i := 0;
    ghost var items: seq<Projection> := [];
    AfterNoItems(AnalyzeProjections(f, ps, 0));
    assert items + ps[0..] == ps;
    while i < |ps|
      invariant 0 <= i <= |ps| && |items| == i
      invariant q.Contents() == old(q.Contents()).(expressions := items + ps[i..])
      invariant AnalyzeProjections(f, ps, 0) == AfterItems(items, outputs, refs, AnalyzeProjections(f, ps, i))
    {
      var one := AnalyzeItem(f, ps[i], i);
      ItemsStep(f, ps, i, items, outputs, refs);
      if one.Rejected? {
        return Rejected(one.reason);
      }
      ReplaceNext(items, ps, i, one.value.item);
      q.expressions := q.expressions[i := one.value.item];
      outputs := outputs + [one.value.output];
      refs := refs + one.value.refs;
      items := items + [one.value.item];
      i := i + 1;
    }
    AllItems(f, ps, items, outputs, refs);
    return Ok((outputs, refs));
  }

  lemma AllItems(f: Resolver, ps: seq<Projection>, items: seq<Projection>, outputs: seq<OutputColumn>,
                 refs: seq<ColumnRef>)
    ensures AfterItems(items, outputs, refs, AnalyzeProjections(f, ps, |ps|)) == Ok(Projected(items, outputs, refs))
    ensures items + ps[|ps|..] == items
  {
    assert items + [] == items && outputs + [] == outputs && refs + [] == refs;
  }

  // ----- Expressions

  /** The edits for the first columns of a clause. */
  ghost predicate EditsFor(f: Resolver, e: Expr, paths: seq<Path>, n: nat, edits: map<Path, Kind>) {
    && n <= |paths|
    && (forall path :: path in edits <==> path in paths[..n])
    && (forall path :: path in edits ==> ColumnAt(e, path) && edits[path] == Qualified(f, At(e, path).value.kind))
  }

  /** Editing all columns of a clause, one by one, qualifies the clause. */
  lemma EditsQualify(f: Resolver, e: Expr, edits: map<Path, Kind>)
    requires EditsFor(f, e, ColumnPaths(e), |ColumnPaths(e)|, edits)
    ensures Patch(e, [], edits) == MapKinds(e, (k: Kind) => Qualified(f, k))
  {
    var g := (k: Kind) => Qualified(f, k);
    var paths := ColumnPaths(e);
    ColumnPathsComplete(e);
    assert paths[..|paths|] == paths;
    forall path | At(e, path).Some?
      ensures g(At(e, path).value.kind) == if [] + path in edits then edits[[] + path] else At(e, path).value.kind
    {
      assert [] + path == path;
      assert path in edits <==> ColumnAt(e, path);
    }
    PatchIsMap(e, [], edits, g);
  }

  /** A column not yet edited still has the caller's names. */
  lemma NotYetEdited(e: Expr, edits: map<Path, Kind>, path: Path)
    requires At(e, path).Some? && path !in edits
    ensures At(Patch(e, [], edits), path).Some? && At(Patch(e, [], edits), path).value.kind == At(e, path).value.kind
  {
    AtPatch(e, [], edits, path);
    assert [] + path == path;
  }

  lemma RefsStep(f: Resolver, part: Part, e: Expr, paths: seq<Path>, i: nat, refs: seq<ColumnRef>)
    requires i < |paths| && forall k :: 0 <= k < |paths| ==> ColumnAt(e, paths[k])
    ensures ColumnAt(e, paths[i])
    ensures var kind := At(e, paths[i]).value.kind;
      var one := f(kind.table, kind.name);
      After(refs, TreeRefs(f, part, e, paths[i..])) ==
      if one.Rejected? then Rejected(one.reason)
      else After(refs + [ColumnRef(Position(part, paths[i]), SourceOf(one.value))],
                 TreeRefs(f, part, e, paths[i + 1..]))
  {
    assert ColumnAt(e, paths[i]) && paths[i..][1..] == paths[i + 1..];
    var kind := At(e, paths[i]).value.kind;
    var one := f(kind.table, kind.name);
    if one.Ok? {
      AfterNext(refs, [ColumnRef(Position(part, paths[i]), SourceOf(one.value))], TreeRefs(f, part, e, paths[i + 1..]));
    }
  }

  /** Editing the next column. */
  lemma EditsNext(f: Resolver, e: Expr, paths: seq<Path>, n: nat, edits: map<Path, Kind>, kind: Kind)
    requires EditsFor(f, e, paths, n, edits) && n < |paths| && ColumnAt(e, paths[n])
        && kind == Qualified(f, At(e, paths[n]).value.kind)
    ensures EditsFor(f, e, paths, n + 1, edits[paths[n] := kind])
  {
    assert paths[..n + 1] == paths[..n] + [paths[n]];
  }

  /** The tree with its first `i` columns edited, before the next is. */
  lemma NextColumn(f: Resolver, e: Expr, paths: seq<Path>, i: nat, edits: map<Path, Kind>)
    requires Distinct(paths) && EditsFor(f, e, paths, i, edits) && i < |paths| && ColumnAt(e, paths[i])
    ensures At(Patch(e, [], edits), paths[i]).Some?
        && At(Patch(e, [], edits), paths[i]).value.kind == At(e, paths[i]).value.kind
  {
    assert paths[i] !in paths[..i];
    NotYetEdited(e, edits, paths[i]);
  }

  ghost predicate AllColumns(e: Expr, paths: seq<Path>) {
    forall k :: 0 <= k < |paths| ==> ColumnAt(e, paths[k])
  }

  /** The edits of the first `n` columns. */
  ghost function EditsUpTo(f: Resolver, e: Expr, paths: seq<Path>, n: nat): map<Path, Kind>
    requires AllColumns(e, paths) && n <= |paths|
  {
    if n == 0 then map[]
      else EditsUpTo(f, e, paths, n - 1)[paths[n - 1] := Qualified(f, At(e, paths[n - 1]).value.kind)]
  }

  lemma {:induction false} EditsUpToHold(f: Resolver, e: Expr, paths: seq<Path>, n: nat)
    requires AllColumns(e, paths) && n <= |paths|
    ensures EditsFor(f, e, paths, n, EditsUpTo(f, e, paths, n))
  {
    if n > 0 {
      EditsUpToHold(f, e, paths, n - 1);
      assert ColumnAt(e, paths[n - 1]);
      EditsNext(f, e, paths, n - 1, EditsUpTo(f, e, paths, n - 1), Qualified(f, At(e, paths[n - 1]).value.kind));
    }
  }

  /** The state of the loop after `n` columns: the tree as edited so far and the references found. */
  ghost function EditLoop(f: Resolver, part: Part, e: Expr, paths: seq<Path>, n: nat): Result<Edited<Expr>>
    requires n <= |paths|
  {
    if n == 0 then Ok(Edited(e, []))
    else
      var before :- EditLoop(f, part, e, paths, n - 1);
      var path := paths[n - 1];
      if !ColumnAt(before.item, path) then Ok(before)
      else
        var kind := At(before.item, path).value.kind;
        var r :- f(kind.table, kind.name);
        Ok(Edited(Patch(before.item, [], map[path := KindOf(r)]),
                  before.refs + [ColumnRef(Position(part, path), SourceOf(r))]))
  }

  /** The loop has edited the first columns and left the others to come. */
  lemma {:induction false} EditLoopMeans(f: Resolver, part: Part, e: Expr, paths: seq<Path>, n: nat)
    requires Distinct(paths) && AllColumns(e, paths) && n <= |paths|
    ensures var state := EditLoop(f, part, e, paths, n);
      TreeRefs(f, part, e, paths) == if state.Rejected? then Rejected(state.reason)
        else After(state.value.refs, TreeRefs(f, part, e, paths[n..]))
    ensures var state := EditLoop(f, part, e, paths, n);
      state.Ok? ==> state.value.item == Patch(e, [], EditsUpTo(f, e, paths, n))
  {
    if n == 0 {
      PatchNothing(e, []);
      AfterNone(TreeRefs(f, part, e, paths));
      assert paths[0..] == paths;
    } else {
      EditLoopMeans(f, part, e, paths, n - 1);
      var before := EditLoop(f, part, e, paths, n - 1);
      if before.Ok? {
        var path, edits := paths[n - 1], EditsUpTo(f, e, paths, n - 1);
        assert ColumnAt(e, path);
        EditsUpToHold(f, e, paths, n - 1);
        NextColumn(f, e, paths, n - 1, edits);
        RefsStep(f, part, e, paths, n - 1, before.value.refs);
        PatchStep(e, [], edits, path, Qualified(f, At(e, path).value.kind));
      }
    }
  }

  /** The next column is still there to be read. */
  lemma EditLoopFinds(f: Resolver, part: Part, e: Expr, paths: seq<Path>, n: nat)
    requires Distinct(paths) && AllColumns(e, paths) && n < |paths| && EditLoop(f, part, e, paths, n).Ok?
    ensures ColumnAt(EditLoop(f, part, e, paths, n).value.item, paths[n])
  {
    EditLoopMeans(f, part, e, paths, n);
    EditsUpToHold(f, e, paths, n);
    NextColumn(f, e, paths, n, EditsUpTo(f, e, paths, n));
  }

  lemma {:induction false} EditLoopStops(f: Resolver, part: Part, e: Expr, paths: seq<Path>, m: nat, n: nat)
    requires m <= n <= |paths| && EditLoop(f, part, e, paths, m).Rejected?
    ensures EditLoop(f, part, e, paths, n) == EditLoop(f, part, e, paths, m)
    decreases n - m
  {
    if m < n {
      EditLoopStops(f, part, e, paths, m, n - 1);
    }
  }

  /** After all columns the clause is analysed. */
  lemma EditLoopAnalyzes(f: Resolver, part: Part, e: Expr)
    ensures EditLoop(f, part, e, ColumnPaths(e), |ColumnPaths(e)|) == AnalyzeTree(f, part, e)
  {
    var paths := ColumnPaths(e);
    ColumnPathsComplete(e);
    assert forall k :: 0 <= k < |paths| ==> paths[k] in paths;
    EditLoopMeans(f, part, e, paths, |paths|);
    EditsUpToHold(f, e, paths, |paths|);
    EditsQualify(f, e, EditsUpTo(f, e, paths, |paths|));
    var state := EditLoop(f, part, e, paths, |paths|);
    if state.Ok? {
      assert state.value.refs + [] == state.value.refs;
    }
  }

  method AnalyzeTreeInPlace(f: Resolver, part: Part, e: Expr) returns (r: Result<Edited<Expr>>)
    ensures r == AnalyzeTree(f, part, e)
  {
    EditLoopAnalyzes(f, part, e);
    var paths := ColumnPaths(e);
    ColumnPathsComplete(e);
    assert forall k :: 0 <= k < |paths| ==> paths[k] in paths;
    r := EditColumns(f, part, e, paths);
  }

  /** The columns of a clause, resolved and set one at a time. */
  method EditColumns(f: Resolver, part: Part, e: Expr, paths: seq<Path>) returns (r: Result<Edited<Expr>>)
    requires Distinct(paths) && AllColumns(e, paths)
    ensures r == EditLoop(f, part, e, paths, |paths|)
  {
    var tree, refs := e, [];
    var i := 0;
    while i < |paths|
      invariant 0 <= i <= |paths| && EditLoop(f, part, e, paths, i) == Ok(Edited(tree, refs))
    {
      EditLoopFinds(f, part, e, paths, i);
      var kind := At(tree, paths[i]).value.kind;
      var resolved := f(kind.table, kind.name);
      if resolved.Rejected? {
        EditLoopStops(f, part, e, paths, i + 1, |paths|);
        return Rejected(resolved.reason);
      }
      tree := Patch(tree, [], map[paths[i] := KindOf(resolved.value)]);
      refs := refs + [ColumnRef(Position(part, paths[i]), SourceOf(resolved.value))];
      i := i + 1;
    }
    return Ok(Edited(tree, refs));
  }

  // ----- Clauses

  function AfterEdited<T>(items: seq<T>, refs: seq<ColumnRef>, rest: Result<Edited<seq<T>>>): Result<Edited<seq<T>>> {
    if rest.Rejected? then rest else Ok(Edited(items + rest.value.item, refs + rest.value.refs))
  }

  lemma AfterNoneEdited<T>(rest: Result<Edited<seq<T>>>)
    ensures AfterEdited([], [], rest) == rest
  {
    if rest.Ok? {
      assert [] + rest.value.item == rest.value.item && [] + rest.value.refs == rest.value.refs;
    }
  }

  lemma AfterNextEdited<T>(items: seq<T>, refs: seq<ColumnRef>, next: Edited<T>, rest: Result<Edited<seq<T>>>)
    ensures AfterEdited(items + [next.item], refs + next.refs, rest) ==
            AfterEdited(items, refs, if rest.Rejected? then rest
                        else Ok(Edited([next.item] + rest.value.item, next.refs + rest.value.refs)))
  {
    if rest.Ok? {
      assert items + [next.item] + rest.value.item == items + ([next.item] + rest.value.item);
      assert refs + next.refs + rest.value.refs == refs + (next.refs + rest.value.refs);
    }
  }

  method AnalyzeJoinInPlace(f: Resolver, join: Join, index: nat) returns (r: Result<Edited<Join>>)
    ensures r == AnalyzeJoin(f, join, index)
  {
    if join.on.None? {
      return Ok(Edited(join, []));
    }
    var tree := AnalyzeTreeInPlace(f, InOn(index), join.on.value);
    if tree.Rejected? {
      return Rejected(tree.reason);
    }
    return Ok(Edited(join.(on := Some(tree.value.item)), tree.value.refs));
  }

  method AnalyzeKeyInPlace(f: Resolver, key: OrderKey, index: nat) returns (r: Result<Edited<OrderKey>>)
    ensures r == AnalyzeKey(f, key, index)
  {
    var tree := AnalyzeTreeInPlace(f, InOrder(index), key.target);
    if tree.Rejected? {
      return Rejected(tree.reason);
    }
    return Ok(Edited(key.(target := tree.value.item), tree.value.refs));
  }

  lemma JoinsStep(f: Resolver, joins: seq<Join>, i: nat, items: seq<Join>, refs: seq<ColumnRef>)
    requires i < |joins|
    ensures var one := AnalyzeJoin(f, joins[i], i);
      AfterEdited(items, refs, AnalyzeJoins(f, joins, i)) ==
      if one.Rejected? then Rejected(one.reason)
      else AfterEdited(items + [one.value.item], refs + one.value.refs, AnalyzeJoins(f, joins, i + 1))
  {
    var one := AnalyzeJoin(f, joins[i], i);
    if one.Ok? {
      AfterNextEdited(items, refs, one.value, AnalyzeJoins(f, joins, i + 1));
    }
  }

  lemma AllJoins(f: Resolver, joins: seq<Join>, items: seq<Join>, refs: seq<ColumnRef>)
    ensures AfterEdited(items, refs, AnalyzeJoins(f, joins, |joins|)) == Ok(Edited(items, refs))
    ensures items + joins[|joins|..] == items
  {
    assert items + [] == items && refs + [] == refs;
  }

  /** Sets the next join of a statement whose first joins have been set. */
  method SetJoin(q: Select, ghost items: seq<Join>, ghost joins: seq<Join>, i: nat, next: Join)
    requires |items| == i < |joins| && q.joins == items + joins[i..]
    modifies q
    ensures q.Contents() == old(q.Contents()).(joins := (items + [next]) + joins[i + 1..])
  {
    ReplaceNext(items, joins, i, next);
    q.joins := q.joins[i := next];
  }

  method AnalyzeJoinsInPlace(f: Resolver, q: Select) returns (r: Result<seq<ColumnRef>>)
    modifies q
    ensures var analyzed := AnalyzeJoins(f, old(q.joins), 0);
      if analyzed.Rejected? then r == Rejected(analyzed.reason)
      else r == Ok(analyzed.value.refs) && q.Contents() == old(q.Contents()).(joins := analyzed.value.item)
  {
    ghost var was := q.Contents();
    var joins := q.joins;
    var refs: seq<ColumnRef> := [];
    ghost var items: seq<Join> := [];
    AfterNoneEdited(AnalyzeJoins(f, joins, 0));
    var i := 0;
    assert items + joins[0..] == joins;
    while i < |joins|
      invariant 0 <= i <= |joins| && |items| == i
      invariant q.Contents() == was.(joins := items + joins[i..])
      invariant AnalyzeJoins(f, joins, 0) == AfterEdited(items, refs, AnalyzeJoins(f, joins, i))
    {
      JoinsStep(f, joins, i, items, refs);
      var one := AnalyzeJoinInPlace(f, joins[i], i);
      if one.Rejected? {
        return Rejected(one.reason);
      }
      SetJoin(q, items, joins, i, one.value.item);
      refs := refs + one.value.refs;
      items := items + [one.value.item];
      i := i + 1;
    }
    AllJoins(f, joins, items, refs);
    return Ok(refs);
  }

  lemma OrderStep(f: Resolver, keys: seq<OrderKey>, i: nat, items: seq<OrderKey>, refs: seq<ColumnRef>)
    requires i < |keys|
    ensures var one := AnalyzeKey(f, keys[i], i);
      AfterEdited(items, refs, AnalyzeOrder(f, keys, i)) ==
      if one.Rejected? then Rejected(one.reason)
      else AfterEdited(items + [one.value.item], refs + one.value.refs, AnalyzeOrder(f, keys, i + 1))
  {
    var one := AnalyzeKey(f, keys[i], i);
    if one.Ok? {
      AfterNextEdited(items, refs, one.value, AnalyzeOrder(f, keys, i + 1));
    }
  }

  lemma AllOrder(f: Resolver, keys: seq<OrderKey>, items: seq<OrderKey>, refs: seq<ColumnRef>)
    ensures AfterEdited(items, refs, AnalyzeOrder(f, keys, |keys|)) == Ok(Edited(items, refs))
    ensures items + keys[|keys|..] == items
  {
    assert items + [] == items && refs + [] == refs;
  }

  method AnalyzeOrderInPlace(f: Resolver, q: Select) returns (r: Result<seq<ColumnRef>>)
    modifies q
    ensures var analyzed := AnalyzeOrder(f, old(q.order), 0);
      if analyzed.Rejected? then r == Rejected(analyzed.reason)
      else r == Ok(analyzed.value.refs) && q.Contents() == old(q.Contents()).(order := analyzed.value.item)
  {
    var keys := q.order;
    var refs: seq<ColumnRef> := [];
    ghost var items: seq<OrderKey> := [];
    AfterNoneEdited(AnalyzeOrder(f, keys, 0));
    var i := 0;
    assert items + keys[0..] == keys;
    while i < |keys|
      invariant 0 <= i <= |keys| && |items| == i
      invariant q.Contents() == old(q.Contents()).(order := items + keys[i..])
      invariant AnalyzeOrder(f, keys, 0) == AfterEdited(items, refs, AnalyzeOrder(f, keys, i))
    {
      OrderStep(f, keys, i, items, refs);
      var one := AnalyzeKeyInPlace(f, keys[i], i);
      if one.Rejected? {
        return Rejected(one.reason);
      }
      ReplaceNext(items, keys, i, one.value.item);
      q.order := q.order[i := one.value.item];
      refs := refs + one.value.refs;
      items := items + [one.value.item];
      i := i + 1;
    }
    AllOrder(f, keys, items, refs);
    return Ok(refs);
  }

  // ----- The whole query

  /** The clauses of `q`, each edited in place, in the order of the source. */
  method AnalyzeClausesInPlace(f: Resolver, g: seq<OutputColumn> -> Resolver,
                               q: Select) returns (r: Result<AnalyzedQuery>)
    modifies q
    ensures r == AnalyzeClauses(f, g, old(q.Contents()))
    ensures r.Ok? ==> q.Contents() == r.value.query
  {
    var ps := AnalyzeProjectionsInPlace(f, q);
    if ps.Rejected? {
      return Rejected(ps.reason);
    }
    var (outputs, refs) := ps.value;
    var js := AnalyzeJoinsInPlace(f, q);
    if js.Rejected? {
      return Rejected(js.reason);
    }
    refs := refs + js.value;
    assert refs + [] == refs;
    if q.where_.Some? {
      var ws := AnalyzeTreeInPlace(f, InWhere, q.where_.value);
      if ws.Rejected? {
        return Rejected(ws.reason);
      }
      q.where_ := Some(ws.value.item);
      refs := refs + ws.value.refs;
    }
    var os := AnalyzeOrderInPlace(g(outputs), q);
    if os.Rejected? {
      return Rejected(os.reason);
    }
    return Ok(AnalyzedQuery(q.Contents(), outputs, refs + os.value));
  }

  /** `analyze_query`: it works on a copy and leaves the caller's statement alone. */
  method AnalyzeQuery(fold: Fold, cross: CrossCheck, limits: Limits, query: Select,
                      schemas: seq<TableSchema>) returns (r: Result<AnalyzedQuery>)
    ensures r == Analyze(fold, cross, limits, query.Contents(), schemas)
    ensures query.Contents() == old(query.Contents())
  {
    var working := new Select(query.Contents());
    var bindings := CollectBindings(fold, working.Contents(), schemas);
    if bindings.Rejected? {
      return Rejected(bindings.reason);
    }
    var expanded := ExpandStarsInPlace(fold, working, bindings.value);
    if expanded.Rejected? {
      return Rejected(expanded.reason);
    }
    var checked := CheckLimits(working.Contents(), limits);
    if checked.Rejected? {
      return Rejected(checked.reason);
    }
    var analyzed := AnalyzeClausesInPlace(ColumnResolver(fold, bindings.value),
                                          OrderResolvers(fold, bindings.value), working);
    if analyzed.Rejected? {
      return analyzed;
    }
    var allowed := ValidateAllowlist(working.Contents(), false);
    if allowed.Rejected? {
      return Rejected(allowed.reason);
    }
    if !cross(working.Contents(), schemas) {
      return Rejected(QualifyFailed);
    }
    return analyzed;
  }
}
