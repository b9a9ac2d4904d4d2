/** When two expressions of the same shape evaluate to the same value. */
module EvalFacts {
  import opened Outcomes
  import opened Ast
  import opened Semantics

  predicate NamesAValue(kind: Kind) {
    kind.Column? || kind.Text? || kind.Placeholder?
  }

  /** The kinds combine the values of their children in the same way. */
  predicate SameInner(a: Kind, b: Kind) {
    a == b || (NamesAValue(a) && NamesAValue(b))
  }

  predicate SameLeaf(eng: Engine, r: Reading, s: Reading, a: Kind, b: Kind) {
    SameInner(a, b) && LeafValue(eng, r, a) == LeafValue(eng, s, b)
  }

  /** `a` read by `r` and `b` read by `s` have the same shape and leaves of the same value. */
  ghost predicate Alike(eng: Engine, r: Reading, s: Reading, a: Expr, b: Expr) {
    && |a.kids| == |b.kids|
    && SameInner(a.kind, b.kind)
    && (a.kids == [] ==> LeafValue(eng, r, a.kind) == LeafValue(eng, s, b.kind))
    && forall i :: 0 <= i < |a.kids| ==> Alike(eng, r, s, a.kids[i], b.kids[i])
  }

  lemma {:induction false} EvalAlike(eng: Engine, r: Reading, s: Reading, a: Expr, b: Expr)
    requires Alike(eng, r, s, a, b)
    ensures Eval(eng, r, a) == Eval(eng, s, b)
  {
    if a.kids != [] {
      var xs := seq(|a.kids|, i requires 0 <= i < |a.kids| => Eval(eng, r, a.kids[i]));
      var ys := seq(|b.kids|, i requires 0 <= i < |b.kids| => Eval(eng, s, b.kids[i]));
      forall i | 0 <= i < |a.kids|
        ensures xs[i] == ys[i]
      {
        EvalAlike(eng, r, s, a.kids[i], b.kids[i]);
      }
      assert xs == ys;
    }
  }

  lemma {:induction false} MapAlike(eng: Engine, r: Reading, s: Reading, e: Expr, g: Kind -> Kind)
    requires Everywhere(e, (k: Kind) => SameLeaf(eng, r, s, k, g(k)))
    ensures Alike(eng, r, s, e, MapKinds(e, g))
  {
    forall i | 0 <= i < |e.kids|
      ensures Alike(eng, r, s, e.kids[i], MapKinds(e.kids[i], g))
    {
      MapAlike(eng, r, s, e.kids[i], g);
    }
  }

  lemma {:induction false} PatchAlike(eng: Engine, r: Reading, s: Reading, e: Expr, here: Path, edits: map<Path, Kind>)
    requires forall path :: At(e, path).Some? ==>
      SameLeaf(eng, r, s, At(e, path).value.kind,
               if here + path in edits then edits[here + path] else At(e, path).value.kind)
    ensures Alike(eng, r, s, e, Patch(e, here, edits))
  {
    assert At(e, []) == Some(e) && here + [] == here;
    forall i | 0 <= i < |e.kids|
      ensures Alike(eng, r, s, e.kids[i], Patch(e.kids[i], here + [i], edits))
    {
      forall path | At(e.kids[i], path).Some?
        ensures SameLeaf(eng, r, s, At(e.kids[i], path).value.kind,
                         if here + [i] + path in edits then edits[here + [i] + path]
                           else At(e.kids[i], path).value.kind)
      {
        assert At(e, [i] + path) == At(e.kids[i], path);
        assert here + ([i] + path) == here + [i] + path;
      }
      PatchAlike(eng, r, s, e.kids[i], here + [i], edits);
    }
  }

  lemma {:induction false} SelfAlike(eng: Engine, r: Reading, s: Reading, e: Expr)
    requires Everywhere(e, (k: Kind) => LeafValue(eng, r, k) == LeafValue(eng, s, k))
    ensures Alike(eng, r, s, e, e)
  {
    forall i | 0 <= i < |e.kids| {
      SelfAlike(eng, r, s, e.kids[i]);
    }
  }
}
