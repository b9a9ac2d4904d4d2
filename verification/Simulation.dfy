/** Two plans whose conditions, sort keys and joins cannot tell related rows apart select related
    rows, in the same order. Every result about rewriting a query or changing its data is an
    instance of this. */
module Simulation {
  import opened Values
  import opened Semantics

  /** Relates row `a` and row `b` of the table at a given place in the FROM clause. */
  type RowRelation = (nat, Row, Row) -> bool

  ghost predicate EnvRel(rel: RowRelation, a: Env, b: Env) {
    |a| == |b| && forall i: nat :: i < |a| ==> rel(i, a[i], b[i])
  }

  ghost predicate EnvsRel(rel: RowRelation, width: nat, xs: seq<Env>, ys: seq<Env>) {
    |xs| == |ys| && forall k :: 0 <= k < |xs| ==> |xs[k]| == width && EnvRel(rel, xs[k], ys[k])
  }

  ghost predicate TablesRel(rel: RowRelation, ts: seq<seq<Row>>, us: seq<seq<Row>>) {
    && |ts| == |us|
    && forall i: nat :: i < |ts| ==>
      |ts[i]| == |us[i]| && forall k :: 0 <= k < |ts[i]| ==> rel(i, ts[i][k], us[i][k])
  }

  ghost predicate OnAgrees(rel: RowRelation, width: nat, f: Env -> bool, g: Env -> bool) {
    forall a, b :: EnvRel(rel, a, b) && |a| == width ==> f(a) == g(b)
  }

  ghost predicate KeysAgree(rel: RowRelation, width: nat, p: Plan, q: Plan) {
    forall a, b :: EnvRel(rel, a, b) && |a| == width ==> p.key(a) == q.key(b)
  }

  ghost predicate PlansAgree(rel: RowRelation, n: nat, p: Plan, q: Plan) {
    && |p.joins| == |q.joins|
    && (forall j: nat :: j < |p.joins| ==>
        && p.joins[j].outer == q.joins[j].outer
        && p.joins[j].width == q.joins[j].width
        && rel(j + 1, Nulls(p.joins[j].width), Nulls(p.joins[j].width))
        && OnAgrees(rel, j + 2, p.joins[j].on, q.joins[j].on))
    && OnAgrees(rel, n, p.keep, q.keep)
    && KeysAgree(rel, n, p, q)
    && (forall a, b :: p.before(a, b) == q.before(a, b))
    && p.counting == q.counting
  }

  lemma EnvRelExtend(rel: RowRelation, a: Env, b: Env, r: Row, s: Row)
    requires EnvRel(rel, a, b) && rel(|a|, r, s)
    ensures EnvRel(rel, a + [r], b + [s])
  {
  }

  lemma {:induction false} MatchingRowsAgree(rel: RowRelation, a: Env, b: Env, rs: seq<Row>, ss: seq<Row>,
                                             f: Env -> bool, g: Env -> bool)
    requires EnvRel(rel, a, b) && OnAgrees(rel, |a| + 1, f, g)
    requires |rs| == |ss| && forall k :: 0 <= k < |rs| ==> rel(|a|, rs[k], ss[k])
    ensures EnvsRel(rel, |a| + 1, MatchingRows(a, rs, f), MatchingRows(b, ss, g))
  {
    if rs != [] {
      MatchingRowsAgree(rel, a, b, rs[1..], ss[1..], f, g);
      EnvRelExtend(rel, a, b, rs[0], ss[0]);
    }
  }

  lemma ExtendAgrees(rel: RowRelation, a: Env, b: Env, rs: seq<Row>, ss: seq<Row>, p: JoinPlan, q: JoinPlan)
    requires EnvRel(rel, a, b) && OnAgrees(rel, |a| + 1, p.on, q.on)
    requires p.outer == q.outer && p.width == q.width && rel(|a|, Nulls(p.width), Nulls(p.width))
    requires |rs| == |ss| && forall k :: 0 <= k < |rs| ==> rel(|a|, rs[k], ss[k])
    ensures EnvsRel(rel, |a| + 1, ExtendEnv(a, rs, p), ExtendEnv(b, ss, q))
  {
    MatchingRowsAgree(rel, a, b, rs, ss, p.on, q.on);
    EnvRelExtend(rel, a, b, Nulls(p.width), Nulls(p.width));
  }

  lemma EnvsRelAppend(rel: RowRelation, width: nat, a: seq<Env>, b: seq<Env>, xs: seq<Env>, ys: seq<Env>)
    requires EnvsRel(rel, width, a, b) && EnvsRel(rel, width, xs, ys)
    ensures EnvsRel(rel, width, a + xs, b + ys)
  {
  }

  lemma {:induction false} JoinTableAgrees(rel: RowRelation, width: nat, xs: seq<Env>, ys: seq<Env>, rs: seq<Row>,
                                           ss: seq<Row>, p: JoinPlan, q: JoinPlan)
    requires EnvsRel(rel, width, xs, ys) && OnAgrees(rel, width + 1, p.on, q.on)
    requires p.outer == q.outer && p.width == q.width && rel(width, Nulls(p.width), Nulls(p.width))
    requires |rs| == |ss| && forall k :: 0 <= k < |rs| ==> rel(width, rs[k], ss[k])
    ensures EnvsRel(rel, width + 1, JoinTable(xs, rs, p), JoinTable(ys, ss, q))
  {
    if xs != [] {
      JoinTableAgrees(rel, width, xs[1..], ys[1..], rs, ss, p, q);
      ExtendAgrees(rel, xs[0], ys[0], rs, ss, p, q);
      EnvsRelAppend(rel, width + 1, ExtendEnv(xs[0], rs, p), ExtendEnv(ys[0], ss, q), JoinTable(xs[1..], rs, p),
                    JoinTable(ys[1..], ss, q));
    }
  }

  lemma TableAgrees(rel: RowRelation, ts: seq<seq<Row>>, us: seq<seq<Row>>, i: nat)
    requires TablesRel(rel, ts, us) && i < |ts|
    ensures |ts[i]| == |us[i]| && forall k :: 0 <= k < |ts[i]| ==> rel(i, ts[i][k], us[i][k])
  {
  }

  lemma JoinAgrees(rel: RowRelation, n: nat, p: Plan, q: Plan, j: nat)
    requires PlansAgree(rel, n, p, q) && j < |p.joins|
    ensures p.joins[j].outer == q.joins[j].outer && p.joins[j].width == q.joins[j].width
    ensures rel(j + 1, Nulls(p.joins[j].width), Nulls(p.joins[j].width))
    ensures OnAgrees(rel, j + 2, p.joins[j].on, q.joins[j].on)
  {
  }

  lemma FirstTableAgrees(rel: RowRelation, p: Plan, q: Plan, ts: seq<seq<Row>>, us: seq<seq<Row>>)
    requires |ts| == |us| && |ts| == |p.joins| + 1 == |q.joins| + 1 && |ts[0]| == |us[0]|
    requires forall k :: 0 <= k < |ts[0]| ==> rel(0, ts[0][k], us[0][k])
    ensures EnvsRel(rel, 1, Joined(p, ts, 0), Joined(q, us, 0))
  {
  }

  lemma JoinedOneMore(rel: RowRelation, p: Plan, q: Plan, ts: seq<seq<Row>>, us: seq<seq<Row>>, k: nat,
                      xs: seq<Env>, ys: seq<Env>)
    requires |ts| == |us| == |p.joins| + 1 == |q.joins| + 1 && 1 <= k < |ts|
    requires xs == Joined(p, ts, k - 1) && ys == Joined(q, us, k - 1) && EnvsRel(rel, k, xs, ys)
    requires |ts[k]| == |us[k]| && forall i :: 0 <= i < |ts[k]| ==> rel(k, ts[k][i], us[k][i])
    requires p.joins[k - 1].outer == q.joins[k - 1].outer && p.joins[k - 1].width == q.joins[k - 1].width
    requires rel(k, Nulls(p.joins[k - 1].width), Nulls(p.joins[k - 1].width))
    requires OnAgrees(rel, k + 1, p.joins[k - 1].on, q.joins[k - 1].on)
    ensures EnvsRel(rel, k + 1, Joined(p, ts, k), Joined(q, us, k))
  {
    JoinTableAgrees(rel, k, xs, ys, ts[k], us[k], p.joins[k - 1], q.joins[k - 1]);
  }

  /** The rows of FROM and the first `k` joins are related. */
  lemma {:induction false} JoinedAgree(rel: RowRelation, n: nat, p: Plan, q: Plan, ts: seq<seq<Row>>,
                                       us: seq<seq<Row>>, k: nat) returns (xs: seq<Env>, ys: seq<Env>)
    requires PlansAgree(rel, n, p, q) && TablesRel(rel, ts, us)
    requires k <= |p.joins| && |ts| == |p.joins| + 1
    ensures xs == Joined(p, ts, k) && ys == Joined(q, us, k) && EnvsRel(rel, k + 1, xs, ys)
    decreases k
  {
    TableAgrees(rel, ts, us, k);
    if k == 0 {
      FirstTableAgrees(rel, p, q, ts, us);
    } else {
      var before, before' := JoinedAgree(rel, n, p, q, ts, us, k - 1);
      JoinAgrees(rel, n, p, q, k - 1);
      JoinedOneMore(rel, p, q, ts, us, k, before, before');
    }
    xs, ys := Joined(p, ts, k), Joined(q, us, k);
  }

  lemma {:induction false} KeptAgree(rel: RowRelation, n: nat, xs: seq<Env>, ys: seq<Env>, f: Env -> bool,
                                     g: Env -> bool)
    requires EnvsRel(rel, n, xs, ys) && OnAgrees(rel, n, f, g)
    ensures EnvsRel(rel, n, Kept(xs, f), Kept(ys, g))
  {
    if xs != [] {
      KeptAgree(rel, n, xs[1..], ys[1..], f, g);
    }
  }

  lemma {:induction false} InsertAgrees(rel: RowRelation, n: nat, x: Env, y: Env, xs: seq<Env>, ys: seq<Env>, p: Plan,
                                        q: Plan)
    requires EnvsRel(rel, n, xs, ys) && EnvRel(rel, x, y) && |x| == n && PlansAgree(rel, n, p, q)
    ensures EnvsRel(rel, n, Insert(x, xs, p), Insert(y, ys, q))
  {
    if xs != [] {
      InsertAgrees(rel, n, x, y, xs[1..], ys[1..], p, q);
    }
  }

  lemma {:induction false} SortedAgree(rel: RowRelation, n: nat, xs: seq<Env>, ys: seq<Env>, p: Plan, q: Plan)
    requires EnvsRel(rel, n, xs, ys) && PlansAgree(rel, n, p, q)
    ensures EnvsRel(rel, n, Sorted(xs, p), Sorted(ys, q))
  {
    if xs != [] {
      var k := |xs| - 1;
      SortedAgree(rel, n, xs[..k], ys[..k], p, q);
      InsertAgrees(rel, n, xs[k], ys[k], Sorted(xs[..k], p), Sorted(ys[..k], q), p, q);
    }
  }

  /** Related tables, agreeing plans: the selected rows are related, one by one and in order. */
  lemma SelectedAgree(rel: RowRelation, p: Plan, q: Plan, ts: seq<seq<Row>>, us: seq<seq<Row>>)
    requires PlansAgree(rel, |ts|, p, q) && TablesRel(rel, ts, us)
    requires ts != [] ==> |ts| == |p.joins| + 1
    ensures EnvsRel(rel, |ts|, Selected(p, ts), Selected(q, us))
  {
    var n := |ts|;
    var xs := if ts == [] then [[]] else Joined(p, ts, |p.joins|);
    var ys := if us == [] then [[]] else Joined(q, us, |q.joins|);
    if ts != [] {
      var _, _ := JoinedAgree(rel, n, p, q, ts, us, |p.joins|);
    }
    KeptAgree(rel, n, xs, ys, p.keep, q.keep);
    SortedAgree(rel, n, Kept(xs, p.keep), Kept(ys, q.keep), p, q);
  }

  /** Rows of output produced from related environments are related by `out`. */
  ghost predicate RowsAgree(rel: RowRelation, n: nat, p: Plan, q: Plan, out: (seq<Value>, seq<Value>) -> bool) {
    forall a, b, count: nat {:trigger EnvRel(rel, a, b), p.row(a, count)} ::
      EnvRel(rel, a, b) && |a| == n ==> out(p.row(a, count), q.row(b, count))
  }

  ghost predicate AnswersRel(out: (seq<Value>, seq<Value>) -> bool, xs: seq<seq<Value>>, ys: seq<seq<Value>>) {
    |xs| == |ys| && forall k :: 0 <= k < |xs| ==> out(xs[k], ys[k])
  }

  lemma AnswersAgree(rel: RowRelation, p: Plan, q: Plan, ts: seq<seq<Row>>, us: seq<seq<Row>>, widths: seq<nat>,
                     out: (seq<Value>, seq<Value>) -> bool)
    requires PlansAgree(rel, |ts|, p, q) && TablesRel(rel, ts, us)
    requires ts != [] ==> |ts| == |p.joins| + 1
    requires |widths| == |ts| && forall i: nat :: i < |widths| ==> rel(i, Nulls(widths[i]), Nulls(widths[i]))
    requires RowsAgree(rel, |ts|, p, q, out)
    ensures AnswersRel(out, Output(p, Selected(p, ts), widths), Output(q, Selected(q, us), widths))
    ensures p.top == q.top ==> AnswersRel(out, Answer(p, ts, widths), Answer(q, us, widths))
  {
    SelectedAgree(rel, p, q, ts, us);
    var xs, ys := Selected(p, ts), Selected(q, us);
    assert EnvRel(rel, Representative(xs, widths), Representative(ys, widths));
  }
}
