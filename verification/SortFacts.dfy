/** ORDER BY as it is modelled is a stable sort: a permutation in key order that keeps rows of equal
    keys in the order they came in. */
module SortFacts {
  import opened Ast
  import opened Scope
  import opened Values
  import opened Semantics

  /** The engine's comparison of two key values is a strict weak order, in either direction and with
      NULLs first or last. */
  ghost predicate LawfulOrder(eng: Engine) {
    && (forall d, n, a, b :: eng.precedes(d, n, a, b) ==> !eng.precedes(d, n, b, a))
    && (forall d, n, a, b, c {:trigger eng.precedes(d, n, a, c), eng.precedes(d, n, a, b)} ::
          eng.precedes(d, n, a, c) ==> eng.precedes(d, n, a, b) || eng.precedes(d, n, b, c))
  }

  lemma {:induction false} BeforeIsStrict(eng: Engine, order: seq<OrderKey>, a: seq<Value>, b: seq<Value>)
    requires LawfulOrder(eng) && |a| == |b| == |order|
    ensures Before(eng, order, a, b) ==> !Before(eng, order, b, a)
  {
    if order != [] {
      BeforeIsStrict(eng, order[1..], a[1..], b[1..]);
    }
  }

  lemma {:induction false} BeforeIsWeak(eng: Engine, order: seq<OrderKey>, a: seq<Value>, b: seq<Value>, c: seq<Value>)
    requires LawfulOrder(eng) && |a| == |b| == |c| == |order|
    ensures Before(eng, order, a, c) ==> Before(eng, order, a, b) || Before(eng, order, b, c)
  {
    if order != [] {
      BeforeIsWeak(eng, order[1..], a[1..], b[1..], c[1..]);
      var d, n := order[0].descending, order[0].nullsFirst;
      assert eng.precedes(d, n, a[0], c[0]) ==> eng.precedes(d, n, a[0], b[0]) || eng.precedes(d, n, b[0], c[0]);
      assert eng.precedes(d, n, b[0], a[0]) ==> eng.precedes(d, n, b[0], c[0]) || eng.precedes(d, n, c[0], a[0]);
      assert eng.precedes(d, n, c[0], b[0]) ==> eng.precedes(d, n, c[0], a[0]) || eng.precedes(d, n, a[0], b[0]);
    }
  }

  /** `x` comes strictly before `y`. */
  ghost predicate Comes(plan: Plan, x: Env, y: Env) {
    plan.before(plan.key(x), plan.key(y))
  }

  ghost predicate LawfulPlan(plan: Plan) {
    && (forall x, y :: Comes(plan, x, y) ==> !Comes(plan, y, x))
    && (forall x, y, z {:trigger Comes(plan, x, z), Comes(plan, x, y)} :: Comes(plan, x, z) ==>
        Comes(plan, x, y) || Comes(plan, y, z))
  }

  ghost predicate KeyOrdered(plan: Plan, envs: seq<Env>) {
    forall i, j :: 0 <= i < j < |envs| ==> !Comes(plan, envs[j], envs[i])
  }

  /** No two rows that satisfy `same` are told apart by their keys. */
  ghost predicate EqualKeys(plan: Plan, same: Env -> bool) {
    forall x, y :: same(x) && same(y) ==> !Comes(plan, x, y)
  }

  lemma {:induction false} KeptNone(envs: seq<Env>, same: Env -> bool)
    requires forall i :: 0 <= i < |envs| ==> !same(envs[i])
    ensures Kept(envs, same) == []
  {
    if envs != [] {
      KeptNone(envs[1..], same);
    }
  }

  lemma {:induction false} KeptAppend(a: seq<Env>, b: seq<Env>, same: Env -> bool)
    ensures Kept(a + b, same) == Kept(a, same) + Kept(b, same)
  {
    if a == [] {
      assert a + b == b;
    } else {
      assert (a + b)[1..] == a[1..] + b;
      KeptAppend(a[1..], b, same);
    }
  }

  lemma ComesWeakly(plan: Plan, x: Env, y: Env, z: Env)
    requires LawfulPlan(plan) && Comes(plan, x, z) && !Comes(plan, y, z)
    ensures Comes(plan, x, y) && !Comes(plan, y, x)
  {
  }

  lemma InsertFirst(plan: Plan, x: Env, sorted: seq<Env>, same: Env -> bool)
    requires LawfulPlan(plan) && KeyOrdered(plan, sorted) && EqualKeys(plan, same)
    requires sorted != [] && Comes(plan, x, sorted[0])
    ensures forall j :: 0 <= j < |sorted| ==> !Comes(plan, sorted[j], x)
    ensures same(x) ==> Kept(sorted, same) == []
  {
    forall j | 0 <= j < |sorted|
      ensures Comes(plan, x, sorted[j]) && !Comes(plan, sorted[j], x)
    {
      ComesWeakly(plan, x, sorted[j], sorted[0]);
    }
    if same(x) {
      KeptNone(sorted, same);
    }
  }

  lemma PrependOrdered(plan: Plan, x: Env, s: seq<Env>)
    requires KeyOrdered(plan, s) && forall j :: 0 <= j < |s| ==> !Comes(plan, s[j], x)
    ensures KeyOrdered(plan, [x] + s)
  {
  }

  lemma TailOrdered(plan: Plan, s: seq<Env>)
    requires s != [] && KeyOrdered(plan, s)
    ensures KeyOrdered(plan, s[1..]) && forall j :: 0 <= j < |s[1..]| ==> !Comes(plan, s[1..][j], s[0])
  {
  }

  lemma {:induction false} InsertMembers(plan: Plan, x: Env, sorted: seq<Env>)
    ensures multiset(Insert(x, sorted, plan)) == multiset(sorted) + multiset{x}
    ensures forall j :: 0 <= j < |Insert(x, sorted, plan)| ==>
      Insert(x, sorted, plan)[j] == x || Insert(x, sorted, plan)[j] in sorted
  {
    if sorted != [] && !Comes(plan, x, sorted[0]) {
      InsertMembers(plan, x, sorted[1..]);
      assert sorted == [sorted[0]] + sorted[1..];
    }
  }

  lemma {:induction false} InsertIsStable(plan: Plan, x: Env, sorted: seq<Env>, same: Env -> bool)
    requires LawfulPlan(plan) && KeyOrdered(plan, sorted) && EqualKeys(plan, same)
    ensures KeyOrdered(plan, Insert(x, sorted, plan))
    ensures Kept(Insert(x, sorted, plan), same) == Kept(sorted, same) + if same(x) then [x] else []
  {
    if sorted != [] && Comes(plan, x, sorted[0]) {
      InsertFirst(plan, x, sorted, same);
      PrependOrdered(plan, x, sorted);
      KeptAppend([x], sorted, same);
    } else if sorted != [] {
      var rest := sorted[1..];
      TailOrdered(plan, sorted);
      InsertIsStable(plan, x, rest, same);
      InsertMembers(plan, x, rest);
      var more := Insert(x, rest, plan);
      forall j | 0 <= j < |more|
        ensures !Comes(plan, more[j], sorted[0])
      {
        if more[j] != x {
          var i :| 0 <= i < |rest| && rest[i] == more[j];
        }
      }
      PrependOrdered(plan, sorted[0], more);
    }
  }

  lemma {:induction false} SortedMembers(plan: Plan, envs: seq<Env>)
    ensures multiset(Sorted(envs, plan)) == multiset(envs)
  {
    if envs != [] {
      var n := |envs| - 1;
      SortedMembers(plan, envs[..n]);
      InsertMembers(plan, envs[n], Sorted(envs[..n], plan));
      assert envs == envs[..n] + [envs[n]];
    }
  }

  lemma KeptLast(envs: seq<Env>, n: nat, same: Env -> bool)
    requires |envs| == n + 1
    ensures Kept(envs, same) == Kept(envs[..n], same) + if same(envs[n]) then [envs[n]] else []
  {
    var last := [envs[n]];
    assert envs == envs[..n] + last;
    KeptAppend(envs[..n], last, same);
    KeptOne(envs[n], same);
  }

  lemma KeptOne(env: Env, same: Env -> bool)
    ensures Kept([env], same) == if same(env) then [env] else []
  {
    assert [env][1..] == [];
  }

  lemma {:induction false} SortedKeeps(plan: Plan, envs: seq<Env>, same: Env -> bool)
    requires LawfulPlan(plan) && EqualKeys(plan, same)
    ensures KeyOrdered(plan, Sorted(envs, plan))
    ensures Kept(Sorted(envs, plan), same) == Kept(envs, same)
  {
    if envs != [] {
      var n := |envs| - 1;
      var before, last := envs[..n], envs[n];
      SortedKeeps(plan, before, same);
      InsertIsStable(plan, last, Sorted(before, plan), same);
      KeptLast(envs, n, same);
      assert Sorted(envs, plan) == Insert(last, Sorted(before, plan), plan);
    }
  }

  /** MAIN RESULT. Sorting permutes the rows, puts them in key order, and keeps rows of equal keys in
      the order they came in. */
  lemma SortedIsStable(plan: Plan, envs: seq<Env>, same: Env -> bool)
    requires LawfulPlan(plan) && EqualKeys(plan, same)
    ensures KeyOrdered(plan, Sorted(envs, plan))
    ensures multiset(Sorted(envs, plan)) == multiset(envs)
    ensures Kept(Sorted(envs, plan), same) == Kept(envs, same)
  {
    SortedMembers(plan, envs);
    SortedKeeps(plan, envs, same);
  }

  /** The plan of every query sorts lawfully on a lawful engine. */
  lemma QueryPlanIsLawful(fold: Fold, scope: seq<Binding>, eng: Engine, consts: Constants, q: Query)
    requires LawfulOrder(eng) && JoinsMeant(q) && (|scope| >= |q.joins| + 1 || q.joins == [])
    ensures LawfulPlan(PlanOf(fold, scope, eng, consts, q))
  {
    var plan := PlanOf(fold, scope, eng, consts, q);
    forall x, y
      ensures Comes(plan, x, y) ==> !Comes(plan, y, x)
    {
      BeforeIsStrict(eng, q.order, plan.key(x), plan.key(y));
    }
    forall x, y, z
      ensures Comes(plan, x, z) ==> Comes(plan, x, y) || Comes(plan, y, z)
    {
      BeforeIsWeak(eng, q.order, plan.key(x), plan.key(y), plan.key(z));
    }
  }
}
