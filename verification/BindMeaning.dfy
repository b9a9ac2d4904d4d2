/** The bound query, with its parameters, means the analysed query with each token read as the value
    it stands for; capping the rows keeps the first ones. */
module BindMeaning {
  import opened Outcomes
  import opened Ast
  import opened Scope
  import opened Values
  import opened Tokens
  import opened Allowlist
  import opened LineageComplete
  import opened Policy
  import opened PolicyFacts
  import opened Semantics
  import opened EvalFacts
  import opened Simulation
  import opened AnalysisMeaning
  import opened Issue
  import opened BindFacts

  /** A string literal that is a token stands for the decrypted value. */
  function TokenValue(decrypt: Decryptor, text: string): Value {
    if HasPrefix(text) && decrypt(text).Ok? then decrypt(text).value else Str(text)
  }

  function CallerConstants(decrypt: Decryptor): Constants {
    Constants((text: string) => TokenValue(decrypt, text), map[])
  }

  function BoundConstants(parameters: map<string, Value>): Constants {
    Constants((text: string) => Str(text), parameters)
  }

  lemma {:induction false} AllowedAt(e: Expr, binds: bool, path: Path)
    requires AllowedExpr(e, binds) && At(e, path).Some?
    ensures AllowedExpr(At(e, path).value, binds)
    decreases |path|
  {
    if path != [] {
      AllowedAt(e.kids[path[0]], binds, path[1..]);
    }
  }

  lemma ClauseAllowed(q: Query, binds: bool, part: Part)
    requires Allowed(q, binds) && ClauseOf(q, part).Some?
    ensures AllowedExpr(ClauseOf(q, part).value, binds)
  {
  }

  lemma AllowedHasNoPlaceholders(q: Query)
    requires Allowed(q, false)
    ensures NoPlaceholders(q)
  {
    forall position
      ensures !PlaceholderOf(q, position)
    {
      var clause := ClauseOf(q, position.part);
      if clause.Some? && At(clause.value, position.path).Some? {
        ClauseAllowed(q, false, position.part);
        AllowedAt(clause.value, false, position.path);
      }
    }
  }

  /** The expression has neither tokens nor placeholders. */
  predicate Inert(kind: Kind) {
    !IsToken(kind) && !kind.Placeholder?
  }

  lemma NoSiteNoToken(p: PiiPolicy, q: Query, sites: seq<TokenSite>, position: Position)
    requires SitesExact(p, q, sites) && forall s :: 0 <= s < |sites| ==> sites[s].literal != position
    ensures !TokenOf(q, position)
  {
  }

  lemma InertClause(p: PiiPolicy, q: Query, sites: seq<TokenSite>, part: Part)
    requires SitesExact(p, q, sites) && Allowed(q, false) && !part.InWhere? && ClauseOf(q, part).Some?
    ensures Everywhere(ClauseOf(q, part).value, Inert)
  {
    SitesLocated(p, q, sites);
    AllowedHasNoPlaceholders(q);
    var e := ClauseOf(q, part).value;
    forall path | At(e, path).Some?
      ensures Inert(At(e, path).value.kind)
    {
      var position := Position(part, path);
      assert !PlaceholderOf(q, position);
      NoSiteNoToken(p, q, sites, position);
    }
    AtEverywhere(e, Inert);
  }

  lemma {:induction false} EverywhereWeaker(e: Expr, p: Kind -> bool, q: Kind -> bool)
    requires Everywhere(e, p) && forall k: Kind :: p(k) ==> q(k)
    ensures Everywhere(e, q)
  {
    forall i | 0 <= i < |e.kids| {
      EverywhereWeaker(e.kids[i], p, q);
    }
  }

  lemma InertValue(fold: Fold, scope: seq<Binding>, eng: Engine, decrypt: Decryptor, parameters: map<string, Value>,
                   env: Env, count: Value, e: Expr)
    requires Everywhere(e, Inert)
    ensures Eval(eng, ReadingOf(fold, scope, CallerConstants(decrypt), env, count), e)
         == Eval(eng, ReadingOf(fold, scope, BoundConstants(parameters), env, count), e)
  {
    var r, s := ReadingOf(fold, scope, CallerConstants(decrypt), env, count),
        ReadingOf(fold, scope, BoundConstants(parameters), env, count);
    EverywhereWeaker(e, Inert, (k: Kind) => LeafValue(eng, r, k) == LeafValue(eng, s, k));
    SelfAlike(eng, r, s, e);
    EvalAlike(eng, r, s, e, e);
  }

  lemma BoundLeafAtSite(fold: Fold, scope: seq<Binding>, eng: Engine, decrypt: Decryptor,
                        parameters: map<string, Value>, env: Env, kind: Kind, name: string, v: Value)
    requires IsToken(kind) && decrypt(kind.text) == Ok(v) && name in parameters && parameters[name] == v
    ensures SameLeaf(eng, ReadingOf(fold, scope, CallerConstants(decrypt), env, Null),
                     ReadingOf(fold, scope, BoundConstants(parameters), env, Null),
                     kind, Placeholder(name))
  {
  }

  lemma InertLeaf(fold: Fold, scope: seq<Binding>, eng: Engine, decrypt: Decryptor, parameters: map<string, Value>,
                  env: Env, kind: Kind)
    requires Inert(kind)
    ensures SameLeaf(eng, ReadingOf(fold, scope, CallerConstants(decrypt), env, Null),
                     ReadingOf(fold, scope, BoundConstants(parameters), env, Null),
                     kind, kind)
  {
  }

  lemma SiteAt(p: PiiPolicy, q: Query, sites: seq<TokenSite>, path: Path) returns (k: nat)
    requires SitesExact(p, q, sites) && path in BindEdits(sites, |sites|)
    ensures k < |sites| && sites[k].literal == Position(InWhere, path)
    ensures BindEdits(sites, |sites|)[path] == Placeholder(BindName(k))
    ensures SiteReads(p, q, sites[k])
  {
    SitesLocated(p, q, sites);
    BindEditsHold(sites, |sites|);
    k :| k < |sites| && sites[k].literal.path == path;
  }

  lemma BoundLeaf(p: PiiPolicy, q: Query, sites: seq<TokenSite>, fold: Fold, scope: seq<Binding>, eng: Engine,
                  env: Env, path: Path)
    requires SitesExact(p, q, sites) && NoPlaceholders(q) && q.where_.Some? && At(q.where_.value, path).Some?
    ensures var edits, kind := BindEdits(sites, |sites|), At(q.where_.value, path).value.kind;
      SameLeaf(eng, ReadingOf(fold, scope, CallerConstants(p.decrypt), env, Null),
               ReadingOf(fold, scope, BoundConstants(BindParameters(sites, |sites|)), env, Null),
               kind, if path in edits then edits[path] else kind)
  {
    var position, kind := Position(InWhere, path), At(q.where_.value, path).value.kind;
    var parameters := BindParameters(sites, |sites|);
    if path in BindEdits(sites, |sites|) {
      var k := SiteAt(p, q, sites, path);
      BindParametersHold(sites, |sites|);
      BoundLeafAtSite(fold, scope, eng, p.decrypt, parameters, env, kind, BindName(k), sites[k].value);
    } else {
      UneditedIsInert(p, q, sites, path);
      InertLeaf(fold, scope, eng, p.decrypt, parameters, env, kind);
    }
  }

  lemma UneditedIsInert(p: PiiPolicy, q: Query, sites: seq<TokenSite>, path: Path)
    requires SitesExact(p, q, sites) && NoPlaceholders(q) && q.where_.Some? && At(q.where_.value, path).Some?
    requires path !in BindEdits(sites, |sites|)
    ensures Inert(At(q.where_.value, path).value.kind)
  {
    var position := Position(InWhere, path);
    SitesLocated(p, q, sites);
    NotASite(sites, path);
    NoSiteNoToken(p, q, sites, position);
    assert !PlaceholderOf(q, position);
  }

  lemma NotASite(sites: seq<TokenSite>, path: Path)
    requires DistinctSites(sites) && forall s :: 0 <= s < |sites| ==> sites[s].literal.part.InWhere?
    requires path !in BindEdits(sites, |sites|)
    ensures forall s :: 0 <= s < |sites| ==> sites[s].literal != Position(InWhere, path)
  {
    BindEditsHold(sites, |sites|);
  }

  lemma BoundWhere(p: PiiPolicy, q: Query, sites: seq<TokenSite>, fold: Fold, scope: seq<Binding>, eng: Engine,
                   env: Env)
    requires SitesExact(p, q, sites) && NoPlaceholders(q)
    ensures Holds(fold, scope, eng, CallerConstants(p.decrypt), q.where_, env)
         == Holds(fold, scope, eng, BoundConstants(BindParameters(sites, |sites|)), BindTokens(q, sites).where_, env)
  {
    if q.where_.Some? {
      var e, edits := q.where_.value, BindEdits(sites, |sites|);
      var r := ReadingOf(fold, scope, CallerConstants(p.decrypt), env, Null);
      var s := ReadingOf(fold, scope, BoundConstants(BindParameters(sites, |sites|)), env, Null);
      forall path | At(e, path).Some?
        ensures SameLeaf(eng, r, s, At(e, path).value.kind, if [] + path in edits then edits[[] + path]
                         else At(e, path).value.kind)
      {
        assert [] + path == path;
        BoundLeaf(p, q, sites, fold, scope, eng, env, path);
      }
      PatchAlike(eng, r, s, e, [], edits);
      EvalAlike(eng, r, s, e, Patch(e, [], edits));
    }
  }

  ghost predicate InertItems(ps: seq<Projection>) {
    forall i :: 0 <= i < |ps| && ps[i].Item? ==> Everywhere(ps[i].value, Inert)
  }

  lemma {:induction false} InertRow(fold: Fold, scope: seq<Binding>, eng: Engine, decrypt: Decryptor,
                                    parameters: map<string, Value>, env: Env, count: Value, ps: seq<Projection>)
    requires InertItems(ps)
    ensures RowCells(fold, scope, eng, ReadingOf(fold, scope, CallerConstants(decrypt), env, count), env, ps)
         == RowCells(fold, scope, eng, ReadingOf(fold, scope, BoundConstants(parameters), env, count), env, ps)
  {
    if ps != [] {
      InertRow(fold, scope, eng, decrypt, parameters, env, count, ps[1..]);
      if ps[0].Item? {
        InertValue(fold, scope, eng, decrypt, parameters, env, count, ps[0].value);
      }
    }
  }

  lemma InertKeys(fold: Fold, scope: seq<Binding>, eng: Engine, decrypt: Decryptor, parameters: map<string, Value>,
                  env: Env, q: Query, q': Query)
    requires InertItems(q.expressions) && forall k :: 0 <= k < |q.order| ==> Everywhere(q.order[k].target, Inert)
    requires q'.expressions == q.expressions && q'.order == q.order
    ensures SortKey(fold, scope, eng, CallerConstants(decrypt), q, env)
      == SortKey(fold, scope, eng, BoundConstants(parameters), q', env)
  {
    InertRow(fold, scope, eng, decrypt, parameters, env, Null, q.expressions);
    forall k | 0 <= k < |q.order| {
      InertValue(fold, scope, eng, decrypt, parameters, env, Null, q.order[k].target);
    }
  }

  /** Outside WHERE the query has neither tokens nor placeholders. */
  ghost predicate InertElsewhere(q: Query) {
    && InertItems(q.expressions)
    && (forall j :: 0 <= j < |q.joins| && q.joins[j].on.Some? ==> Everywhere(q.joins[j].on.value, Inert))
    && (forall k :: 0 <= k < |q.order| ==> Everywhere(q.order[k].target, Inert))
  }

  lemma TokensInWhere(p: PiiPolicy, q: Query, sites: seq<TokenSite>)
    requires SitesExact(p, q, sites) && Allowed(q, false)
    ensures InertElsewhere(q)
  {
    forall i | 0 <= i < |q.expressions| && q.expressions[i].Item?
      ensures Everywhere(q.expressions[i].value, Inert)
    {
      InertClause(p, q, sites, InProjection(i));
    }
    forall j | 0 <= j < |q.joins| && q.joins[j].on.Some?
      ensures Everywhere(q.joins[j].on.value, Inert)
    {
      InertClause(p, q, sites, InOn(j));
    }
    forall k | 0 <= k < |q.order|
      ensures Everywhere(q.order[k].target, Inert)
    {
      InertClause(p, q, sites, InOrder(k));
    }
  }

  lemma InertOn(fold: Fold, scope: seq<Binding>, eng: Engine, decrypt: Decryptor, parameters: map<string, Value>,
                env: Env, condition: Option<Expr>)
    requires condition.Some? ==> Everywhere(condition.value, Inert)
    ensures Holds(fold, scope, eng, CallerConstants(decrypt), condition, env)
      == Holds(fold, scope, eng, BoundConstants(parameters), condition, env)
  {
    if condition.Some? {
      InertValue(fold, scope, eng, decrypt, parameters, env, Null, condition.value);
    }
  }

  lemma InertPlansAgree(q: Query, q': Query, fold: Fold, scope: seq<Binding>, eng: Engine, decrypt: Decryptor,
                        parameters: map<string, Value>)
    requires Meant(q) && |scope| == TableCount(q) && InertElsewhere(q)
    requires q' == q.(where_ := q'.where_)
    requires forall env ::
      Holds(fold, scope, eng, CallerConstants(decrypt), q.where_, env) ==
      Holds(fold, scope, eng, BoundConstants(parameters), q'.where_, env)
    ensures var pa, pb := PlanOf(fold, scope, eng, CallerConstants(decrypt), q),
        PlanOf(fold, scope, eng, BoundConstants(parameters), q');
      PlansAgree(SameRows(scope), |scope|, pa, pb) && RowsAgree(SameRows(scope), |scope|, pa, pb, (x, y) => x == y)
        && pa.top == pb.top
  {
    var rel := SameRows(scope);
    var pa, pb := PlanOf(fold, scope, eng, CallerConstants(decrypt), q),
        PlanOf(fold, scope, eng, BoundConstants(parameters), q');
    forall j: nat, x, y | j < |q.joins| && EnvRel(rel, x, y)
      ensures pa.joins[j].on(x) == pb.joins[j].on(y)
    {
      SameRowsMeans(scope, x, y);
      InertOn(fold, scope, eng, decrypt, parameters, x, q.joins[j].on);
    }
    forall x, y | EnvRel(rel, x, y)
      ensures pa.keep(x) == pb.keep(y) && pa.key(x) == pb.key(y)
    {
      SameRowsMeans(scope, x, y);
      InertKeys(fold, scope, eng, decrypt, parameters, x, q, q');
    }
    forall x, y, count: nat | EnvRel(rel, x, y)
      ensures pa.row(x, count) == pb.row(y, count)
    {
      SameRowsMeans(scope, x, y);
      InertRow(fold, scope, eng, decrypt, parameters, x, Int(count), q.expressions);
    }
  }

  /** MAIN RESULT. The bound query with its parameters gives the rows of the analysed query in which
      every token is read as its decrypted value. */
  lemma BindingPreservesMeaning(p: PiiPolicy, q: Query, sites: seq<TokenSite>, fold: Fold, scope: seq<Binding>,
                                eng: Engine, tables: seq<seq<Row>>)
    requires SitesExact(p, q, sites) && Allowed(q, false)
    requires Meant(q) && |scope| == TableCount(q) && Populated(scope, tables)
    ensures TableCount(BindTokens(q, sites)) == TableCount(q) && Meant(BindTokens(q, sites))
    ensures Meaning(fold, scope, eng, CallerConstants(p.decrypt), tables, q)
         == Meaning(fold, scope, eng, BoundConstants(BindParameters(sites, |sites|)), tables, BindTokens(q, sites))
  {
    BoundOnlyWhere(p, q, sites, fold, scope, eng);
    InertMeaning(q, BindTokens(q, sites), fold, scope, eng, p.decrypt, BindParameters(sites, |sites|), tables);
  }

  /** Binding changes WHERE alone, and not when it holds. */
  lemma BoundOnlyWhere(p: PiiPolicy, q: Query, sites: seq<TokenSite>, fold: Fold, scope: seq<Binding>, eng: Engine)
    requires SitesExact(p, q, sites) && Allowed(q, false)
    ensures InertElsewhere(q) && BindTokens(q, sites) == q.(where_ := BindTokens(q, sites).where_)
    ensures forall env ::
      Holds(fold, scope, eng, CallerConstants(p.decrypt), q.where_, env) ==
      Holds(fold, scope, eng, BoundConstants(BindParameters(sites, |sites|)), BindTokens(q, sites).where_, env)
  {
    AllowedHasNoPlaceholders(q);
    TokensInWhere(p, q, sites);
    forall env {
      BoundWhere(p, q, sites, fold, scope, eng, env);
    }
  }

  lemma InertMeaning(q: Query, q': Query, fold: Fold, scope: seq<Binding>, eng: Engine, decrypt: Decryptor,
                     parameters: map<string, Value>, tables: seq<seq<Row>>)
    requires Meant(q) && |scope| == TableCount(q) && InertElsewhere(q) && Populated(scope, tables)
    requires q' == q.(where_ := q'.where_)
    requires forall env ::
      Holds(fold, scope, eng, CallerConstants(decrypt), q.where_, env) ==
      Holds(fold, scope, eng, BoundConstants(parameters), q'.where_, env)
    ensures TableCount(q') == TableCount(q) && Meant(q')
    ensures Meaning(fold, scope, eng, CallerConstants(decrypt), tables, q)
         == Meaning(fold, scope, eng, BoundConstants(parameters), tables, q')
  {
    InertPlansAgree(q, q', fold, scope, eng, decrypt, parameters);
    SameAnswers(fold, scope, eng, CallerConstants(decrypt), BoundConstants(parameters), tables, q, q');
  }

  lemma SameAnswers(fold: Fold, scope: seq<Binding>, eng: Engine, a: Constants, b: Constants, tables: seq<seq<Row>>,
                    q: Query, q': Query)
    requires Meant(q) && Meant(q') && |scope| == TableCount(q) == TableCount(q') && Populated(scope, tables)
    requires var p, p' := PlanOf(fold, scope, eng, a, q), PlanOf(fold, scope, eng, b, q');
      PlansAgree(SameRows(scope), |scope|, p, p') && RowsAgree(SameRows(scope), |scope|, p, p', (x, y) => x == y)
        && p.top == p'.top
    ensures Meaning(fold, scope, eng, a, tables, q) == Meaning(fold, scope, eng, b, tables, q')
  {
    var p, p' := PlanOf(fold, scope, eng, a, q), PlanOf(fold, scope, eng, b, q');
    AnswersAgree(SameRows(scope), p, p', tables, tables, Widths(scope), (x, y) => x == y);
    assert Answer(p, tables, Widths(scope)) == Answer(p', tables, Widths(scope));
  }

  // ----- The row cap

  function Top(q: Query): Option<nat> {
    if q.limit.Some? && q.limit.value.Rows? then Some(q.limit.value.count) else None
  }

  /** The limit of a query keeps the first of the rows it would have without one. */
  lemma LimitTakes(fold: Fold, scope: seq<Binding>, eng: Engine, consts: Constants, tables: seq<seq<Row>>, q: Query)
    requires |scope| == |tables| == TableCount(q) && Meant(q)
    ensures Meaning(fold, scope, eng, consts, tables, q)
         == Take(Meaning(fold, scope, eng, consts, tables, q.(limit := None)), Top(q))
  {
    var rel: RowRelation := (i: nat, a: Row, b: Row) => a == b;
    var p, u := PlanOf(fold, scope, eng, consts, q), PlanOf(fold, scope, eng, consts, q.(limit := None));
    forall x, y | EnvRel(rel, x, y)
      ensures x == y
    {
    }
    AnswersAgree(rel, p, u, tables, tables, Widths(scope), (x, y) => x == y);
    assert Output(p, Selected(p, tables), Widths(scope)) == Output(u, Selected(u, tables), Widths(scope));
  }
}
