/** Replacing the token literals by binds is a bijection between tokens and placeholders, and the
    bound query means the analysed query with each token read as the value it stands for. */
module BindFacts {
  import opened Ast
  import opened Sequences
  import opened LineageComplete
  import opened Policy
  import opened PolicyFacts
  import opened Issue

  // ----- Edits and parameters

  lemma BindNameInjective(j: nat, k: nat)
    requires BindName(j) == BindName(k)
    ensures j == k
  {
    assert BindName(j)[4..] == Numeral(j) && BindName(k)[4..] == Numeral(k);
    NumeralInjective(j, k);
  }

  lemma {:induction false} BindParametersHold(sites: seq<TokenSite>, n: nat)
    requires n <= |sites|
    ensures forall k: nat :: BindName(k) in BindParameters(sites, n) <==> k < n
    ensures forall k: nat :: k < n ==> BindParameters(sites, n)[BindName(k)] == sites[k].value
  {
    if n > 0 {
      BindParametersHold(sites, n - 1);
      forall k: nat | BindName(k) == BindName(n - 1)
        ensures k == n - 1
      {
        BindNameInjective(k, n - 1);
      }
    }
  }

  lemma {:induction false} BindEditsHold(sites: seq<TokenSite>, n: nat)
    requires n <= |sites| && DistinctSites(sites) && forall s :: 0 <= s < |sites| ==> sites[s].literal.part.InWhere?
    ensures forall path :: path in BindEdits(sites, n) <==> exists k: nat :: k < n && sites[k].literal.path == path
    ensures forall k: nat :: k < n ==> sites[k].literal.path in BindEdits(sites, n)
                                       && BindEdits(sites, n)[sites[k].literal.path] == Placeholder(BindName(k))
  {
    if n > 0 {
      BindEditsHold(sites, n - 1);
      assert BindEdits(sites, n)
        == BindEdits(sites, n - 1)[sites[n - 1].literal.path := Placeholder(BindName(n - 1))];
      forall k: nat | k < n - 1
        ensures sites[k].literal.path != sites[n - 1].literal.path
      {
        assert sites[k].literal != sites[n - 1].literal;
      }
    }
  }

  /** The literal at the site of number `k` is the placeholder of number `k`, and everything else in
      WHERE is as it was. */
  lemma BoundAt(q: Query, sites: seq<TokenSite>, path: Path)
    requires q.where_.Some? && DistinctSites(sites) && forall s :: 0 <= s < |sites| ==> sites[s].literal.part.InWhere?
    ensures At(BindTokens(q, sites).where_.value, path).Some? <==> At(q.where_.value, path).Some?
    ensures At(q.where_.value, path).Some? ==>
      At(BindTokens(q, sites).where_.value, path).value.kind ==
      if path in BindEdits(sites, |sites|) then BindEdits(sites, |sites|)[path] else At(q.where_.value, path).value.kind
  {
    AtPatch(q.where_.value, [], BindEdits(sites, |sites|), path);
    assert [] + path == path;
  }

  predicate PlaceholderOf(q: Query, position: Position) {
    var clause := ClauseOf(q, position.part);
    clause.Some? && At(clause.value, position.path).Some? && At(clause.value, position.path).value.kind.Placeholder?
  }

  ghost predicate NoPlaceholders(q: Query) {
    forall position :: !PlaceholderOf(q, position)
  }

  function KindAtPosition(q: Query, position: Position): Kind {
    var clause := ClauseOf(q, position.part);
    if clause.Some? && At(clause.value, position.path).Some? then At(clause.value, position.path).value.kind
      else NullLiteral
  }

  /** Each site is a node of WHERE. */
  ghost predicate Located(q: Query, sites: seq<TokenSite>) {
    forall s :: 0 <= s < |sites| ==>
      sites[s].literal.part.InWhere? && q.where_.Some? && At(q.where_.value, sites[s].literal.path).Some?
  }

  lemma SitesLocated(p: PiiPolicy, q: Query, sites: seq<TokenSite>)
    requires SitesExact(p, q, sites)
    ensures Located(q, sites)
  {
    forall s | 0 <= s < |sites|
      ensures sites[s].literal.part.InWhere? && q.where_.Some? && At(q.where_.value, sites[s].literal.path).Some?
    {
      assert SiteReads(p, q, sites[s]);
    }
  }

  lemma BoundElsewhere(p: PiiPolicy, q: Query, sites: seq<TokenSite>, position: Position)
    requires SitesExact(p, q, sites) && !PlaceholderOf(q, position) && !TokenOf(q, position)
    ensures !TokenOf(BindTokens(q, sites), position) && !PlaceholderOf(BindTokens(q, sites), position)
  {
    SitesLocated(p, q, sites);
    if position.part.InWhere? && q.where_.Some? {
      BindEditsHold(sites, |sites|);
      BoundAt(q, sites, position.path);
      assert forall s :: 0 <= s < |sites| ==> sites[s].literal != position;
    } else {
      assert ClauseOf(BindTokens(q, sites), position.part) == ClauseOf(q, position.part);
    }
  }

  lemma BoundSite(q: Query, sites: seq<TokenSite>, k: nat)
    requires DistinctSites(sites) && Located(q, sites) && k < |sites|
    ensures KindAtPosition(BindTokens(q, sites), sites[k].literal) == Placeholder(BindName(k))
    ensures PlaceholderOf(BindTokens(q, sites), sites[k].literal)
  {
    BindEditsHold(sites, |sites|);
    BoundAt(q, sites, sites[k].literal.path);
  }

  /** MAIN RESULT. After the rewrite no token remains, the placeholders are exactly the token sites,
      each under its own name, and the parameter of that name is the value of the token. */
  lemma BindingIsABijection(p: PiiPolicy, q: Query, sites: seq<TokenSite>)
    requires SitesExact(p, q, sites) && NoPlaceholders(q)
    ensures var bound, parameters := BindTokens(q, sites), BindParameters(sites, |sites|);
      && (forall position :: !TokenOf(bound, position))
      && (forall position :: PlaceholderOf(bound, position) <==> TokenOf(q, position))
      && (forall k: nat :: k < |sites| ==>
            && KindAtPosition(bound, sites[k].literal) == Placeholder(BindName(k))
            && BindName(k) in parameters && parameters[BindName(k)] == sites[k].value)
      && (forall j: nat, k: nat :: BindName(j) == BindName(k) ==> j == k)
  {
    SitesLocated(p, q, sites);
    BindParametersHold(sites, |sites|);
    forall j: nat, k: nat | BindName(j) == BindName(k) {
      BindNameInjective(j, k);
    }
    forall position
      ensures !TokenOf(BindTokens(q, sites), position)
      ensures PlaceholderOf(BindTokens(q, sites), position) <==> TokenOf(q, position)
    {
      assert !PlaceholderOf(q, position);
      if TokenOf(q, position) {
        var k :| 0 <= k < |sites| && sites[k].literal == position;
        BoundSite(q, sites, k);
      } else {
        BoundElsewhere(p, q, sites, position);
      }
    }
    forall k: nat | k < |sites| {
      BoundSite(q, sites, k);
    }
  }
}
