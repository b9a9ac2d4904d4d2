/** The loops of `security/policy.py`, proved to decide what `Policy` specifies. */
module PolicyMethods {
  import opened Outcomes
  import opened Accumulation
  import opened Ast
  import opened Lineage
  import opened Policy

  /** The first matching rule decides; the rules before it did not match. */
  method DecideProtected(p: PiiPolicy, source: SourceColumn) returns (protected: bool)
    ensures protected == IsProtected(p, source)
  {
    var schema, table, column := p.fold(source.schema), p.fold(source.table), p.fold(source.column);
    var i := 0;
    while i < |p.rules|
      invariant 0 <= i <= |p.rules| && forall k :: 0 <= k < i ==> !RuleMatches(p, p.rules[k], source)
    {
      var rule := p.rules[i];
      if rule.database != "*" && p.fold(rule.database) != p.fold(p.database) {
        i := i + 1;
        continue;
      }
      if rule.schema.Some? && p.fold(rule.schema.value) != schema {
        i := i + 1;
        continue;
      }
      if p.glob(table, p.fold(rule.table)) && exists k :: 0 <= k < |rule.columns| && p.fold(rule.columns[k]) == column {
        assert RuleMatches(p, rule, source);
        return true;
      }
      i := i + 1;
    }
    return false;
  }

  method TokenSites(p: PiiPolicy, q: Query, refs: seq<ColumnRef>) returns (r: Result<seq<TokenSite>>)
    ensures r == SitesOf(p, q, refs)
  {
    var sites: seq<TokenSite> := [];
    var i := 0;
    AfterNone(SitesOf(p, q, refs));
    assert refs[0..] == refs;
    while i < |refs|
      invariant 0 <= i <= |refs|
      invariant SitesOf(p, q, refs) == After(sites, SitesOf(p, q, refs[i..]))
    {
      assert refs[i..][1..] == refs[i + 1..];
      var more: seq<TokenSite> := [];
      var protected := DecideProtected(p, refs[i].source);
      if protected {
        var found := CheckProtected(p, q, refs[i].node);
        if found.Rejected? {
          return found;
        }
        more := found.value;
      }
      AfterNext(sites, more, SitesOf(p, q, refs[i + 1..]));
      sites := sites + more;
      i := i + 1;
    }
    assert sites + [] == sites;
    return Ok(sites);
  }

  lemma ConsumedCover(tokens: seq<Position>, sites: seq<TokenSite>, consumed: set<Position>)
    requires forall x :: x in consumed ==> HasSite(sites, x)
    requires forall j :: 0 <= j < |tokens| ==> tokens[j] in consumed
    ensures Covered(tokens, sites)
  {
    forall i | 0 <= i < |tokens|
      ensures HasSite(sites, tokens[i])
    {
      assert tokens[i] in consumed;
    }
  }

  method AllCovered(tokens: seq<Position>, sites: seq<TokenSite>) returns (covered: bool)
    ensures covered == Covered(tokens, sites)
  {
    var consumed: set<Position> := {};
    var k := 0;
    while k < |sites|
      invariant 0 <= k <= |sites| && forall x :: x in consumed <==> exists j :: 0 <= j < k && sites[j].literal == x
    {
      consumed := consumed + {sites[k].literal};
      k := k + 1;
    }
    var i := 0;
    while i < |tokens|
      invariant 0 <= i <= |tokens| && forall j :: 0 <= j < i ==> tokens[j] in consumed
    {
      if tokens[i] !in consumed {
        return false;
      }
      i := i + 1;
    }
    ConsumedCover(tokens, sites, consumed);
    return true;
  }

  method FlagOutputs(p: PiiPolicy, outputs: seq<OutputColumn>) returns (protected: seq<bool>)
    ensures protected == Flags(p, outputs)
  {
    protected := [];
    var i := 0;
    while i < |outputs|
      invariant 0 <= i <= |outputs| && |protected| == i
      invariant forall j :: 0 <= j < i ==> protected[j] == Flags(p, outputs)[j]
    {
      var flag := false;
      if outputs[i].source.Some? {
        flag := DecideProtected(p, outputs[i].source.value);
      }
      protected := protected + [flag];
      i := i + 1;
    }
  }

  /** `PiiPolicy.evaluate`. */
  method EvaluatePolicy(p: PiiPolicy, a: AnalyzedQuery) returns (r: Result<PolicyDecision>)
    ensures r == Evaluate(p, a)
  {
    var sites := TokenSites(p, a.query, a.references);
    if sites.Rejected? {
      return Rejected(sites.reason);
    }
    var covered := AllCovered(TokensOf(a.query, Parts(a.query)), sites.value);
    if !covered {
      return Rejected(TokenOutsideProtected);
    }
    var protected := FlagOutputs(p, a.outputs);
    return Ok(PolicyDecision(protected, sites.value));
  }
}
