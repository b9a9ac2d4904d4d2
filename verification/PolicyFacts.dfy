/** What an accepted policy decision says: its token sites are exactly the token literals of the
    query, and protected columns stand only where a comparison with tokens can see them. */
module PolicyFacts {
  import opened Outcomes
  import opened Ast
  import opened Lineage
  import opened LineageComplete
  import opened Policy

  /** The literal at `position` is a token. */
  predicate TokenOf(q: Query, position: Position) {
    var clause := ClauseOf(q, position.part);
    clause.Some? && At(clause.value, position.path).Some? && IsToken(At(clause.value, position.path).value.kind)
  }

  lemma TokenPathsComplete(q: Query, part: Part)
    ensures forall position :: position in TokenPaths(part, ClauseOf(q, part)) <==>
      position.part == part && TokenOf(q, position)
  {
    var clause := ClauseOf(q, part);
    if clause.Some? {
      var paths := SelectPaths(Nodes(clause.value), IsToken);
      KindPathsComplete(clause.value, IsToken);
      forall position
        ensures position in TokenPaths(part, clause) <==> position.part == part && position.path in paths
      {
        if position.part == part && position.path in paths {
          var i :| 0 <= i < |paths| && paths[i] == position.path;
          assert TokenPaths(part, clause)[i] == position;
        }
      }
    }
  }

  lemma {:induction false} TokensOfParts(q: Query, parts: seq<Part>)
    ensures forall position :: position in TokensOf(q, parts) <==> position.part in parts && TokenOf(q, position)
  {
    if parts != [] {
      TokenPathsComplete(q, parts[0]);
      TokensOfParts(q, parts[1..]);
      assert parts == [parts[0]] + parts[1..];
    }
  }

  lemma PartsComplete(q: Query, part: Part)
    requires ClauseOf(q, part).Some?
    ensures part in Parts(q)
  {
    var e, j, k := |q.expressions|, |q.joins|, |q.order|;
    match part {
      case InProjection(i) => assert Parts(q)[i] == part;
      case InOn(i) => assert Parts(q)[e + i] == part;
      case InWhere => assert Parts(q)[e + j] == part;
      case InOrder(i) => assert Parts(q)[e + j + 1 + i] == part;
    }
  }

  // ----- Sites

  /** `site` is a token compared with the protected column at `node`. */
  ghost predicate SiteFor(p: PiiPolicy, q: Query, node: Position, site: TokenSite) {
    && node.part.InWhere? && site.literal.part.InWhere? && q.where_.Some?
    && node.path != [] && node.path[|node.path| - 1] == 0
    && site.literal.path != [] && site.literal.path[..|site.literal.path| - 1] == node.path[..|node.path| - 1]
    && At(q.where_.value, site.literal.path).Some?
    && var kind := At(q.where_.value, site.literal.path).value.kind;
      IsToken(kind) && p.decrypt(kind.text) == Ok(site.value)
  }

  lemma {:induction false} AtChild(e: Expr, path: Path, i: nat)
    requires At(e, path).Some?
    ensures At(e, path + [i]) == if i < |At(e, path).value.kids| then Some(At(e, path).value.kids[i]) else None
    decreases |path|
  {
    if path == [] {
      assert path + [i] == [i];
    } else {
      assert (path + [i])[1..] == path[1..] + [i];
      AtChild(e.kids[path[0]], path[1..], i);
    }
  }

  ghost predicate DistinctSites(sites: seq<TokenSite>) {
    forall i, j :: 0 <= i < j < |sites| ==> sites[i].literal != sites[j].literal
  }

  /** `site` is the token at child `k` of the node at `path`. */
  ghost predicate KidSite(p: PiiPolicy, path: Path, kids: seq<Expr>, k: nat, site: TokenSite) {
    && k < |kids| && IsToken(kids[k].kind)
    && site.literal == Position(InWhere, path + [k])
    && p.decrypt(kids[k].kind.text) == Ok(site.value)
  }

  lemma {:induction false} KidSitesPointwise(p: PiiPolicy, path: Path, kids: seq<Expr>, from: nat)
    requires from <= |kids| && KidSites(p, path, kids, from).Ok?
    ensures var sites := KidSites(p, path, kids, from).value;
      |sites| == |kids| - from && forall i :: 0 <= i < |sites| ==> KidSite(p, path, kids, from + i, sites[i])
    decreases |kids| - from
  {
    if from < |kids| {
      KidSitesPointwise(p, path, kids, from + 1);
      var sites, rest := KidSites(p, path, kids, from).value, KidSites(p, path, kids, from + 1).value;
      forall i | 0 < i < |sites|
        ensures KidSite(p, path, kids, from + i, sites[i])
      {
        assert sites[i] == rest[i - 1] && KidSite(p, path, kids, from + 1 + (i - 1), rest[i - 1]);
      }
    }
  }

  lemma KidSiteIsSite(p: PiiPolicy, q: Query, path: Path, kids: seq<Expr>, k: nat, site: TokenSite)
    requires KidSite(p, path, kids, k, site)
    requires q.where_.Some? && At(q.where_.value, path).Some? && At(q.where_.value, path).value.kids == kids
    ensures SiteFor(p, q, Position(InWhere, path + [0]), site)
  {
    AtChild(q.where_.value, path, k);
    assert (path + [k])[..|path + [k]| - 1] == path == (path + [0])[..|path + [0]| - 1];
  }

  lemma KidSitesDistinct(p: PiiPolicy, path: Path, kids: seq<Expr>, sites: seq<TokenSite>)
    requires forall i :: 0 <= i < |sites| ==> KidSite(p, path, kids, 1 + i, sites[i])
    ensures DistinctSites(sites)
  {
    forall i, j | 0 <= i < j < |sites|
      ensures sites[i].literal != sites[j].literal
    {
      assert KidSite(p, path, kids, 1 + i, sites[i]) && KidSite(p, path, kids, 1 + j, sites[j]);
      assert (path + [1 + i])[|path|] != (path + [1 + j])[|path|];
    }
  }

  lemma KidSitesMeans(p: PiiPolicy, q: Query, path: Path, kids: seq<Expr>)
    requires |kids| >= 1 && KidSites(p, path, kids, 1).Ok?
    requires q.where_.Some? && At(q.where_.value, path).Some? && At(q.where_.value, path).value.kids == kids
    ensures var sites := KidSites(p, path, kids, 1).value;
      && (forall k :: 1 <= k < |kids| ==> IsToken(kids[k].kind))
      && (forall i :: 0 <= i < |sites| ==> SiteFor(p, q, Position(InWhere, path + [0]), sites[i]))
      && DistinctSites(sites)
      && |sites| == |kids| - 1 && (forall k :: 1 <= k < |kids| ==>
                                   sites[k - 1].literal == Position(InWhere, path + [k]))
  {
    KidSitesPointwise(p, path, kids, 1);
    var sites := KidSites(p, path, kids, 1).value;
    KidSitesDistinct(p, path, kids, sites);
    forall i | 0 <= i < |sites|
      ensures SiteFor(p, q, Position(InWhere, path + [0]), sites[i])
    {
      KidSiteIsSite(p, q, path, kids, 1 + i, sites[i]);
    }
    forall k | 1 <= k < |kids|
      ensures IsToken(kids[k].kind) && sites[k - 1].literal == Position(InWhere, path + [k])
    {
      assert KidSite(p, path, kids, 1 + (k - 1), sites[k - 1]);
    }
  }

  /** A protected reference in an accepted query. */
  ghost predicate GuardedRef(q: Query, node: Position) {
    || (node.part.InProjection? && node.path == [])
    || (node.part.InWhere? && q.where_.Some? && node.path != [] && GuardedAt(q.where_.value, node.path))
  }

  /** The node at `path` is compared with tokens, and only with tokens. */
  ghost predicate GuardedAt(e: Expr, path: Path)
    requires path != []
  {
    var parent := At(e, path[..|path| - 1]);
    && parent.Some? && path[|path| - 1] == 0
    && ((parent.value.kind == Compare(EQ) && |parent.value.kids| == 2)
        || (parent.value.kind == In && |parent.value.kids| > 1))
    && forall k :: 1 <= k < |parent.value.kids| ==> IsToken(parent.value.kids[k].kind)
  }

  /** `sites` has one site for each value that the node is compared with, in order. */
  ghost predicate AllCompared(q: Query, node: Position, sites: seq<TokenSite>)
    requires node.path != [] && q.where_.Some?
  {
    var up := node.path[..|node.path| - 1];
    var parent := At(q.where_.value, up);
    && parent.Some? && |parent.value.kids| == |sites| + 1
    && forall k :: 1 <= k < |parent.value.kids| ==> sites[k - 1].literal == Position(InWhere, up + [k])
  }

  /** A protected column that is accepted is projected and has no sites, or it is compared in WHERE and
      its sites are the values that it is compared with, all of them tokens. */
  lemma CheckProtectedMeans(p: PiiPolicy, q: Query, node: Position)
    requires CheckProtected(p, q, node).Ok?
    ensures GuardedRef(q, node)
    ensures var sites := CheckProtected(p, q, node).value;
      && DistinctSites(sites) && (forall i :: 0 <= i < |sites| ==> SiteFor(p, q, node, sites[i]))
      && if node.part.InProjection? then sites == []
         else node.path != [] && q.where_.Some? && AllCompared(q, node, sites)
  {
    if !node.part.InProjection? {
      var up, child := node.path[..|node.path| - 1], node.path[|node.path| - 1];
      KidSitesMeans(p, q, up, At(q.where_.value, up).value.kids);
      assert node.path == up + [0];
    }
  }

  ghost predicate DistinctRefs(refs: seq<ColumnRef>) {
    forall i, j :: 0 <= i < j < |refs| ==> refs[i].node != refs[j].node
  }

  /** Different references contribute different sites. */
  lemma SitesApart(p: PiiPolicy, q: Query, a: Position, x: TokenSite, b: Position, y: TokenSite)
    requires SiteFor(p, q, a, x) && SiteFor(p, q, b, y) && a != b
    ensures x.literal != y.literal
  {
    assert a.path == a.path[..|a.path| - 1] + [0] && b.path == b.path[..|b.path| - 1] + [0];
  }

  ghost predicate SiteOfSome(p: PiiPolicy, q: Query, refs: seq<ColumnRef>, site: TokenSite) {
    exists i :: 0 <= i < |refs| && SiteFor(p, q, refs[i].node, site)
  }

  lemma {:induction false} SitesOfGuarded(p: PiiPolicy, q: Query, refs: seq<ColumnRef>)
    requires SitesOf(p, q, refs).Ok?
    ensures forall i :: 0 <= i < |refs| && IsProtected(p, refs[i].source) ==> GuardedRef(q, refs[i].node)
  {
    if refs != [] {
      SitesOfGuarded(p, q, refs[1..]);
      if IsProtected(p, refs[0].source) {
        CheckProtectedMeans(p, q, refs[0].node);
      }
    }
  }

  lemma RefSitesMeans(p: PiiPolicy, q: Query, ref: ColumnRef)
    requires RefSites(p, q, ref).Ok?
    ensures var sites := RefSites(p, q, ref).value;
      DistinctSites(sites) && forall i :: 0 <= i < |sites| ==> SiteFor(p, q, ref.node, sites[i])
  {
    if IsProtected(p, ref.source) {
      CheckProtectedMeans(p, q, ref.node);
    }
  }

  lemma {:induction false} SitesOfMeans(p: PiiPolicy, q: Query, refs: seq<ColumnRef>)
    requires SitesOf(p, q, refs).Ok? && DistinctRefs(refs)
    ensures var sites := SitesOf(p, q, refs).value;
      DistinctSites(sites) && forall s :: 0 <= s < |sites| ==> SiteOfSome(p, q, refs, sites[s])
  {
    if refs != [] {
      SitesOfMeans(p, q, refs[1..]);
      RefSitesMeans(p, q, refs[0]);
      var first, rest := RefSites(p, q, refs[0]).value, SitesOf(p, q, refs[1..]).value;
      forall t | 0 <= t < |rest|
        ensures SiteOfSome(p, q, refs, rest[t])
        ensures forall s :: 0 <= s < |first| ==> first[s].literal != rest[t].literal
      {
        var i :| 0 <= i < |refs[1..]| && SiteFor(p, q, refs[1..][i].node, rest[t]);
        assert refs[i + 1] == refs[1..][i];
        forall s | 0 <= s < |first|
          ensures first[s].literal != rest[t].literal
        {
          SitesApart(p, q, refs[0].node, first[s], refs[i + 1].node, rest[t]);
        }
      }
      forall s | 0 <= s < |first|
        ensures SiteOfSome(p, q, refs, first[s])
      {
        assert SiteFor(p, q, refs[0].node, first[s]);
      }
    }
  }

  /** The sites are the token literals of the query, each once, with their decrypted values. */
  ghost predicate SitesExact(p: PiiPolicy, q: Query, sites: seq<TokenSite>) {
    && DistinctSites(sites)
    && (forall position :: TokenOf(q, position) <==> exists s :: 0 <= s < |sites| && sites[s].literal == position)
    && (forall s :: 0 <= s < |sites| ==> SiteReads(p, q, sites[s]))
  }

  ghost predicate SiteReads(p: PiiPolicy, q: Query, site: TokenSite) {
    && site.literal.part.InWhere? && q.where_.Some?
    && At(q.where_.value, site.literal.path).Some?
    && var kind := At(q.where_.value, site.literal.path).value.kind;
      IsToken(kind) && p.decrypt(kind.text) == Ok(site.value)
  }

  /** MAIN RESULT. In an accepted decision the token sites are exactly the token literals of the
      query, each once, and every protected reference is projected or compared with tokens only. */
  lemma AcceptedDecision(p: PiiPolicy, a: AnalyzedQuery)
    requires Evaluate(p, a).Ok? && DistinctRefs(a.references)
    ensures SitesExact(p, a.query, Evaluate(p, a).value.sites)
    ensures forall i :: 0 <= i < |a.references| && IsProtected(p, a.references[i].source) ==>
      GuardedRef(a.query, a.references[i].node)
  {
    var q, sites := a.query, Evaluate(p, a).value.sites;
    var tokens := TokensOf(q, Parts(q));
    SitesOfGuarded(p, q, a.references);
    SitesOfMeans(p, q, a.references);
    TokensOfParts(q, Parts(q));
    forall position | TokenOf(q, position)
      ensures exists s :: 0 <= s < |sites| && sites[s].literal == position
    {
      PartsComplete(q, position.part);
      var i :| 0 <= i < |tokens| && tokens[i] == position;
    }
    forall s | 0 <= s < |sites|
      ensures SiteReads(p, q, sites[s]) && TokenOf(q, sites[s].literal)
    {
      assert SiteOfSome(p, q, a.references, sites[s]);
    }
  }

  // ----- Exactly what is accepted

  /** Every token that the column at `node` is compared with can be decrypted. */
  ghost predicate TokensRead(p: PiiPolicy, q: Query, node: Position) {
    node.part.InWhere? && q.where_.Some? && node.path != [] ==>
      var parent := At(q.where_.value, node.path[..|node.path| - 1]);
      parent.Some? ==>
        forall k :: 1 <= k < |parent.value.kids| && IsToken(parent.value.kids[k].kind) ==>
          p.decrypt(parent.value.kids[k].kind.text).Ok?
  }

  lemma {:induction false} KidSitesAccept(p: PiiPolicy, path: Path, kids: seq<Expr>, from: nat)
    requires from <= |kids|
    ensures KidSites(p, path, kids, from).Ok? <==>
      forall k :: from <= k < |kids| ==> IsToken(kids[k].kind) && p.decrypt(kids[k].kind.text).Ok?
    decreases |kids| - from
  {
    if from < |kids| {
      KidSitesAccept(p, path, kids, from + 1);
    }
  }

  /** A protected column is accepted exactly where it is projected, or compared by `=` or `IN` with tokens
      alone that decrypt. */
  lemma CheckProtectedAccepts(p: PiiPolicy, q: Query, node: Position)
    ensures CheckProtected(p, q, node).Ok? <==> GuardedRef(q, node) && TokensRead(p, q, node)
  {
    if node.part.InWhere? && node.path != [] && q.where_.Some? {
      var up := node.path[..|node.path| - 1];
      var parent := At(q.where_.value, up);
      if parent.Some? && parent.value.kids != [] {
        KidSitesAccept(p, up, parent.value.kids, 1);
      }
    }
  }

  lemma {:induction false} SitesOfAccept(p: PiiPolicy, q: Query, refs: seq<ColumnRef>)
    ensures SitesOf(p, q, refs).Ok? <==>
      forall i :: 0 <= i < |refs| && IsProtected(p, refs[i].source) ==>
        GuardedRef(q, refs[i].node) && TokensRead(p, q, refs[i].node)
  {
    if refs != [] {
      SitesOfAccept(p, q, refs[1..]);
      CheckProtectedAccepts(p, q, refs[0].node);
      assert forall i :: 1 <= i < |refs| ==> refs[i] == refs[1..][i - 1];
    }
  }

  /** The literal at `position` is on the right of the comparison whose left side is `node`. */
  predicate ComparedWith(node: Position, position: Position) {
    && node.part.InWhere? && position.part.InWhere? && node.path != [] && position.path != []
    && node.path[..|node.path| - 1] == position.path[..|position.path| - 1]
    && position.path[|position.path| - 1] >= 1
  }

  /** Some protected column of the query is compared with the literal at `position`. */
  ghost predicate Accounted(p: PiiPolicy, a: AnalyzedQuery, position: Position) {
    exists i :: 0 <= i < |a.references| && IsProtected(p, a.references[i].source)
      && ComparedWith(a.references[i].node, position)
  }

  lemma {:induction false} SitesOfHas(p: PiiPolicy, q: Query, refs: seq<ColumnRef>, position: Position)
    requires SitesOf(p, q, refs).Ok? && TokenOf(q, position)
    ensures (exists s :: 0 <= s < |SitesOf(p, q, refs).value| && SitesOf(p, q, refs).value[s].literal == position) <==>
      exists i :: 0 <= i < |refs| && IsProtected(p, refs[i].source) && ComparedWith(refs[i].node, position)
  {
    if refs != [] {
      SitesOfHas(p, q, refs[1..], position);
      RefSitesHas(p, q, refs[0], position);
      var first, rest := RefSites(p, q, refs[0]).value, SitesOf(p, q, refs[1..]).value;
      assert SitesOf(p, q, refs).value == first + rest;
      assert forall i :: 1 <= i < |refs| ==> refs[i] == refs[1..][i - 1];
      if s :| 0 <= s < |rest| && rest[s].literal == position {
        assert (first + rest)[|first| + s].literal == position;
      }
      if s :| 0 <= s < |first| && first[s].literal == position {
        assert (first + rest)[s].literal == position;
      }
    }
  }

  lemma RefSitesHas(p: PiiPolicy, q: Query, ref: ColumnRef, position: Position)
    requires RefSites(p, q, ref).Ok? && TokenOf(q, position)
    ensures (exists s :: 0 <= s < |RefSites(p, q, ref).value| && RefSites(p, q, ref).value[s].literal == position) <==>
      IsProtected(p, ref.source) && ComparedWith(ref.node, position)
  {
    if IsProtected(p, ref.source) {
      CheckProtectedMeans(p, q, ref.node);
      var sites := RefSites(p, q, ref).value;
      if ref.node.part.InWhere? {
        var up := ref.node.path[..|ref.node.path| - 1];
        if ComparedWith(ref.node, position) {
          var k := position.path[|position.path| - 1];
          assert position.path == up + [k];
          AtChild(q.where_.value, up, k);
          assert sites[k - 1].literal == position;
        }
        if s :| 0 <= s < |sites| && sites[s].literal == position {
          assert position == Position(InWhere, up + [s + 1]);
          assert position.path[..|position.path| - 1] == up;
        }
      }
    }
  }

  /** Protected references are guarded by tokens that decrypt, and no token stands anywhere else. */
  ghost predicate PolicyAccepts(p: PiiPolicy, a: AnalyzedQuery) {
    && (forall i :: 0 <= i < |a.references| && IsProtected(p, a.references[i].source) ==>
          GuardedRef(a.query, a.references[i].node) && TokensRead(p, a.query, a.references[i].node))
    && (forall position :: TokenOf(a.query, position) ==> Accounted(p, a, position))
  }

  /** MAIN RESULT. The policy accepts a query exactly when every protected reference is projected or
      compared with tokens alone, each of these tokens decrypts, and every token of the query is
      compared with a protected column; the outputs it marks are those of protected sources. */
  lemma DecisionExactly(p: PiiPolicy, a: AnalyzedQuery)
    ensures Evaluate(p, a).Ok? <==> PolicyAccepts(p, a)
    ensures Evaluate(p, a).Ok? ==>
      var protected := Evaluate(p, a).value.protected;
      |protected| == |a.outputs| && forall i :: 0 <= i < |protected| ==>
        (protected[i] <==> a.outputs[i].source.Some? && IsProtected(p, a.outputs[i].source.value))
  {
    var q := a.query;
    var tokens := TokensOf(q, Parts(q));
    SitesOfAccept(p, q, a.references);
    TokensOfParts(q, Parts(q));
    if SitesOf(p, q, a.references).Ok? {
      forall position | TokenOf(q, position)
        ensures position in tokens
        ensures Accounted(p, a, position) <==> Covered([position], SitesOf(p, q, a.references).value)
      {
        PartsComplete(q, position.part);
        SitesOfHas(p, q, a.references, position);
        assert [position][0] == position;
      }
      CoveredEach(tokens, SitesOf(p, q, a.references).value);
    }
  }

  lemma CoveredEach(tokens: seq<Position>, sites: seq<TokenSite>)
    ensures Covered(tokens, sites) <==> forall position :: position in tokens ==> Covered([position], sites)
  {
    if Covered(tokens, sites) {
      forall position | position in tokens
        ensures Covered([position], sites)
      {
        var i :| 0 <= i < |tokens| && tokens[i] == position;
      }
    }
    if forall position :: position in tokens ==> Covered([position], sites) {
      forall i | 0 <= i < |tokens|
        ensures HasSite(sites, tokens[i])
      {
        assert tokens[i] in tokens && [tokens[i]][0] == tokens[i];
      }
    }
  }
}
