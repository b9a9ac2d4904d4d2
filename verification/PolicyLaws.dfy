/** What the configured rules protect, as laws between policies: which rules of a configuration speak of
    this database, what a rule without a schema stands for, and that neither the spelling of a name nor
    the order of the rules matters. */
module PolicyLaws {
  import opened Outcomes
  import opened Ast
  import opened Lineage
  import opened Policy
  import opened PolicyFacts

  /** The policy of the same server with other rules. */
  function WithRules(p: PiiPolicy, rules: seq<PiiRule>): PiiPolicy {
    p.(rules := rules)
  }

  /** What `rule` protects where it is the only one. */
  predicate ProtectsAlone(p: PiiPolicy, rule: PiiRule, source: SourceColumn) {
    IsProtected(WithRules(p, [rule]), source)
  }

  // ----- Rules add up

  /** A list of rules protects what one of its parts protects; so more rules never protect less, and
      their order does not matter. */
  lemma RulesAddUp(p: PiiPolicy, a: seq<PiiRule>, b: seq<PiiRule>, source: SourceColumn)
    ensures IsProtected(WithRules(p, a + b), source) <==>
      IsProtected(WithRules(p, a), source) || IsProtected(WithRules(p, b), source)
  {
    if i :| 0 <= i < |a| && RuleMatches(WithRules(p, a), a[i], source) {
      assert (a + b)[i] == a[i] && RuleMatches(WithRules(p, a + b), (a + b)[i], source);
    }
    if i :| 0 <= i < |b| && RuleMatches(WithRules(p, b), b[i], source) {
      assert (a + b)[|a| + i] == b[i] && RuleMatches(WithRules(p, a + b), (a + b)[|a| + i], source);
    }
    if i :| 0 <= i < |a + b| && RuleMatches(WithRules(p, a + b), (a + b)[i], source) {
      if i < |a| {
        assert RuleMatches(WithRules(p, a), a[i], source);
      } else {
        assert RuleMatches(WithRules(p, b), b[i - |a|], source);
      }
    }
  }

  /** Among other rules, a rule contributes what it protects alone. */
  lemma RuleAmongOthers(p: PiiPolicy, before: seq<PiiRule>, rule: PiiRule, after: seq<PiiRule>, source: SourceColumn)
    ensures IsProtected(WithRules(p, before + [rule] + after), source) <==>
      IsProtected(WithRules(p, before + after), source) || ProtectsAlone(p, rule, source)
  {
    RulesAddUp(p, before + [rule], after, source);
    RulesAddUp(p, before, [rule], source);
    RulesAddUp(p, before, after, source);
  }

  // ----- One rule

  /** A rule for every database and schema protects exactly the columns it lists of the tables that its
      pattern matches. */
  lemma ListedColumnsAreProtected(p: PiiPolicy, rule: PiiRule, source: SourceColumn)
    requires rule.database == "*" && rule.schema.None?
    ensures ProtectsAlone(p, rule, source) <==>
      && p.glob(p.fold(source.table), p.fold(rule.table))
      && exists column :: column in rule.columns && p.fold(column) == p.fold(source.column)
  {
    var q := WithRules(p, [rule]);
    assert ProtectsAlone(p, rule, source) <==> RuleMatches(q, q.rules[0], source);
    if column :| column in rule.columns && p.fold(column) == p.fold(source.column) {
      var i :| 0 <= i < |rule.columns| && rule.columns[i] == column;
    }
  }

  /** A rule for the database of the server protects what the same rule for every database does. */
  lemma OwnDatabaseIsAny(p: PiiPolicy, rule: PiiRule, source: SourceColumn)
    requires p.fold(rule.database) == p.fold(p.database)
    ensures ProtectsAlone(p, rule, source) <==> ProtectsAlone(p, rule.(database := "*"), source)
  {
    var any := rule.(database := "*");
    var q, r := WithRules(p, [rule]), WithRules(p, [any]);
    assert RuleMatches(q, q.rules[0], source) <==> RuleMatches(r, r.rules[0], source);
  }

  /** A rule for another database protects nothing here. */
  lemma OtherDatabaseProtectsNothing(p: PiiPolicy, rule: PiiRule, source: SourceColumn)
    requires rule.database != "*" && p.fold(rule.database) != p.fold(p.database)
    ensures !ProtectsAlone(p, rule, source)
  {
  }

  /** A rule without a schema protects what the same rule with the schema of the source does. */
  lemma NoSchemaIsTheSourceSchema(p: PiiPolicy, rule: PiiRule, source: SourceColumn, schema: string)
    requires p.fold(schema) == p.fold(source.schema)
    ensures ProtectsAlone(p, rule.(schema := None), source) <==> ProtectsAlone(p, rule.(schema := Some(schema)), source)
  {
    var q, r := WithRules(p, [rule.(schema := None)]), WithRules(p, [rule.(schema := Some(schema))]);
    assert RuleMatches(q, q.rules[0], source) <==> RuleMatches(r, r.rules[0], source);
  }

  lemma OtherSchemaProtectsNothing(p: PiiPolicy, rule: PiiRule, source: SourceColumn)
    requires rule.schema.Some? && p.fold(rule.schema.value) != p.fold(source.schema)
    ensures !ProtectsAlone(p, rule, source)
  {
  }

  // ----- Spelling

  ghost predicate SameNames(p: PiiPolicy, a: seq<string>, b: seq<string>) {
    |a| == |b| && forall i :: 0 <= i < |a| ==> p.fold(a[i]) == p.fold(b[i])
  }

  /** The rules differ in spelling only; `*` is not a name. */
  ghost predicate SameRule(p: PiiPolicy, a: PiiRule, b: PiiRule) {
    && (a.database == "*" <==> b.database == "*") && p.fold(a.database) == p.fold(b.database)
    && (a.schema.Some? <==> b.schema.Some?) && (a.schema.Some? ==> p.fold(a.schema.value) == p.fold(b.schema.value))
    && p.fold(a.table) == p.fold(b.table) && SameNames(p, a.columns, b.columns)
  }

  ghost predicate SameRules(p: PiiPolicy, a: seq<PiiRule>, b: seq<PiiRule>) {
    |a| == |b| && forall i :: 0 <= i < |a| ==> SameRule(p, a[i], b[i])
  }

  ghost predicate SameSource(p: PiiPolicy, a: SourceColumn, b: SourceColumn) {
    p.fold(a.schema) == p.fold(b.schema) && p.fold(a.table) == p.fold(b.table) && p.fold(a.column) == p.fold(b.column)
  }

  /** The policies are for one database and have the same rules, but for spelling. */
  ghost predicate SamePolicy(p: PiiPolicy, q: PiiPolicy) {
    && q == p.(database := q.database, rules := q.rules)
    && p.fold(p.database) == p.fold(q.database) && SameRules(p, p.rules, q.rules)
  }

  lemma MatchIgnoresSpelling(p: PiiPolicy, q: PiiPolicy, i: nat, a: SourceColumn, b: SourceColumn)
    requires SamePolicy(p, q) && SameSource(p, a, b) && i < |p.rules|
    ensures RuleMatches(p, p.rules[i], a) <==> RuleMatches(q, q.rules[i], b)
  {
    var r, s := p.rules[i], q.rules[i];
    assert SameRule(p, r, s) && SameNames(p, r.columns, s.columns);
    assert forall k :: 0 <= k < |r.columns| ==>
      (p.fold(r.columns[k]) == p.fold(a.column) <==> p.fold(s.columns[k]) == p.fold(b.column));
  }

  /** The spelling of the rules, of the database and of the source does not matter. */
  lemma ProtectionIgnoresSpelling(p: PiiPolicy, q: PiiPolicy, a: SourceColumn, b: SourceColumn)
    requires SamePolicy(p, q) && SameSource(p, a, b)
    ensures IsProtected(p, a) <==> IsProtected(q, b)
  {
    forall i | 0 <= i < |p.rules|
      ensures RuleMatches(p, p.rules[i], a) <==> RuleMatches(q, q.rules[i], b)
    {
      MatchIgnoresSpelling(p, q, i, a, b);
    }
  }

  // ----- Decisions

  /** The policies protect the same of what the query reads and returns. */
  ghost predicate ProtectAlike(p: PiiPolicy, q: PiiPolicy, a: AnalyzedQuery) {
    && p.decrypt == q.decrypt
    && (forall i :: 0 <= i < |a.references| ==>
          (IsProtected(p, a.references[i].source) <==> IsProtected(q, a.references[i].source)))
    && (forall i :: 0 <= i < |a.outputs| && a.outputs[i].source.Some? ==>
          (IsProtected(p, a.outputs[i].source.value) <==> IsProtected(q, a.outputs[i].source.value)))
  }

  lemma {:induction false} SitesAlike(p: PiiPolicy, q: PiiPolicy, query: Query, refs: seq<ColumnRef>)
    requires p.decrypt == q.decrypt
    requires forall i :: 0 <= i < |refs| ==> (IsProtected(p, refs[i].source) <==> IsProtected(q, refs[i].source))
    ensures SitesOf(p, query, refs) == SitesOf(q, query, refs)
  {
    if refs != [] {
      SitesAlike(p, q, query, refs[1..]);
      CheckAlike(p, q, query, refs[0].node);
    }
  }

  lemma CheckAlike(p: PiiPolicy, q: PiiPolicy, query: Query, node: Position)
    requires p.decrypt == q.decrypt
    ensures CheckProtected(p, query, node) == CheckProtected(q, query, node)
  {
    if node.path != [] && query.where_.Some? {
      var up := At(query.where_.value, node.path[..|node.path| - 1]);
      if up.Some? && up.value.kids != [] {
        KidSitesAlike(p, q, node.path[..|node.path| - 1], up.value.kids, 1);
      }
    }
  }

  lemma {:induction false} KidSitesAlike(p: PiiPolicy, q: PiiPolicy, path: Path, kids: seq<Expr>, from: nat)
    requires p.decrypt == q.decrypt && from <= |kids|
    ensures KidSites(p, path, kids, from) == KidSites(q, path, kids, from)
    decreases |kids| - from
  {
    if from < |kids| {
      KidSitesAlike(p, q, path, kids, from + 1);
    }
  }

  /** Policies that protect the same decide the same. */
  lemma DecisionsAlike(p: PiiPolicy, q: PiiPolicy, a: AnalyzedQuery)
    requires ProtectAlike(p, q, a)
    ensures Evaluate(p, a) == Evaluate(q, a)
  {
    SitesAlike(p, q, a.query, a.references);
    assert Flags(p, a.outputs) == Flags(q, a.outputs);
  }

  /** A rule that protects nothing the query reads or returns. */
  ghost predicate Idle(p: PiiPolicy, rule: PiiRule, a: AnalyzedQuery) {
    || (rule.database != "*" && p.fold(rule.database) != p.fold(p.database))
    || (rule.schema.Some?
        && (forall i :: 0 <= i < |a.references| ==>
              p.fold(rule.schema.value) != p.fold(a.references[i].source.schema))
        && (forall i :: 0 <= i < |a.outputs| && a.outputs[i].source.Some? ==>
              p.fold(rule.schema.value) != p.fold(a.outputs[i].source.value.schema)))
  }

  /** MAIN RESULT. A rule for another database, or for a schema that the query does not touch, can be
      removed without changing the decision on the query, its refusals included. */
  lemma IdleRulesCanGo(p: PiiPolicy, before: seq<PiiRule>, rule: PiiRule, after: seq<PiiRule>, a: AnalyzedQuery)
    requires Idle(p, rule, a)
    ensures Evaluate(WithRules(p, before + [rule] + after), a) == Evaluate(WithRules(p, before + after), a)
  {
    var q, r := WithRules(p, before + [rule] + after), WithRules(p, before + after);
    forall i | 0 <= i < |a.references|
      ensures IsProtected(q, a.references[i].source) <==> IsProtected(r, a.references[i].source)
    {
      RuleAmongOthers(p, before, rule, after, a.references[i].source);
      IdleProtectsNothing(p, rule, a.references[i].source);
    }
    forall i | 0 <= i < |a.outputs| && a.outputs[i].source.Some?
      ensures IsProtected(q, a.outputs[i].source.value) <==> IsProtected(r, a.outputs[i].source.value)
    {
      RuleAmongOthers(p, before, rule, after, a.outputs[i].source.value);
      IdleProtectsNothing(p, rule, a.outputs[i].source.value);
    }
    DecisionsAlike(q, r, a);
  }

  lemma IdleProtectsNothing(p: PiiPolicy, rule: PiiRule, source: SourceColumn)
    ensures rule.database != "*" && p.fold(rule.database) != p.fold(p.database) ==> !ProtectsAlone(p, rule, source)
    ensures rule.schema.Some? && p.fold(rule.schema.value) != p.fold(source.schema) ==> !ProtectsAlone(p, rule, source)
  {
  }

  /** MAIN RESULT. Neither the spelling of the configuration nor that of the server's database changes a
      decision. */
  lemma DecisionIgnoresSpelling(p: PiiPolicy, q: PiiPolicy, a: AnalyzedQuery)
    requires SamePolicy(p, q)
    ensures Evaluate(p, a) == Evaluate(q, a)
  {
    forall source: SourceColumn
      ensures IsProtected(p, source) <==> IsProtected(q, source)
    {
      ProtectionIgnoresSpelling(p, q, source, source);
    }
    DecisionsAlike(p, q, a);
  }

  /** A configuration protects what some rule of it protects alone. */
  lemma SomeRuleProtects(p: PiiPolicy, source: SourceColumn)
    ensures IsProtected(p, source) <==> exists rule :: rule in p.rules && ProtectsAlone(p, rule, source)
  {
    if i :| 0 <= i < |p.rules| && RuleMatches(p, p.rules[i], source) {
      var rule := p.rules[i];
      var q := WithRules(p, [rule]);
      assert RuleMatches(q, q.rules[0], source);
      assert rule in p.rules && ProtectsAlone(p, rule, source);
    }
    if rule :| rule in p.rules && ProtectsAlone(p, rule, source) {
      var i :| 0 <= i < |p.rules| && p.rules[i] == rule;
      var q := WithRules(p, [rule]);
      assert RuleMatches(q, q.rules[0], source);
      assert RuleMatches(p, p.rules[i], source);
    }
  }

  /** MAIN RESULT. Let a rule be for this database or for all, and for this schema or for all. In every
      accepted decision the columns it lists of the tables it matches are protected outputs, and are read
      only where they are projected or compared with tokens. */
  lemma ListedColumnsAreGuarded(p: PiiPolicy, rule: PiiRule, column: string, a: AnalyzedQuery)
    requires rule in p.rules && Evaluate(p, a).Ok? && DistinctRefs(a.references)
    requires rule.database == "*" || p.fold(rule.database) == p.fold(p.database)
    requires column in rule.columns
    ensures forall i ::
      0 <= i < |a.outputs| && a.outputs[i].source.Some? && Spoken(p, rule, column, a.outputs[i].source.value) ==>
      Evaluate(p, a).value.protected[i]
    ensures forall i :: 0 <= i < |a.references| && Spoken(p, rule, column, a.references[i].source) ==>
              GuardedRef(a.query, a.references[i].node)
  {
    AcceptedDecision(p, a);
    forall source | Spoken(p, rule, column, source)
      ensures IsProtected(p, source)
    {
      SpokenIsProtected(p, rule, column, source);
    }
  }

  /** The source is the column of that name in a table and schema that the rule is for. */
  predicate Spoken(p: PiiPolicy, rule: PiiRule, column: string, source: SourceColumn) {
    && (rule.schema.None? || p.fold(rule.schema.value) == p.fold(source.schema))
    && p.glob(p.fold(source.table), p.fold(rule.table)) && p.fold(column) == p.fold(source.column)
  }

  lemma SpokenIsProtected(p: PiiPolicy, rule: PiiRule, column: string, source: SourceColumn)
    requires rule in p.rules && column in rule.columns && Spoken(p, rule, column, source)
    requires rule.database == "*" || p.fold(rule.database) == p.fold(p.database)
    ensures IsProtected(p, source)
  {
    var any := rule.(database := "*");
    ListedColumnsAreProtected(p, any.(schema := None), source);
    if rule.schema.Some? {
      NoSchemaIsTheSourceSchema(p, any, source, rule.schema.value);
      assert any.(schema := Some(rule.schema.value)) == any;
    }
    if rule.database == "*" {
      assert any == rule;
    } else {
      OwnDatabaseIsAny(p, rule, source);
    }
    SomeRuleProtects(p, source);
  }
}
