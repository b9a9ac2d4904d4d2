/** `security/validated_query.py` as it is written: tokens are replaced and the rows capped in the
    statement itself, and the text is rewritten marker by marker. */
module IssueMethods {
  import opened Outcomes
  import opened Ast
  import opened Values
  import opened Tokens
  import opened Allowlist
  import opened Lineage
  import opened Policy
  import opened BindText
  import opened Issue

  /** The statement with its first `n` tokens replaced. */
  function BoundSoFar(q: Query, sites: seq<TokenSite>, n: nat): Query
    requires n <= |sites|
  {
    if q.where_.None? then q else q.(where_ := Some(Patch(q.where_.value, [], BindEdits(sites, n))))
  }

  /** Each token literal is replaced where it stands; its value becomes the parameter of that name. */
  method BindInPlace(q: Select, sites: seq<TokenSite>) returns (parameters: map<string, Value>)
    modifies q
    ensures q.Contents() == BindTokens(old(q.Contents()), sites)
    ensures parameters == BindParameters(sites, |sites|)
  {
    ghost var was := q.Contents();
    parameters := map[];
    var k := 0;
    if was.where_.Some? {
      PatchNothing(was.where_.value, []);
    }
    while k < |sites|
      invariant 0 <= k <= |sites| && q.Contents() == BoundSoFar(was, sites, k)
      invariant parameters == BindParameters(sites, k)
    {
      var site := sites[k];
      parameters := parameters[BindName(k) := site.value];
      if q.where_.Some? {
        PatchStep(was.where_.value, [], BindEdits(sites, k), site.literal.path, Placeholder(BindName(k)));
        q.where_ := Some(Patch(q.where_.value, [], map[site.literal.path := Placeholder(BindName(k))]));
      }
      k := k + 1;
    }
  }

  /** The limit allows one row more than `maxRows` and no more than was asked for, and is one of the two. */
  method CapRowsInPlace(q: Select, maxRows: nat)
    modifies q
    ensures q.limit.Some? && q.limit.value.Rows? && q.limit.value.count <= maxRows + 1
    ensures forall n :: old(q.limit) == Some(Rows(n)) ==>
              q.limit.value.count <= n && (q.limit.value.count == n || q.limit.value.count == maxRows + 1)
    ensures (old(q.limit).None? || old(q.limit).value.OtherLimit?) ==> q.limit.value.count == maxRows + 1
    ensures q.Contents() == old(q.Contents()).(limit := q.limit)
  {
    var fetch := maxRows + 1;
    var requested := if q.limit.Some? && q.limit.value.Rows? then q.limit.value.count else fetch;
    q.limit := Some(Rows(if requested < fetch then requested else fetch));
  }

  /** The markers and the placeholders they stand for, in the order the placeholders are found. */
  method MakeMarkers(nonce: string, names: seq<string>) returns (markers: map<string, string>)
    ensures markers == MarkerNames(nonce, names, |names|)
  {
    markers := map[];
    var k := 0;
    while k < |names|
      invariant 0 <= k <= |names| && markers == MarkerNames(nonce, names, k)
    {
      markers := markers[Marker(nonce, k) := names[k]];
      k := k + 1;
    }
  }

  /** `sql = sql.replace(marker, bind_marker, 1)` for every marker found. */
  method ReplaceMarkers(text: string, found: seq<string>, bind: string) returns (sql: string)
    ensures sql == ReplaceEach(text, found, bind)
  {
    sql := text;
    var i := 0;
    assert found[0..] == found;
    while i < |found|
      invariant 0 <= i <= |found| && ReplaceEach(text, found, bind) == ReplaceEach(sql, found[i..], bind)
    {
      assert found[i..][1..] == found[i + 1..];
      sql := ReplaceFirst(sql, found[i], bind);
      i := i + 1;
    }
  }

  method ToPositionalText(nonce: string, r: Rendering, names: seq<string>, parameters: map<string, Value>,
                          dialect: Dialect)
      returns (result: Result<(string, seq<Value>)>)
    requires Rendered(r, |names|) && AllBound(names, parameters)
    ensures result == ToPositional(nonce, r, names, parameters, dialect)
  {
    var markers := MakeMarkers(nonce, names);
    var sql := Assemble(r.texts, Markers(nonce, r.order));
    if dialect.escapePercent {
      sql := Escape(sql);
    }
    var found := FindAll(nonce, sql);
    MarkerNamesHold(nonce, names, |names|);
    if !MarkerGuard(found, markers) {
      return Rejected(BindUnsafe);
    }
    var replaced := ReplaceMarkers(sql, found, dialect.bindMarker);
    var values := seq(|found|, i requires 0 <= i < |found| => BindText.Lookup(found[i], found, markers, parameters));
    return Ok((replaced, values));
  }

  /** `issue_validated_query`; it consumes `q`, the analysed statement. */
  method IssueValidatedQuery(q: Select, a: AnalyzedQuery, decision: PolicyDecision, maxRows: int,
                             hardMaxRows: nat, limits: Limits,
                             nonce: string, generator: Generator, dialect: Dialect) returns (r: Result<ValidatedQuery>)
    requires q.Contents() == a.query
    modifies q
    ensures r == IssueQuery(a, decision, maxRows, hardMaxRows, limits, nonce, generator, dialect)
    ensures 1 <= maxRows <= hardMaxRows ==> q.Contents() == CapRows(BindTokens(a.query, decision.sites), maxRows)
  {
    if maxRows < 1 {
      return Rejected(RowCountInvalid);
    }
    if maxRows > hardMaxRows {
      return Rejected(RowCountTooLarge);
    }
    var parameters := BindInPlace(q, decision.sites);
    CapRowsInPlace(q, maxRows);
    var query := q.Contents();
    var limited := CheckLimits(query, limits);
    if limited.Rejected? {
      return Rejected(limited.reason);
    }
    var allowed := ValidateAllowlist(query, true);
    if allowed.Rejected? {
      return Rejected(allowed.reason);
    }
    var names, rendering := PlaceholderNames(query), generator(query);
    if !Rendered(rendering, |names|) || !AllBound(names, parameters) {
      return Rejected(BindUnsafe);
    }
    var text := ToPositionalText(nonce, rendering, names, parameters, dialect);
    if text.Rejected? {
      return Rejected(text.reason);
    }
    if Contains(text.value.0, PREFIX) {
      return Rejected(TokenNotReplaced);
    }
    if |a.outputs| != |decision.protected| {
      return Rejected(BindUnsafe);
    }
    return Ok(ValidatedQuery(query, text.value.0, text.value.1, Plans(a.outputs, decision.protected), maxRows));
  }
}
