/** `security/policy.py`: protected columns may be projected, and compared with `=` or `IN` against
    tokens in WHERE; tokens may appear nowhere else. */
module Policy {
  import opened Outcomes
  import opened Ast
  import opened Scope
  import opened Values
  import opened Tokens
  import opened Lineage
  import opened LineageComplete

  datatype PiiRule = PiiRule(database: string, schema: Option<string>, table: string, columns: seq<string>)

  /** How a token is decrypted. */
  type Decryptor = string -> Result<Value>

  function DecryptWith(codec: Codec): Decryptor {
    (token: string) => Decrypt(codec, token)
  }

  /** `glob` matches a folded table name against a folded pattern. */
  datatype PiiPolicy = PiiPolicy(database: string, rules: seq<PiiRule>, fold: Fold,
                                 glob: (string, string) -> bool, decrypt: Decryptor)

  /** A token literal in an allowed position and the value it stands for. */
  datatype TokenSite = TokenSite(literal: Position, value: Value)

  datatype PolicyDecision = PolicyDecision(protected: seq<bool>, sites: seq<TokenSite>)

  predicate RuleMatches(p: PiiPolicy, rule: PiiRule, source: SourceColumn) {
    && (rule.database == "*" || p.fold(rule.database) == p.fold(p.database))
    && (rule.schema.Some? ==> p.fold(rule.schema.value) == p.fold(source.schema))
    && p.glob(p.fold(source.table), p.fold(rule.table))
    && exists i :: 0 <= i < |rule.columns| && p.fold(rule.columns[i]) == p.fold(source.column)
  }

  predicate IsProtected(p: PiiPolicy, source: SourceColumn) {
    exists i :: 0 <= i < |p.rules| && RuleMatches(p, p.rules[i], source)
  }

  predicate IsToken(kind: Kind) {
    kind.Text? && HasPrefix(kind.text)
  }

  function TokenSiteFor(p: PiiPolicy, literal: Position, kind: Kind): Result<TokenSite> {
    if !IsToken(kind) then Rejected(ProtectedNeedsToken)
    else
      var v :- p.decrypt(kind.text);
      Ok(TokenSite(literal, v))
  }

  /** The token sites of the children of the node at `path`, from child `from` on. */
  function KidSites(p: PiiPolicy, path: Path, kids: seq<Expr>, from: nat): Result<seq<TokenSite>>
    requires from <= |kids|
    decreases |kids| - from
  {
    if from == |kids| then Ok([])
    else
      var first :- TokenSiteFor(p, Position(InWhere, path + [from]), kids[from].kind);
      var rest :- KidSites(p, path, kids, from + 1);
      Ok([first] + rest)
  }

  /** The child at index `child` of `parent` is the left side of `=` or `IN`. */
  predicate ComparedSide(parent: Expr, child: nat) {
    child == 0 && |parent.kids| > 1 && ((parent.kind == Compare(EQ) && |parent.kids| == 2) || parent.kind.In?)
  }

  /** What a protected reference contributes: nothing when it is projected, its tokens when it is
      compared in WHERE; any other position is refused. */
  function CheckProtected(p: PiiPolicy, q: Query, node: Position): Result<seq<TokenSite>> {
    if node.part.InProjection? && node.path == [] then Ok([])
    else if !node.part.InWhere? || node.path == [] || q.where_.None? then Rejected(ProtectedPosition)
    else
      var up, child := node.path[..|node.path| - 1], node.path[|node.path| - 1];
      var parent := At(q.where_.value, up);
      if parent.None? || !ComparedSide(parent.value, child) then Rejected(ProtectedPosition)
      else KidSites(p, up, parent.value.kids, 1)
  }

  function RefSites(p: PiiPolicy, q: Query, ref: ColumnRef): Result<seq<TokenSite>> {
    if IsProtected(p, ref.source) then CheckProtected(p, q, ref.node) else Ok([])
  }

  function SitesOf(p: PiiPolicy, q: Query, refs: seq<ColumnRef>): Result<seq<TokenSite>> {
    if refs == [] then Ok([])
    else
      var first :- RefSites(p, q, refs[0]);
      var rest :- SitesOf(p, q, refs[1..]);
      Ok(first + rest)
  }

  // ----- Token literals anywhere in the query

  function PositionsAt(part: Part, paths: seq<Path>): seq<Position> {
    seq(|paths|, i requires 0 <= i < |paths| => Position(part, paths[i]))
  }

  function TokenPaths(part: Part, clause: Option<Expr>): seq<Position> {
    if clause.None? then [] else PositionsAt(part, SelectPaths(Nodes(clause.value), IsToken))
  }

  /** The clauses of a query, in the order of its parts. */
  function Parts(q: Query): seq<Part> {
    seq(|q.expressions|, i requires 0 <= i < |q.expressions| => InProjection(i))
    + seq(|q.joins|, j requires 0 <= j < |q.joins| => InOn(j))
    + [InWhere]
    + seq(|q.order|, k requires 0 <= k < |q.order| => InOrder(k))
  }

  function TokensOf(q: Query, parts: seq<Part>): seq<Position> {
    if parts == [] then [] else TokenPaths(parts[0], ClauseOf(q, parts[0])) + TokensOf(q, parts[1..])
  }

  predicate HasSite(sites: seq<TokenSite>, token: Position) {
    exists k :: 0 <= k < |sites| && sites[k].literal == token
  }

  /** Every token is one of the sites. */
  predicate Covered(tokens: seq<Position>, sites: seq<TokenSite>) {
    forall i :: 0 <= i < |tokens| ==> HasSite(sites, tokens[i])
  }

  /** Which outputs are protected. */
  function Flags(p: PiiPolicy, outputs: seq<OutputColumn>): seq<bool> {
    seq(|outputs|, i requires 0 <= i < |outputs| => outputs[i].source.Some? && IsProtected(p, outputs[i].source.value))
  }

  function Evaluate(p: PiiPolicy, a: AnalyzedQuery): Result<PolicyDecision> {
    var sites :- SitesOf(p, a.query, a.references);
    var tokens := TokensOf(a.query, Parts(a.query));
    if !Covered(tokens, sites) then Rejected(TokenOutsideProtected)
    else Ok(PolicyDecision(Flags(p, a.outputs), sites))
  }
}
