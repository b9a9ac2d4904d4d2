/** One server, one statement with a token and two databases for which the premises of the end-to-end
    results hold, so that the results are about something. */
module Example {
  import opened Outcomes
  import opened Ast
  import opened Scope
  import opened Sequences
  import opened Values
  import opened Tokens
  import opened Allowlist
  import opened Schema
  import opened Lineage
  import opened Policy
  import opened PolicyFacts
  import opened Semantics
  import opened AnalysisMeaning
  import opened BindText
  import opened Issue
  import opened LimitsKept
  import opened ExecutorFacts
  import opened Noninterference
  import opened Pipeline

  // ----- A library that is ideal

  function Zeros(): seq<byte> {
    seq(SEAL_BYTES, _ => 0)
  }

  function Seal(key: seq<byte>, nonce: seq<byte>, payload: seq<byte>, context: string): seq<byte> {
    payload + Zeros()
  }

  function Open(key: seq<byte>, nonce: seq<byte>, sealed: seq<byte>, context: string): Option<seq<byte>> {
    if |sealed| >= SEAL_BYTES && sealed[|sealed| - SEAL_BYTES..] == Zeros() then Some(sealed[..|sealed| - SEAL_BYTES])
      else None
  }

  function Doc(tag: string, data: Data): Json {
    Document(JInt(1), JText(tag), data)
  }

  /** Three values have a payload: a text and the two truth values. */
  function Dumps(j: Json): Option<seq<byte>> {
    if j == Doc("str", JText("x")) then Some([0])
    else if j == Doc("bool", JBool(true)) then Some([1])
    else if j == Doc("bool", JBool(false)) then Some([2])
    else None
  }

  function Loads(payload: seq<byte>): Option<Json> {
    if payload == [0] then Some(Doc("str", JText("x")))
    else if payload == [1] then Some(Doc("bool", JBool(true)))
    else if payload == [2] then Some(Doc("bool", JBool(false)))
    else None
  }

  function Show(v: Value): string {
    match v
    case Decimal(digits, finite) => (if finite then "f" else "n") + digits
    case Date(iso) => iso
    case DateTime(iso) => iso
    case Time(iso) => iso
    case Uuid(text) => text
    case Bytes(data) => seq(|data|, i requires 0 <= i < |data| => data[i] as char)
    case _ => ""
  }

  function Parse(tag: string, text: string): Option<Value> {
    if tag == "decimal" then (if text != "" then Some(Decimal(text[1..], text[0] == 'f')) else None)
    else if tag == "date" then Some(Date(text))
    else if tag == "datetime" then Some(DateTime(text))
    else if tag == "time" then Some(Time(text))
    else if tag == "uuid" then Some(Uuid(text))
    else if tag == "bytes" && (forall i :: 0 <= i < |text| ==> text[i] < 256 as char) then
      Some(Bytes(seq(|text|, i requires 0 <= i < |text| => text[i] as int)))
    else None
  }

  function ExampleLibrary(): Library {
    Library(Seal, Open, Dumps, Loads, Show, Parse)
  }

  lemma SealOpens(k: seq<byte>, n: seq<byte>, p: seq<byte>, c: string)
    ensures |Seal(k, n, p, c)| == |p| + SEAL_BYTES && Open(k, n, Seal(k, n, p, c), c) == Some(p)
  {
    var s := p + Zeros();
    assert s[|s| - SEAL_BYTES..] == Zeros() && s[..|s| - SEAL_BYTES] == p;
  }

  lemma OpenSeals(k: seq<byte>, n: seq<byte>, s: seq<byte>, c: string)
    requires Open(k, n, s, c).Some?
    ensures s == Seal(k, n, Open(k, n, s, c).value, c)
  {
    assert s == s[..|s| - SEAL_BYTES] + s[|s| - SEAL_BYTES..];
  }

  lemma ParsesBack(v: Value)
    requires Tagged(ExampleLibrary(), v).Some? && TextTag(Tagged(ExampleLibrary(), v).value.0)
    ensures Parse(Tagged(ExampleLibrary(), v).value.0, Show(v)) == Some(v)
  {
    match v
    case Decimal(digits, finite) =>
      assert Show(v)[1..] == digits;
    case Bytes(data) =>
      assert forall i :: 0 <= i < |data| ==> Show(v)[i] < 256 as char;
      assert Parse("bytes", Show(v)).value.data == data;
    case _ =>
  }

  lemma ExampleIsTyped()
    ensures TypedText(ExampleLibrary())
  {
    var lib := ExampleLibrary();
    forall tag, text | TextTag(tag) && lib.parse(tag, text).Some?
      ensures Tagged(lib, lib.parse(tag, text).value).Some?
      ensures Tagged(lib, lib.parse(tag, text).value).value.0 == tag
    {
    }
  }

  lemma ExampleIsIdeal()
    ensures Ideal(ExampleLibrary())
  {
    var lib := ExampleLibrary();
    forall k, n, p, c
      ensures |lib.seal(k, n, p, c)| == |p| + SEAL_BYTES && lib.open(k, n, lib.seal(k, n, p, c), c) == Some(p)
    {
      SealOpens(k, n, p, c);
    }
    forall k, n, s, c | lib.open(k, n, s, c).Some?
      ensures s == lib.seal(k, n, lib.open(k, n, s, c).value, c)
    {
      OpenSeals(k, n, s, c);
    }
    forall v | Tagged(lib, v).Some? && TextTag(Tagged(lib, v).value.0)
      ensures lib.parse(Tagged(lib, v).value.0, lib.show(v)) == Some(v)
    {
      ParsesBack(v);
    }
  }

  // ----- A server and a statement: SELECT * FROM t WHERE ssn = 'pii:v1:...'

  function TheCodec(): Codec {
    Codec("main", [], ExampleLibrary())
  }

  function FixedNonce(): seq<byte> {
    seq(NONCE_BYTES, _ => 0)
  }

  function TheToken(): string {
    Token(TheCodec(), FixedNonce(), [0])
  }

  function Condition(qualifier: string, literal: Kind): Expr {
    Node(Compare(EQ), [Leaf(Column(qualifier, "ssn")), Leaf(literal)])
  }

  function Statement(): Query {
    Query([AllColumns], Some(TableRef(true, "", "", "t", "")), [], Some(Condition("", Text(TheToken()))), [], None, [])
  }

  function TheTable(): TableSchema {
    TableSchema("dbo", "t", ["id", "ssn"])
  }

  function TheCatalog(): Catalog {
    Catalog([("dbo", "t")], (schema: string, table: string) => Ok(["id", "ssn"]))
  }

  function TheRule(): PiiRule {
    PiiRule("sales", None, "t", ["ssn"])
  }

  function ThePolicy(): PiiPolicy {
    PiiPolicy("sales", [TheRule()], Exact(),
              (name: string, pattern: string) => name == pattern, DecryptWith(TheCodec()))
  }

  /** The text that the generator writes; its words do not matter here. */
  function TheGenerator(): Generator {
    (q: Query) => if q.where_.Some? then TheRendering() else NoBinds()
  }

  function TheRendering(): Rendering {
    Rendering(["SELECT=", ""], [0])
  }

  function NoBinds(): Rendering {
    Rendering(["SELECT"], [])
  }

  /** Sixteen hex digits, as `token_hex(8)` draws them. */
  function TheNonce(): string {
    "0123456789abcdef"
  }

  function TheServer(): Server {
    Server(Exact(), SQLSERVER, Limits(100, 4, 10), 50, ThePolicy(),
           (q: Query, schemas: seq<TableSchema>) => true, TheGenerator())
  }

  // ----- Small trees

  lemma CountLeaf(k: Kind)
    ensures ExprCount(Leaf(k)) == Weight(k)
  {
  }

  lemma CountCondition(qualifier: string, literal: Kind)
    ensures ExprCount(Condition(qualifier, literal)) == 1 + Weight(Column(qualifier, "ssn")) + Weight(literal)
  {
    var kids := [Leaf(Column(qualifier, "ssn")), Leaf(literal)];
    CountLeaf(Column(qualifier, "ssn"));
    CountLeaf(literal);
    assert kids[1..] == [Leaf(literal)] && kids[1..][1..] == [];
    assert ExprCounts(kids) == ExprCount(kids[0]) + ExprCounts(kids[1..]);
    assert ExprCounts(kids[1..]) == ExprCount(Leaf(literal)) + ExprCounts([]);
  }

  lemma ConditionFits(qualifier: string, literal: Kind, max: nat)
    requires !literal.In?
    ensures InListsFit(Condition(qualifier, literal), max)
  {
    assert InListsFit(Leaf(Column(qualifier, "ssn")), max) && InListsFit(Leaf(literal), max);
  }

  lemma ConditionAllowed(qualifier: string, literal: Kind, binds: bool)
    requires literal.Text? || (binds && literal.Placeholder?)
    ensures AllowedExpr(Condition(qualifier, literal), binds)
  {
    assert AllowedExpr(Leaf(Column(qualifier, "ssn")), binds) && AllowedExpr(Leaf(literal), binds);
  }

  lemma StatementPasses()
    ensures ParseChecks(TheServer(), Statement()) == Ok(())
  {
    var q, limits := Statement(), TheServer().limits;
    CountCondition("", Text(TheToken()));
    ConditionFits("", Text(TheToken()), limits.maxInItems);
    ConditionAllowed("", Text(TheToken()), false);
    assert [AllColumns][1..] == [];
    assert Total(q.expressions, ProjectionCount) == 1;
    assert NodeCount(q) <= 100;
    assert EveryExpr(q, FitIn(limits.maxInItems));
    assert EveryExpr(q, e => InListsFit(e, limits.maxInItems));
    assert EveryExpr(q, AllowedIn(false));
    assert EveryExpr(q, e => AllowedExpr(e, false));
  }

  // ----- The stages

  function ResolvedStatement(): Query {
    Statement().(from_ := Some(TableRef(true, "", "dbo", "t", "")))
  }

  /** Where a statement reads `t` and nothing else, `t` is resolved. */
  lemma TableResolves(q: Query)
    requires ParseChecks(TheServer(), q) == Ok(()) && q.from_ == Statement().from_ && q.joins == []
    ensures ResolveStage(TheServer(), TheCatalog(), q)
      == Ok(ResolvedQuery(q.(from_ := ResolvedStatement().from_), [TheTable()]))
  {
    var server, catalog := TheServer(), TheCatalog();
    var t := q.from_.value;
    assert TableRefs(q) == [t];
    var named := TableNamed(server.fold, t.db, t.name);
    assert catalog.tables[1..] == [] && Filter(catalog.tables, named) == [("dbo", "t")];
    var f := ResolverFor(server.fold, true, catalog.tables, catalog.columns);
    assert f(t) == Ok(ResolvedTable(TheTable(), t.(name := "t", db := "dbo")));
    assert [t][1..] == [];
    var rs := [ResolvedTable(TheTable(), t.(name := "t", db := "dbo"))];
    assert ResolveEach(f, []) == Ok([]) && [rs[0]] + [] == rs;
    assert ResolveEach(f, [t]) == Ok(rs);
    assert NodesOf(rs) == [t.(db := "dbo")] && SchemasOf(rs) == [TheTable()];
    assert WithTables(q, NodesOf(rs)).joins == [];
  }

  lemma StatementResolves()
    ensures ResolveStage(TheServer(), TheCatalog(), Statement()) == Ok(ResolvedQuery(ResolvedStatement(), [TheTable()]))
  {
    StatementPasses();
    TableResolves(Statement());
  }

  function TheBinding(): Binding {
    Binding("t", TheTable())
  }

  function TheItems(): seq<Projection> {
    [Item(Leaf(Column("t", "id")), ""), Item(Leaf(Column("t", "ssn")), "")]
  }

  function Source(column: string): SourceColumn {
    SourceColumn("dbo", "t", column)
  }

  function TheOutputs(): seq<OutputColumn> {
    [OutputColumn("id", ColumnOutput, Some(Source("id")), Some("t")),
     OutputColumn("ssn", ColumnOutput, Some(Source("ssn")), Some("t"))]
  }

  function TheRefs(): seq<ColumnRef> {
    [ColumnRef(Position(InProjection(0), []), Source("id")), ColumnRef(Position(InProjection(1), []), Source("ssn")),
     ColumnRef(Position(InWhere, [0]), Source("ssn"))]
  }

  function WorkingStatement(): Query {
    ResolvedStatement().(expressions := TheItems())
  }

  function TheAnalysis(): AnalyzedQuery {
    AnalyzedQuery(WorkingStatement().(where_ := Some(Condition("t", Text(TheToken())))), TheOutputs(), TheRefs())
  }

  lemma ScopeCollected(q: Query)
    requires q.from_ == ResolvedStatement().from_ && q.joins == []
    ensures Collect(Exact(), q, [TheTable()]) == Ok([TheBinding()])
  {
    var node := q.from_.value;
    assert TableRefs(q) == [node];
    assert [node][1..] == [] && [TheTable()][1..] == [];
    assert BindingName(node, TheTable()) == "t" && {} + {"t"} == {"t"};
    assert CollectFrom(Exact(), [], [], {"t"}) == Ok([]);
    assert [TheBinding()] + [] == [TheBinding()];
    assert CollectFrom(Exact(), [node], [TheTable()], {}) == Ok([TheBinding()]);
  }

  lemma StarExpanded()
    ensures ExpandStars(Exact(), [TheBinding()], [AllColumns]) == Ok(TheItems())
  {
    var b := TheBinding();
    assert [b][1..] == [] && AllColumnItems([]) == [];
    assert ColumnItems(b) == TheItems();
    assert AllColumnItems([b]) == TheItems() + [];
    assert [AllColumns][1..] == [] && TheItems() + [] == TheItems();
  }

  lemma OneColumn(name: string)
    requires name == "id" || name == "ssn"
    ensures CanonicalColumn(Exact(), TheBinding(), name) == Some(name)
  {
    var columns, p := TheTable().columns, ColumnNamed(Exact(), name);
    FilterOne(columns, p);
    assert columns[0] == "id" && columns[1] == "ssn";
    assert OnlyAt(columns, p, if name == "id" then 0 else 1);
  }

  lemma NamesResolve(table: string, name: string)
    requires (name == "id" || name == "ssn") && (table == "t" || table == "")
    ensures ColumnResolver(Exact(), [TheBinding()])(table, name) == Ok(Resolved(TheBinding(), name))
  {
    var b := TheBinding();
    OneColumn(name);
    assert [b][1..] == [];
    if table == "t" {
      FilterOne([b], BindingNamed(Exact(), table));
      assert OnlyAt([b], BindingNamed(Exact(), table), 0);
    } else {
      assert Candidates(Exact(), [b], name) == [Resolved(b, name)] + Candidates(Exact(), [], name);
    }
  }

  lemma ItemsAnalyzed(f: Resolver)
    requires f("t", "id") == Ok(Resolved(TheBinding(), "id")) && f("t", "ssn") == Ok(Resolved(TheBinding(), "ssn"))
    ensures AnalyzeProjections(f, TheItems(), 0) == Ok(Projected(TheItems(), TheOutputs(), TheRefs()[..2]))
  {
    var ps := TheItems();
    assert AnalyzeProjections(f, ps, 2) == Ok(Projected([], [], []));
    assert AnalyzeItem(f, ps[1], 1) == Ok(ItemAnalysis(ps[1], TheOutputs()[1], [TheRefs()[1]]));
    assert [ps[1]] + [] == [ps[1]] && [TheOutputs()[1]] + [] == [TheOutputs()[1]]
      && [TheRefs()[1]] + [] == [TheRefs()[1]];
    assert AnalyzeProjections(f, ps, 1) == Ok(Projected([ps[1]], [TheOutputs()[1]], [TheRefs()[1]]));
    assert AnalyzeItem(f, ps[0], 0) == Ok(ItemAnalysis(ps[0], TheOutputs()[0], [TheRefs()[0]]));
    assert [ps[0]] + [ps[1]] == ps && [TheOutputs()[0]] + [TheOutputs()[1]] == TheOutputs();
    assert [TheRefs()[0]] + [TheRefs()[1]] == TheRefs()[..2];
  }

  lemma ConditionAt(qualifier: string, literal: Kind, path: Path)
    ensures At(Condition(qualifier, literal), path).Some? <==> path == [] || path == [0] || path == [1]
    ensures At(Condition(qualifier, literal), [0]) == Some(Leaf(Column(qualifier, "ssn")))
    ensures At(Condition(qualifier, literal), [1]) == Some(Leaf(literal))
    ensures At(Condition(qualifier, literal), []) == Some(Condition(qualifier, literal))
  {
    if path != [] && path[0] < 2 {
      assert path[1..] != [] || path == [path[0]];
    }
  }

  lemma OnlyPath(paths: seq<Path>, path: Path)
    requires Distinct(paths) && forall x :: x in paths <==> x == path
    ensures paths == [path]
  {
    DistinctSize(paths);
    assert (set x | x in paths) == {path};
    assert path in paths;
  }

  lemma {:induction false} DistinctSize(paths: seq<Path>)
    requires Distinct(paths)
    ensures |set x | x in paths| == |paths|
  {
    if paths != [] {
      var rest := paths[1..];
      assert paths == [paths[0]] + rest && paths[0] !in rest;
      DistinctSize(rest);
      assert (set x | x in paths) == {paths[0]} + set x | x in rest;
    }
  }

  lemma ConditionColumns(qualifier: string, literal: Kind)
    requires !literal.Column?
    ensures ColumnPaths(Condition(qualifier, literal)) == [[0]]
  {
    var e := Condition(qualifier, literal);
    ColumnPathsComplete(e);
    forall path {
      ConditionAt(qualifier, literal, path);
    }
    OnlyPath(ColumnPaths(e), [0]);
  }

  lemma ConditionMapped(f: Resolver, literal: Kind)
    requires f("", "ssn") == Ok(Resolved(TheBinding(), "ssn")) && !literal.Column?
    ensures MapKinds(Condition("", literal), (k: Kind) => Qualified(f, k)) == Condition("t", literal)
  {
    var g := (k: Kind) => Qualified(f, k);
    assert MapKinds(Leaf(Column("", "ssn")), g) == Leaf(Column("t", "ssn"));
    assert MapKinds(Leaf(literal), g) == Leaf(literal);
  }

  lemma ConditionRefs(f: Resolver, literal: Kind, paths: seq<Path>)
    requires f("", "ssn") == Ok(Resolved(TheBinding(), "ssn")) && paths == [[0]]
    ensures ColumnAt(Condition("", literal), [0])
    ensures TreeRefs(f, InWhere, Condition("", literal), paths)
      == Ok([ColumnRef(Position(InWhere, [0]), Source("ssn"))])
  {
    ConditionAt("", literal, [0]);
    assert paths[1..] == [];
    var ref := ColumnRef(Position(InWhere, [0]), Source("ssn"));
    assert [ref] + [] == [ref];
  }

  lemma ConditionAnalyzed(f: Resolver, literal: Kind)
    requires f("", "ssn") == Ok(Resolved(TheBinding(), "ssn")) && !literal.Column?
    ensures AnalyzeTree(f, InWhere, Condition("", literal)) == Ok(Edited(Condition("t", literal), [TheRefs()[2]]))
  {
    ConditionColumns("", literal);
    ConditionRefs(f, literal, ColumnPaths(Condition("", literal)));
    ConditionMapped(f, literal);
  }

  lemma ClausesAnalyzed(f: Resolver, g: seq<OutputColumn> -> Resolver, literal: Kind)
    requires f("t", "id") == Ok(Resolved(TheBinding(), "id")) && f("t", "ssn") == Ok(Resolved(TheBinding(), "ssn"))
    requires f("", "ssn") == Ok(Resolved(TheBinding(), "ssn")) && !literal.Column?
    ensures var q := Query(TheItems(), Some(TableRef(true, "", "dbo", "t", "")), [],
                           Some(Condition("", literal)), [], None, []);
      AnalyzeClauses(f, g, q) == Ok(AnalyzedQuery(q.(where_ := Some(Condition("t", literal))), TheOutputs(), TheRefs()))
  {
    ItemsAnalyzed(f);
    ConditionAnalyzed(f, literal);
    assert TheRefs()[..2] + [] + [TheRefs()[2]] + [] == TheRefs();
  }

  lemma ItemsCounted()
    ensures Total(TheItems(), ProjectionCount) == 6
  {
    CountLeaf(Column("t", "id"));
    CountLeaf(Column("t", "ssn"));
    var ps := TheItems();
    assert ProjectionCount(ps[0]) == 3 && ProjectionCount(ps[1]) == 3;
    var rest := ps[1..];
    assert rest == [ps[1]] && rest[1..] == [];
    assert Total(rest, ProjectionCount) == 3 + Total(rest[1..], ProjectionCount);
    assert Total(ps, ProjectionCount) == 3 + Total(rest, ProjectionCount);
  }

  lemma WorkingPasses(literal: Kind, qualifier: string, limit: Option<Limit>, binds: bool)
    requires literal.Text? || (binds && literal.Placeholder?)
    requires limit.Some? ==> limit.value.Rows?
    ensures var q := Query(TheItems(), Some(TableRef(true, "", "dbo", "t", "")), [],
                           Some(Condition(qualifier, literal)), [], limit, []);
      CheckLimits(q, TheServer().limits) == Ok(()) && ValidateAllowlist(q, binds) == Ok(())
  {
    var q := Query(TheItems(), Some(TableRef(true, "", "dbo", "t", "")), [],
                   Some(Condition(qualifier, literal)), [], limit, []);
    var limits := TheServer().limits;
    CountCondition(qualifier, literal);
    ConditionFits(qualifier, literal, limits.maxInItems);
    ConditionAllowed(qualifier, literal, binds);
    ItemsCounted();
    assert EveryExpr(q, FitIn(limits.maxInItems));
    assert EveryExpr(q, e => InListsFit(e, limits.maxInItems));
    assert EveryExpr(q, AllowedIn(binds));
    assert EveryExpr(q, e => AllowedExpr(e, binds));
  }

  lemma StatementAnalyzed()
    ensures AnalyzeStage(TheServer(), ResolvedQuery(ResolvedStatement(), [TheTable()])) == Ok(TheAnalysis())
    ensures ScopeOf(TheServer(), ResolvedQuery(ResolvedStatement(), [TheTable()])) == [TheBinding()]
  {
    var scope, literal := [TheBinding()], Text(TheToken());
    ScopeCollected(ResolvedStatement());
    StarExpanded();
    NamesResolve("t", "id");
    NamesResolve("t", "ssn");
    NamesResolve("", "ssn");
    ClausesAnalyzed(ColumnResolver(Exact(), scope), OrderResolvers(Exact(), scope), literal);
    WorkingPasses(literal, "", None, false);
    WorkingPasses(literal, "t", None, false);
  }

  // ----- The policy

  lemma TokenDecrypts()
    ensures HasPrefix(TheToken()) && Decrypt(TheCodec(), TheToken()) == Ok(Str("x"))
  {
    var codec, nonce, v := TheCodec(), FixedNonce(), Str("x");
    ExampleIsIdeal();
    assert Payload(codec.lib, v) == Some([0]);
    TokenSizeThreshold(codec, nonce, v);
    TokenRoundTrip(codec, nonce, v);
    assert Encrypt(codec, nonce, v) == Ok(Some(TheToken()));
  }

  lemma RuleCovers()
    ensures IsProtected(ThePolicy(), Source("ssn")) && !IsProtected(ThePolicy(), Source("id"))
  {
    var p := ThePolicy();
    assert p.rules[0] == TheRule() && TheRule().columns[0] == "ssn";
    assert RuleMatches(p, p.rules[0], Source("ssn"));
    assert !RuleMatches(p, TheRule(), Source("id"));
  }

  function TheSites(): seq<TokenSite> {
    [TokenSite(Position(InWhere, [1]), Str("x"))]
  }

  lemma WhereChecked(p: PiiPolicy, q: Query, text: string)
    requires HasPrefix(text) && p.decrypt(text) == Ok(Str("x")) && q.where_ == Some(Condition("t", Text(text)))
    ensures CheckProtected(p, q, Position(InWhere, [0])) == Ok(TheSites())
  {
    var e := Condition("t", Text(text));
    assert [0][..0] == [];
    assert At(e, []) == Some(e);
    assert KidSites(p, [], e.kids, 2) == Ok([]);
    assert [] + [1] == [1];
    assert TokenSiteFor(p, Position(InWhere, [1]), e.kids[1].kind) == Ok(TheSites()[0]);
    assert TheSites() + [] == TheSites();
  }

  lemma RefsChecked(p: PiiPolicy, q: Query, text: string)
    requires IsProtected(p, Source("ssn")) && !IsProtected(p, Source("id"))
    requires HasPrefix(text) && p.decrypt(text) == Ok(Str("x")) && q.where_ == Some(Condition("t", Text(text)))
    ensures SitesOf(p, q, TheRefs()) == Ok(TheSites())
  {
    var refs := TheRefs();
    WhereChecked(p, q, text);
    assert refs[1..][1..] == [refs[2]] && refs[1..] == [refs[1], refs[2]] && [refs[2]][1..] == [];
    assert SitesOf(p, q, []) == Ok([]);
    assert TheSites() + [] == TheSites() && [] + TheSites() == TheSites();
    assert SitesOf(p, q, [refs[2]]) == Ok(TheSites());
    assert SitesOf(p, q, refs[1..]) == Ok(TheSites());
  }

  lemma OnlyToken(q: Query, text: string, position: Position)
    requires q.expressions == TheItems() && q.joins == [] && q.order == []
        && q.where_ == Some(Condition("t", Text(text)))
    requires TokenOf(q, position)
    ensures position == Position(InWhere, [1])
  {
    ConditionAt("t", Text(text), position.path);
    if position.part.InProjection? {
      ItemsHaveNoToken(position.part.item, position.path);
    }
  }

  lemma ItemsHaveNoToken(i: nat, path: Path)
    ensures i < |TheItems()| && At(TheItems()[i].value, path).Some? ==> At(TheItems()[i].value, path).value.kind.Column?
  {
  }

  lemma TokensCovered(q: Query, text: string)
    requires q.expressions == TheItems() && q.joins == [] && q.order == []
        && q.where_ == Some(Condition("t", Text(text)))
    ensures Covered(TokensOf(q, Parts(q)), TheSites())
  {
    var tokens := TokensOf(q, Parts(q));
    TokensOfParts(q, Parts(q));
    forall i | 0 <= i < |tokens|
      ensures tokens[i] == TheSites()[0].literal
    {
      assert tokens[i] in tokens;
      OnlyToken(q, text, tokens[i]);
    }
    OneSiteCovers(tokens, TheSites());
  }

  lemma OneSiteCovers(tokens: seq<Position>, sites: seq<TokenSite>)
    requires sites != [] && forall i :: 0 <= i < |tokens| ==> tokens[i] == sites[0].literal
    ensures Covered(tokens, sites)
  {
    assert sites[0].literal == sites[0].literal;
  }

  function TheDecision(): PolicyDecision {
    PolicyDecision([false, true], TheSites())
  }

  lemma StatementDecided()
    ensures PolicyStage(TheServer(), TheAnalysis()) == Ok(TheDecision())
  {
    var p, q := ThePolicy(), TheAnalysis().query;
    TokenDecrypts();
    RuleCovers();
    RefsChecked(p, q, TheToken());
    TokensCovered(q, TheToken());
    assert Flags(p, TheOutputs()) == [false, true];
  }

  // ----- The issued statement

  lemma ConditionBound(text: string)
    ensures Patch(Condition("t", Text(text)), [], BindEdits(TheSites(), 1)) == Condition("t", Placeholder("pii_0"))
  {
    assert BindName(0) == "pii_0";
    var edits := BindEdits(TheSites(), 1);
    assert edits == map[[1] := Placeholder("pii_0")];
    assert [] + [0] == [0] && [] + [1] == [1];
    assert Patch(Leaf(Column("t", "ssn")), [0], edits) == Leaf(Column("t", "ssn"));
    assert Patch(Leaf(Text(text)), [1], edits) == Leaf(Placeholder("pii_0"));
  }

  lemma ConditionPlaceholders()
    ensures SelectPaths(Nodes(Condition("t", Placeholder("pii_0"))), IsPlaceholder) == [[1]]
  {
    var e := Condition("t", Placeholder("pii_0"));
    KindPathsComplete(e, IsPlaceholder);
    forall path {
      ConditionAt("t", Placeholder("pii_0"), path);
    }
    OnlyPath(SelectPaths(Nodes(e), IsPlaceholder), [1]);
  }

  lemma OneName(q: Query, paths: seq<Path>)
    requires q.where_ == Some(Condition("t", Placeholder("pii_0"))) && paths == [[1]]
    ensures NamesAt(q.where_.value, paths) == ["pii_0"]
  {
    ConditionAt("t", Placeholder("pii_0"), [1]);
    assert paths[1..] == [];
    assert ["pii_0"] + [] == ["pii_0"];
  }

  lemma NothingStray(nonce: string, texts: seq<string>)
    requires |texts| == 2 && |texts[0]| < |MarkerHead(nonce)| + 3 && |texts[1]| < |MarkerHead(nonce)| + 3
    ensures Stray(nonce, texts) == 0
  {
    ShortTextHasNoMarker(nonce, texts[0]);
    ShortTextHasNoMarker(nonce, texts[1]);
    assert texts[1..][0] == texts[1] && texts[1..][1..] == [];
    assert Stray(nonce, texts[1..]) == |FindAll(nonce, texts[1])| + Stray(nonce, []);
  }

  lemma RenderingIsSafe(nonce: string)
    requires IsNonceText(nonce)
    ensures SafeBind(SQLSERVER) && AllDelimit(nonce, TheRendering().texts)
    ensures Rendered(TheRendering(), 1) && Permutes(TheRendering().order, 1) && Stray(nonce, TheRendering().texts) == 0
  {
    var texts := TheRendering().texts;
    NothingStray(nonce, texts);
    assert 0 in TheRendering().order;
    DelimitsAcross(nonce, texts[0], "");
    assert texts[0] + "" == texts[0];
  }

  lemma TextIssued(nonce: string, parameters: map<string, Value>)
    requires IsNonceText(nonce) && "pii_0" in parameters
    ensures Rendered(TheRendering(), 1) && AllBound(["pii_0"], parameters)
    ensures var text := ToPositional(nonce, TheRendering(), ["pii_0"], parameters, SQLSERVER);
      text.Ok? && !Contains(text.value.0, PREFIX)
  {
    RenderingIsSafe(nonce);
    BindSubstitutionIsSimultaneous(nonce, TheRendering(), ["pii_0"], parameters, SQLSERVER);
    var sql := ToPositional(nonce, TheRendering(), ["pii_0"], parameters, SQLSERVER).value.0;
    var texts := TheRendering().texts;
    assert Binds("?", 1) == ["?"] && ["?"][1..] == [] && texts[1..] == [""];
    assert Assemble([""], []) == "";
    assert sql == "SELECT=" + "?" + "";
    assert sql[0] == 'S' && sql[1] == 'E' && |sql| == 8;
  }

  function TheBoundStatement(): Query {
    WorkingStatement().(where_ := Some(Condition("t", Placeholder("pii_0"))), limit := Some(Rows(11)))
  }

  lemma StatementBound()
    ensures CapRows(BindTokens(TheAnalysis().query, TheSites()), 10) == TheBoundStatement()
    ensures PlaceholderNames(TheBoundStatement()) == ["pii_0"]
    ensures BindParameters(TheSites(), 1) == map["pii_0" := Str("x")]
  {
    ConditionBound(TheToken());
    ConditionPlaceholders();
    OneName(TheBoundStatement(), SelectPaths(Nodes(TheBoundStatement().where_.value), IsPlaceholder));
    assert BindName(0) == "pii_0";
  }

  lemma NonceIsHex()
    ensures IsNonceText(TheNonce())
  {
  }

  lemma BoundIsIssued(nonce: string, a: AnalyzedQuery, d: PolicyDecision)
    requires IsNonceText(nonce) && |a.outputs| == |d.protected|
    requires BindParameters(d.sites, |d.sites|) == map["pii_0" := Str("x")]
    requires CapRows(BindTokens(a.query, d.sites), 10) == TheBoundStatement()
    ensures IssueStage(TheServer(), a, d, 10, nonce).Ok?
  {
    StatementBound();
    WorkingPasses(Placeholder("pii_0"), "t", Some(Rows(11)), true);
    TextIssued(nonce, map["pii_0" := Str("x")]);
  }

  lemma StatementIssued()
    ensures IssueStage(TheServer(), TheAnalysis(), TheDecision(), 10, TheNonce()).Ok?
  {
    NonceIsHex();
    StatementBound();
    BoundIsIssued(TheNonce(), TheAnalysis(), TheDecision());
  }

  function TheRun(): Run
    requires IssueStage(TheServer(), TheAnalysis(), TheDecision(), 10, TheNonce()).Ok?
  {
    Run(ResolvedQuery(ResolvedStatement(), [TheTable()]), [TheBinding()], TheAnalysis(), TheDecision(),
        IssueStage(TheServer(), TheAnalysis(), TheDecision(), 10, TheNonce()).value)
  }

  // ----- Two databases

  /** The protected column holds true in one database and false in the other. */
  function TheRows(secret: bool): seq<seq<Row>> {
    [[[Int(1), Bool(secret)], [Int(2), Null]]]
  }

  /** Values are equal when they are the same. */
  function TheEngine(): Engine {
    Engine((op: CompareOp, a: Value, b: Value) => a == b, (v: Value) => false, (digits: string) => Str(digits),
           (v: Value) => v,
           (descending: bool, nullsFirst: bool, a: Value, b: Value) => false)
  }

  lemma SecretIsTokenisable(secret: bool)
    ensures Tokenisable(TheCodec(), Bool(secret))
  {
    assert Payload(ExampleLibrary(), Bool(secret)) == Some([if secret then 1 else 2]);
  }

  lemma OneValue(sites: seq<TokenSite>)
    requires |sites| == 1
    ensures (set i | 0 <= i < |sites| :: sites[i].value) == {sites[0].value}
  {
    var values := set i | 0 <= i < |sites| :: sites[i].value;
    assert sites[0].value in values;
  }

  lemma RowsDoNotTell()
    ensures TablesIndistinct(SettingOf(TheServer(), [TheBinding()], TheEngine(), TheCodec(), TheSites()),
                             TheRows(true), TheRows(false))
  {
    var c := SettingOf(TheServer(), [TheBinding()], TheEngine(), TheCodec(), TheSites());
    OneValue(TheSites());
    SecretIsTokenisable(true);
    SecretIsTokenisable(false);
    RuleCovers();
    assert Secret(c, 0, 1) && !Secret(c, 0, 0);
    forall k | 0 <= k < 2
      ensures LowRel(c)(0, TheRows(true)[0][k], TheRows(false)[0][k])
    {
    }
  }

  lemma StatementIsClear()
    ensures ClearQuery(Exact(), [TheBinding()], Statement())
  {
    var scope := [TheBinding()];
    assert ClearKind(Exact(), scope, Column("", "ssn"));
    var literal := Text(TheToken());
    assert ClearExpr(Exact(), scope, Leaf(Column("", "ssn"))) && ClearExpr(Exact(), scope, Leaf(literal));
    assert ClearExpr(Exact(), scope, Condition("", literal));
  }

  lemma StatementRuns()
    ensures IssueStage(TheServer(), TheAnalysis(), TheDecision(), 10, TheNonce()).Ok?
    ensures IsRun(TheServer(), TheCatalog(), Statement(), 10, TheNonce(), TheRun())
  {
    StatementResolves();
    StatementAnalyzed();
    StatementDecided();
    StatementIssued();
  }

  lemma StatementIsPlausible()
    ensures Plausible(TheServer(), TheCatalog(), Statement())
  {
    StatementResolves();
  }

  lemma SurroundingsHold(v: ValidatedQuery)
    ensures Surroundings(TheServer(), v, TheCodec(), TheNonce())
  {
    RenderingIsSafe(TheNonce());
  }

  lemma RowsFit()
    ensures Populated([TheBinding()], TheRows(true)) && TheRows(true)[0][0] != TheRows(false)[0][0]
  {
    assert TheRows(true)[0][0][1] == Bool(true) && TheRows(false)[0][0][1] == Bool(false);
  }

  lemma StatementHidesNothing()
    ensures HidesNothingProtected(TheServer(), [TheBinding()], Statement().expressions)
  {
    assert !Statement().expressions[0].Item?;
  }

  lemma NoncesAreGood(nonces: Executor.Nonces)
    requires forall i: nat, j: nat :: nonces(i, j) == FixedNonce()
    ensures Ideal(TheCodec().lib) && TypedText(TheCodec().lib) && GoodNonces(nonces)
  {
    ExampleIsIdeal();
    ExampleIsTyped();
  }

  /** MAIN RESULT. The premises of the end-to-end refinement and of the two-run property hold together,
      for a statement with a token and for two databases that differ. */
  lemma PremisesHold(nonces: Executor.Nonces)
    requires forall i: nat, j: nat :: nonces(i, j) == FixedNonce()
    ensures IssueStage(TheServer(), TheAnalysis(), TheDecision(), 10, TheNonce()).Ok?
    ensures IsRun(TheServer(), TheCatalog(), Statement(), 10, TheNonce(), TheRun())
    ensures Plausible(TheServer(), TheCatalog(), Statement())
    ensures Surroundings(TheServer(), TheRun().issued, TheCodec(), TheNonce())
    ensures ClearQuery(Exact(), [TheBinding()], Statement())
    ensures HidesNothingProtected(TheServer(), [TheBinding()], Statement().expressions)
    ensures Ideal(TheCodec().lib) && TypedText(TheCodec().lib) && GoodNonces(nonces)
    ensures Populated([TheBinding()], TheRows(true)) && TheRows(true)[0][0] != TheRows(false)[0][0]
    ensures TablesIndistinct(SettingOf(TheServer(), [TheBinding()], TheEngine(), TheCodec(), TheSites()),
                             TheRows(true), TheRows(false))
  {
    StatementRuns();
    StatementIsPlausible();
    SurroundingsHold(TheRun().issued);
    StatementIsClear();
    StatementHidesNothing();
    NoncesAreGood(nonces);
    RowsFit();
    RowsDoNotTell();
  }
}
