/** The fragment of SELECT that the stages handle, as a grammar of its own: what can be written, rather
    than what is refused. The allowlist of `security/parser.py` is proved to accept exactly its
    sentences. */
module Grammar {
  import opened Outcomes
  import opened Ast
  import opened Allowlist

  /** A literal, or what stands for one in an IN list. */
  datatype Literal = Quoted(text: string) | Numeric(digits: string) | Negative(digits: string) | Bind(name: string)

  datatype Term =
    | Reference(table: string, name: string)
    | Constant(literal: Literal)
    | Nothing
    | CountRows
    | Comparison(op: CompareOp, left: Term, right: Term)
    | Both(left: Term, right: Term)
    | Either(left: Term, right: Term)
    | Group(inner: Term)
    | IsNull(operand: Term)
    | OneOf(table: string, name: string, literals: seq<Literal>)

  /** A table of the default catalog, named by an identifier. */
  datatype Table = Table(schema: string, name: string, alias: string)

  /** INNER or LEFT, with or without the word INNER; the condition is not optional. */
  datatype JoinClause = JoinClause(left: bool, inner: bool, table: Table, on: Term)

  datatype SelectItem = Star | StarOf(table: string) | Shown(value: Term, alias: string)

  datatype SortItem = SortItem(table: string, name: string, descending: bool, nullsFirst: bool)

  datatype Sentence = Sentence(items: seq<SelectItem>, from_: Option<Table>, joins: seq<JoinClause>,
                               where_: Option<Term>, order: seq<SortItem>, limit: Option<nat>)

  // ----- The trees of the fragment

  function LiteralTree(l: Literal): Expr {
    match l
    case Quoted(text) => Leaf(Text(text))
    case Numeric(digits) => Leaf(Number(digits))
    case Negative(digits) => Node(Neg, [Leaf(Number(digits))])
    case Bind(name) => Leaf(Placeholder(name))
  }

  function LiteralTrees(ls: seq<Literal>): seq<Expr> {
    seq(|ls|, i requires 0 <= i < |ls| => LiteralTree(ls[i]))
  }

  function Tree(t: Term): Expr {
    match t
    case Reference(table, name) => Leaf(Column(table, name))
    case Constant(literal) => LiteralTree(literal)
    case Nothing => Leaf(NullLiteral)
    case CountRows => Leaf(CountStar)
    case Comparison(op, left, right) => Node(Compare(op), [Tree(left), Tree(right)])
    case Both(left, right) => Node(And, [Tree(left), Tree(right)])
    case Either(left, right) => Node(Or, [Tree(left), Tree(right)])
    case Group(inner) => Node(Paren, [Tree(inner)])
    case IsNull(operand) => Node(Is, [Tree(operand), Leaf(NullLiteral)])
    case OneOf(table, name, literals) => Node(In, [Leaf(Column(table, name))] + LiteralTrees(literals))
  }

  function TableNode(t: Table): TableRef {
    TableRef(true, "", t.schema, t.name, t.alias)
  }

  function JoinNode(j: JoinClause): Join {
    Join(TableNode(j.table), Some(Tree(j.on)), if j.left then "LEFT" else "", if j.inner then "INNER" else "")
  }

  function ItemNode(i: SelectItem): Projection {
    match i
    case Star => AllColumns
    case StarOf(table) => TableColumns(table)
    case Shown(value, alias) => Item(Tree(value), alias)
  }

  function SortNode(k: SortItem): OrderKey {
    OrderKey(Leaf(Column(k.table, k.name)), k.descending, k.nullsFirst)
  }

  function Statement(s: Sentence): Query {
    Query(seq(|s.items|, i requires 0 <= i < |s.items| => ItemNode(s.items[i])),
          if s.from_.Some? then Some(TableNode(s.from_.value)) else None,
          seq(|s.joins|, j requires 0 <= j < |s.joins| => JoinNode(s.joins[j])),
          if s.where_.Some? then Some(Tree(s.where_.value)) else None,
          seq(|s.order|, k requires 0 <= k < |s.order| => SortNode(s.order[k])),
          if s.limit.Some? then Some(Rows(s.limit.value)) else None,
          [])
  }

  // ----- What the grammar asks besides

  predicate BindFree(l: Literal) {
    !l.Bind?
  }

  /** The term is written without binds. */
  predicate Written(t: Term) {
    match t
    case Constant(literal) => BindFree(literal)
    case Comparison(_, left, right) => Written(left) && Written(right)
    case Both(left, right) => Written(left) && Written(right)
    case Either(left, right) => Written(left) && Written(right)
    case Group(inner) => Written(inner)
    case IsNull(operand) => Written(operand)
    case OneOf(_, _, literals) => forall i :: 0 <= i < |literals| ==> BindFree(literals[i])
    case _ => true
  }

  /** Names of temporary tables and table variables start with `#` and `@`. */
  predicate Permanent(t: Table) {
    t.name == "" || t.name[0] !in "#@"
  }

  /** What may stand in the select list without an alias. */
  predicate Bare(t: Term) {
    t.Reference? || t.Nothing? || t.CountRows? || (t.Constant? && !t.literal.Bind?)
  }

  ghost predicate WellFormed(s: Sentence, binds: bool) {
    && (forall i :: 0 <= i < |s.items| && s.items[i].Shown? ==>
          (s.items[i].alias != "" || Bare(s.items[i].value)) && (binds || Written(s.items[i].value)))
    && (s.from_.Some? ==> Permanent(s.from_.value))
    && (forall j :: 0 <= j < |s.joins| ==> Permanent(s.joins[j].table) && (binds || Written(s.joins[j].on)))
    && (s.where_.Some? ==> binds || Written(s.where_.value))
  }

  /** The query is a sentence of the fragment; `binds` says whether binds may stand for literals. */
  ghost predicate IsSentence(q: Query, binds: bool) {
    exists s :: WellFormed(s, binds) && Statement(s) == q
  }

  // ----- Reading a tree that the allowlist accepts

  function ReadLiteral(e: Expr): Literal
    requires AllowedExpr(e, true) && ListItem(e.kind)
  {
    match e.kind
    case Text(text) => Quoted(text)
    case Number(digits) => Numeric(digits)
    case Neg => Negative(e.kids[0].kind.digits)
    case Placeholder(name) => Bind(name)
  }

  function ReadTerm(e: Expr): Term
    requires AllowedExpr(e, true)
  {
    match e.kind
    case Column(table, name) => Reference(table, name)
    case NullLiteral => Nothing
    case CountStar => CountRows
    case Compare(op) => Comparison(op, ReadTerm(e.kids[0]), ReadTerm(e.kids[1]))
    case And => Both(ReadTerm(e.kids[0]), ReadTerm(e.kids[1]))
    case Or => Either(ReadTerm(e.kids[0]), ReadTerm(e.kids[1]))
    case Paren => Group(ReadTerm(e.kids[0]))
    case Is => IsNull(ReadTerm(e.kids[0]))
    case In =>
      OneOf(e.kids[0].kind.table, e.kids[0].kind.name,
            seq(|e.kids| - 1, i requires 0 <= i < |e.kids| - 1 => ReadLiteral(e.kids[i + 1])))
    case _ => Constant(ReadLiteral(e))
  }

  lemma LiteralRead(e: Expr)
    requires AllowedExpr(e, true) && ListItem(e.kind)
    ensures LiteralTree(ReadLiteral(e)) == e
  {
    if e.kind.Neg? {
      assert AllowedExpr(e.kids[0], true);
      assert e.kids == [e.kids[0]] && e.kids[0] == Leaf(e.kids[0].kind);
    }
  }

  lemma {:induction false} TermRead(e: Expr)
    requires AllowedExpr(e, true)
    ensures Tree(ReadTerm(e)) == e
  {
    forall i | 0 <= i < |e.kids| {
      TermRead(e.kids[i]);
    }
    match e.kind {
      case Compare(_) => assert e.kids == [e.kids[0], e.kids[1]];
      case And => assert e.kids == [e.kids[0], e.kids[1]];
      case Or => assert e.kids == [e.kids[0], e.kids[1]];
      case Paren => assert e.kids == [e.kids[0]];
      case Is =>
        assert AllowedExpr(e.kids[1], true) && e.kids[1] == Leaf(NullLiteral);
        assert e.kids == [e.kids[0], e.kids[1]];
      case In => ListRead(e);
      case Text(_) => LiteralRead(e);
      case Number(_) => LiteralRead(e);
      case Neg => LiteralRead(e);
      case Placeholder(_) => LiteralRead(e);
      case _ =>
    }
  }

  lemma ListRead(e: Expr)
    requires AllowedExpr(e, true) && e.kind.In?
    ensures Tree(ReadTerm(e)) == e
  {
    assert AllowedExpr(e.kids[0], true) && e.kids[0] == Leaf(e.kids[0].kind);
    var t := ReadTerm(e);
    forall i | 1 <= i < |e.kids|
      ensures LiteralTrees(t.literals)[i - 1] == e.kids[i]
    {
      LiteralRead(e.kids[i]);
    }
    assert e.kids == [e.kids[0]] + LiteralTrees(t.literals);
  }

  lemma {:induction false} ReadIsWritten(e: Expr)
    requires AllowedExpr(e, true)
    ensures AllowedExpr(e, false) ==> Written(ReadTerm(e))
  {
    if AllowedExpr(e, false) {
      forall i | 0 <= i < |e.kids| {
        ReadIsWritten(e.kids[i]);
      }
    }
  }

  lemma {:induction false} AllowedWithBinds(e: Expr)
    requires AllowedExpr(e, false)
    ensures AllowedExpr(e, true)
  {
    forall i | 0 <= i < |e.kids| {
      AllowedWithBinds(e.kids[i]);
    }
  }

  /** An allowed expression is the tree of a term, written without binds where they are not allowed. */
  lemma AllowedIsTerm(e: Expr, binds: bool)
    requires AllowedExpr(e, binds)
    ensures AllowedExpr(e, true) && Tree(ReadTerm(e)) == e && (binds || Written(ReadTerm(e)))
  {
    if !binds {
      AllowedWithBinds(e);
      ReadIsWritten(e);
    }
    TermRead(e);
  }

  lemma LiteralIsAllowed(l: Literal, binds: bool)
    requires binds || BindFree(l)
    ensures AllowedExpr(LiteralTree(l), binds) && ListItem(LiteralTree(l).kind)
  {
    if l.Negative? {
      assert AllowedExpr(Leaf(Number(l.digits)), binds);
    }
  }

  /** The tree of a term is allowed. */
  lemma {:induction false} TermIsAllowed(t: Term, binds: bool)
    requires binds || Written(t)
    ensures AllowedExpr(Tree(t), binds)
  {
    match t {
      case Reference(_, _) =>
      case Constant(literal) => LiteralIsAllowed(literal, binds);
      case Nothing =>
      case CountRows =>
      case Comparison(_, left, right) => TermIsAllowed(left, binds); TermIsAllowed(right, binds);
      case Both(left, right) => TermIsAllowed(left, binds); TermIsAllowed(right, binds);
      case Either(left, right) => TermIsAllowed(left, binds); TermIsAllowed(right, binds);
      case Group(inner) => TermIsAllowed(inner, binds);
      case IsNull(operand) =>
        TermIsAllowed(operand, binds);
        assert AllowedExpr(Leaf(NullLiteral), binds);
      case OneOf(table, name, literals) => ListIsAllowed(table, name, literals, binds);
    }
  }

  lemma ListIsAllowed(table: string, name: string, literals: seq<Literal>, binds: bool)
    requires forall i :: 0 <= i < |literals| ==> binds || BindFree(literals[i])
    ensures AllowedExpr(Tree(OneOf(table, name, literals)), binds)
  {
    var e := Tree(OneOf(table, name, literals));
    assert AllowedExpr(Leaf(Column(table, name)), binds);
    forall i | 1 <= i < |e.kids|
      ensures ListItem(e.kids[i].kind) && AllowedExpr(e.kids[i], binds)
    {
      LiteralIsAllowed(literals[i - 1], binds);
      assert e.kids[i] == LiteralTree(literals[i - 1]);
    }
  }

  // ----- Statements

  function ReadTable(t: TableRef): Table {
    Table(t.db, t.name, t.alias)
  }

  function ReadItem(p: Projection): SelectItem
    requires p.Item? ==> AllowedExpr(p.value, true)
  {
    match p
    case AllColumns => Star
    case TableColumns(table) => StarOf(table)
    case Item(value, alias) => Shown(ReadTerm(value), alias)
  }

  function ReadJoin(j: Join): JoinClause
    requires j.on.Some? && AllowedExpr(j.on.value, true)
  {
    JoinClause(j.side == "LEFT", j.joinKind == "INNER", ReadTable(j.table), ReadTerm(j.on.value))
  }

  function ReadKey(k: OrderKey): SortItem
    requires k.target.kind.Column?
  {
    SortItem(k.target.kind.table, k.target.kind.name, k.descending, k.nullsFirst)
  }

  ghost predicate Readable(q: Query) {
    && EveryExpr(q, e => AllowedExpr(e, true))
    && (forall j :: 0 <= j < |q.joins| ==> q.joins[j].on.Some?)
    && (forall k :: 0 <= k < |q.order| ==> q.order[k].target.kind.Column?)
    && (q.limit.Some? ==> q.limit.value.Rows?)
  }

  ghost function ReadQuery(q: Query): Sentence
    requires Readable(q)
  {
    Sentence(seq(|q.expressions|, i requires 0 <= i < |q.expressions| => ReadItem(q.expressions[i])),
             if q.from_.Some? then Some(ReadTable(q.from_.value)) else None,
             seq(|q.joins|, j requires 0 <= j < |q.joins| => ReadJoin(q.joins[j])),
             if q.where_.Some? then Some(ReadTerm(q.where_.value)) else None,
             seq(|q.order|, k requires 0 <= k < |q.order| => ReadKey(q.order[k])),
             if q.limit.Some? then Some(q.limit.value.count) else None)
  }

  lemma AllowedIsReadable(q: Query, binds: bool)
    requires Allowed(q, binds)
    ensures Readable(q)
  {
    forall e | AllowedExpr(e, binds)
      ensures AllowedExpr(e, true)
    {
      AllowedIsTerm(e, binds);
    }
    forall j | 0 <= j < |q.joins|
      ensures q.joins[j].on.Some?
    {
      assert AllowedJoin(q.joins[j]);
    }
    forall k | 0 <= k < |q.order|
      ensures q.order[k].target.kind.Column?
    {
      assert AllowedKey(q.order[k]);
    }
  }

  lemma TableRead(t: TableRef)
    requires AllowedTable(t)
    ensures TableNode(ReadTable(t)) == t && Permanent(ReadTable(t))
  {
  }

  lemma ItemRead(p: Projection, binds: bool)
    requires AllowedProjection(p) && (p.Item? ==> AllowedExpr(p.value, binds))
    ensures p.Item? ==> AllowedExpr(p.value, true)
    ensures var i := ReadItem(p);
      && ItemNode(i) == p
      && (i.Shown? ==> (i.alias != "" || Bare(i.value)) && (binds || Written(i.value)))
  {
    if p.Item? {
      AllowedIsTerm(p.value, binds);
    }
  }

  lemma JoinRead(j: Join, binds: bool)
    requires AllowedJoin(j) && AllowedExpr(j.on.value, binds)
    ensures AllowedExpr(j.on.value, true) && JoinNode(ReadJoin(j)) == j
    ensures Permanent(ReadJoin(j).table) && (binds || Written(ReadJoin(j).on))
  {
    AllowedIsTerm(j.on.value, binds);
    TableRead(j.table);
  }

  lemma KeyRead(k: OrderKey, binds: bool)
    requires AllowedKey(k) && AllowedExpr(k.target, binds)
    ensures SortNode(ReadKey(k)) == k
  {
  }

  lemma AllowedIsSentence(q: Query, binds: bool)
    requires Allowed(q, binds)
    ensures Readable(q) && WellFormed(ReadQuery(q), binds) && Statement(ReadQuery(q)) == q
  {
    AllowedIsReadable(q, binds);
    var s := ReadQuery(q);
    forall i | 0 <= i < |q.expressions|
      ensures ItemNode(s.items[i]) == q.expressions[i]
      ensures s.items[i].Shown? ==>
        (s.items[i].alias != "" || Bare(s.items[i].value)) && (binds || Written(s.items[i].value))
    {
      ItemRead(q.expressions[i], binds);
    }
    forall j | 0 <= j < |q.joins|
      ensures JoinNode(s.joins[j]) == q.joins[j] && Permanent(s.joins[j].table) && (binds || Written(s.joins[j].on))
    {
      assert AllowedJoin(q.joins[j]);
      JoinRead(q.joins[j], binds);
    }
    forall k | 0 <= k < |q.order|
      ensures SortNode(s.order[k]) == q.order[k]
    {
      KeyRead(q.order[k], binds);
    }
    if q.from_.Some? {
      TableRead(q.from_.value);
    }
    if q.where_.Some? {
      AllowedIsTerm(q.where_.value, binds);
    }
  }

  lemma SentenceIsAllowed(s: Sentence, binds: bool)
    requires WellFormed(s, binds)
    ensures Allowed(Statement(s), binds)
  {
    var q := Statement(s);
    forall i | 0 <= i < |q.expressions|
      ensures AllowedProjection(q.expressions[i])
      ensures q.expressions[i].Item? ==> AllowedExpr(q.expressions[i].value, binds)
    {
      if s.items[i].Shown? {
        TermIsAllowed(s.items[i].value, binds);
      }
    }
    forall j | 0 <= j < |q.joins|
      ensures AllowedJoin(q.joins[j]) && AllowedExpr(q.joins[j].on.value, binds)
    {
      TermIsAllowed(s.joins[j].on, binds);
    }
    forall k | 0 <= k < |q.order|
      ensures AllowedKey(q.order[k]) && AllowedExpr(q.order[k].target, binds)
    {
    }
    if s.where_.Some? {
      TermIsAllowed(s.where_.value, binds);
    }
  }

  /** MAIN RESULT. The allowlist accepts exactly the sentences of the grammar. */
  lemma AllowedExactly(q: Query, binds: bool)
    ensures Allowed(q, binds) <==> IsSentence(q, binds)
  {
    if Allowed(q, binds) {
      AllowedIsSentence(q, binds);
    }
    if s :| WellFormed(s, binds) && Statement(s) == q {
      SentenceIsAllowed(s, binds);
    }
  }
}
