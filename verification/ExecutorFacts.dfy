/** What the row loop delivers, cell by cell, and exactly when it delivers. */
module ExecutorFacts {
  import opened Outcomes
  import opened Values
  import opened Tokens
  import opened Issue
  import opened Executor
  import opened Clock

  // ----- What a reader makes of an unprotected cell

  /** The type that the encoding names, as the tag of its parser. */
  function TagOf(e: Encoding): string {
    match e
    case InDecimal => "decimal"
    case InDate => "date"
    case InDateTime => "datetime"
    case InTime => "time"
    case InUuid => "uuid"
    case InBase64 => "bytes"
    case _ => ""
  }

  /** Values that JSON has itself. */
  predicate InJsonItself(v: Value) {
    v.Str? || v.Bool? || v.Int? || (v.Float? && v.finite)
  }

  /** The value of a cell that is no token, from the encoding of its column alone. */
  function ReadCell(lib: Library, e: Encoding, cell: Cell): Option<Value> {
    match cell
    case NullCell => Some(Null)
    case Plain(v) => if e == InJson && InJsonItself(v) then Some(v) else None
    case TextCell(text) => if TextTag(TagOf(e)) then lib.parse(TagOf(e), text) else None
    case TokenCell(_) => None
  }

  /** A value as a reader can have it back: itself, but for a span of time, which is shown as a time of
      day, and for the other types of byte strings. */
  function Delivered(v: Value): Value {
    match v
    case TimeDelta(us) => if us >= 0 then Time(ClockText(us)) else v
    case ByteBuffer(data) => Bytes(data)
    case _ => v
  }

  /** The values that can be shown as they are. */
  predicate Showable(v: Value) {
    match v
    case Float(_, finite) => finite
    case Decimal(_, finite) => finite
    case TimeDelta(us) => 0 <= us < MICROSECONDS_PER_DAY
    case Foreign(_) => false
    case _ => true
  }

  /** Values that one column can hold together. */
  predicate SameForm(v: Value, w: Value) {
    || (InJsonItself(v) && InJsonItself(w))
    || (v.Decimal? && w.Decimal?) || (v.DateTime? && w.DateTime?) || (v.Date? && w.Date?)
    || ((v.Time? || v.TimeDelta?) && (w.Time? || w.TimeDelta?))
    || (v.Uuid? && w.Uuid?)
    || ((v.Bytes? || v.ByteBuffer?) && (w.Bytes? || w.ByteBuffer?))
  }

  /** The reader's side: the cell reads as the value, and a text is the canonical text of it. */
  predicate ReadsAs(lib: Library, e: Encoding, cell: Cell, v: Value) {
    && ReadCell(lib, e, cell) == Some(Delivered(v))
    && (cell.TextCell? ==> cell.text == lib.show(Delivered(v)))
  }

  /** Every value but a non-finite number, a span outside one day and a foreign type is shown. */
  lemma ShownExactly(lib: Library, v: Value)
    requires v != Null
    ensures EncodeValue(lib, v).Ok? <==> Showable(v)
  {
  }

  /** MAIN RESULT. Every value but a non-finite number, a span outside one day and a foreign type is
      shown, and a reader gets it back with its type from the cell and the encoding. */
  lemma ShownReadsBack(lib: Library, v: Value)
    requires FaithfulText(lib) && v != Null
    ensures EncodeValue(lib, v).Ok? <==> Showable(v)
    ensures Showable(v) ==>
      ReadsAs(lib, EncodeValue(lib, v).value.encoding, EncodeValue(lib, v).value.cell, v)
  {
    var w := Delivered(v);
    if Tagged(lib, w).Some? && TextTag(Tagged(lib, w).value.0) {
      assert lib.parse(Tagged(lib, w).value.0, lib.show(w)) == Some(w);
    }
  }

  /** A span of time that is shown can be told from every other. */
  lemma SpansReadBack(us: int)
    requires Showable(TimeDelta(us))
    ensures Delivered(TimeDelta(us)).Time? && us >= 0
    ensures var text := Delivered(TimeDelta(us)).iso; (|text| == 8 || |text| == 15) && ReadClock(text) == us
  {
    ClockRoundTrip(us);
  }

  /** Two values have the same encoding iff they are of the same form. */
  lemma FormsAreEncodings(lib: Library, v: Value, w: Value)
    requires v != Null && w != Null && Showable(v) && Showable(w)
    ensures EncodeValue(lib, v).Ok? && EncodeValue(lib, w).Ok?
    ensures EncodeValue(lib, v).value.encoding == EncodeValue(lib, w).value.encoding <==> SameForm(v, w)
  {
  }

  // ----- The row loop

  /** The cell made of value `v`: NULL for NULL, a token of `v` if protected, and otherwise the
      encoding of `v`, which is the encoding of its column. */
  ghost predicate CellMade(codec: Codec, plan: OutputPlan, nonce: seq<byte>, v: Value, cell: Cell,
                           seen: Option<Encoding>) {
    if v == Null then cell == NullCell
    else if plan.protected then
      cell.TokenCell? && Encrypt(codec, nonce, v) == Ok(Some(cell.token))
    else
      seen.Some? && EncodeValue(codec.lib, v) == Ok(Encoded(cell, seen.value))
  }

  ghost predicate RowMade(codec: Codec, plans: seq<OutputPlan>, nonces: nat -> seq<byte>, raw: Row, cells: seq<Cell>,
                          seen: seq<Option<Encoding>>)
    requires |plans| == |seen|
  {
    && |raw| == |cells| == |plans|
    && forall j :: 0 <= j < |plans| ==> CellMade(codec, plans[j], nonces(j), raw[j], cells[j], seen[j])
  }

  /** Encodings once fixed stay. */
  ghost predicate Extends(seen: seq<Option<Encoding>>, after: seq<Option<Encoding>>) {
    |seen| == |after| && forall j :: 0 <= j < |seen| && seen[j].Some? ==> after[j] == seen[j]
  }

  lemma {:induction false} RunRowMakes(codec: Codec, plans: seq<OutputPlan>, nonces: nat -> seq<byte>, raw: Row,
                                       seen: seq<Option<Encoding>>, from: nat)
    requires |raw| == |plans| == |seen| && from <= |plans|
    requires RunRow(codec, plans, nonces, raw, seen, from).Ok?
    ensures var (cells, after) := RunRow(codec, plans, nonces, raw, seen, from).value;
      && Extends(seen, after)
      && (forall j :: from <= j < |plans| ==> CellMade(codec, plans[j], nonces(j), raw[j], cells[j - from], after[j]))
    decreases |plans| - from
  {
    if from < |plans| {
      var step := RunCell(codec, plans[from], nonces(from), raw[from], seen[from]).value;
      RunRowMakes(codec, plans, nonces, raw, seen[from := step.1], from + 1);
      var (cells, after) := RunRow(codec, plans, nonces, raw, seen, from).value;
      assert Extends(seen[from := step.1], after);
      assert step.1.Some? ==> after[from] == step.1;
      assert CellMade(codec, plans[from], nonces(from), raw[from], step.0, after[from]) by {
        RunCellMakes(codec, plans[from], nonces(from), raw[from], seen[from]);
      }
    }
  }

  lemma RunCellMakes(codec: Codec, plan: OutputPlan, nonce: seq<byte>, v: Value, seen: Option<Encoding>)
    requires RunCell(codec, plan, nonce, v, seen).Ok?
    ensures var (cell, after) := RunCell(codec, plan, nonce, v, seen).value;
      CellMade(codec, plan, nonce, v, cell, after) && (seen.Some? ==> after == seen)
  {
  }

  lemma {:induction false} RunRowsMake(codec: Codec, plans: seq<OutputPlan>, nonces: Nonces, raws: seq<Row>,
                                       seen: seq<Option<Encoding>>, from: nat)
    requires |seen| == |plans| && from <= |raws|
    requires RunRows(codec, plans, nonces, raws, seen, from).Ok?
    ensures var (rows, final) := RunRows(codec, plans, nonces, raws, seen, from).value;
      && Extends(seen, final)
      && (forall i :: from <= i < |raws| ==>
          RowMade(codec, plans, RowNonces(nonces, i), raws[i], rows[i - from], final))
    decreases |raws| - from
  {
    if from < |raws| {
      var (cells, after) := RunRow(codec, plans, RowNonces(nonces, from), raws[from], seen, 0).value;
      RunRowMakes(codec, plans, RowNonces(nonces, from), raws[from], seen, 0);
      RunRowsMake(codec, plans, nonces, raws, after, from + 1);
      var (rows, final) := RunRows(codec, plans, nonces, raws, seen, from).value;
      ghost var rest := RunRows(codec, plans, nonces, raws, after, from + 1).value.0;
      RowStaysMade(codec, plans, RowNonces(nonces, from), raws[from], cells, after, final);
      forall i | from < i < |raws|
        ensures RowMade(codec, plans, RowNonces(nonces, i), raws[i], rows[i - from], final)
      {
        assert rows[i - from] == rest[i - (from + 1)];
      }
    }
  }

  /** A row stays as it was made when other columns get their encodings. */
  lemma RowStaysMade(codec: Codec, plans: seq<OutputPlan>, nonces: nat -> seq<byte>, raw: Row, cells: seq<Cell>,
                     after: seq<Option<Encoding>>, final: seq<Option<Encoding>>)
    requires |plans| == |after| && RowMade(codec, plans, nonces, raw, cells, after) && Extends(after, final)
    ensures RowMade(codec, plans, nonces, raw, cells, final)
  {
    forall j | 0 <= j < |plans|
      ensures CellMade(codec, plans[j], nonces(j), raw[j], cells[j], final[j])
    {
      assert CellMade(codec, plans[j], nonces(j), raw[j], cells[j], after[j]);
    }
  }

  /** The first rows of the result, as many as the cap allows. */
  function KeptRows(available: seq<Row>, maxRows: nat): seq<Row> {
    if |available| <= maxRows then available else available[..maxRows]
  }

  lemma ExecuteKeeps(codec: Codec, plans: seq<OutputPlan>, maxRows: nat, nonces: Nonces, available: seq<Row>)
    ensures var run := RunRows(codec, plans, nonces, KeptRows(available, maxRows), Unseen(|plans|), 0);
      Execute(codec, plans, maxRows, nonces, |plans|, available) ==
      if run.Rejected? then Rejected(run.reason)
      else Ok(ExecutionResult(Columns(plans, run.value.1), run.value.0, |available| > maxRows))
  {
    var fetched := if |available| <= maxRows + 1 then available else available[..maxRows + 1];
    assert (if |fetched| <= maxRows then fetched else fetched[..maxRows]) == KeptRows(available, maxRows);
  }

  /** A returned cell as a reader sees it. */
  ghost predicate CellShows(codec: Codec, column: ResultColumn, v: Value, cell: Cell) {
    if v == Null then cell == NullCell
    else if column.plan.protected then
      && cell.TokenCell? && column.encoding == InToken
      && Decrypt(codec, cell.token) == (if Restorable(v) then Ok(v) else Rejected(InvalidToken))
    else
      ReadsAs(codec.lib, column.encoding, cell, v)
  }

  /** The encoding of a column: that of tokens if it is protected, and plain JSON if no cell says
      otherwise. */
  ghost predicate ColumnReported(plan: OutputPlan, column: ResultColumn, kept: seq<Row>, j: nat) {
    && column.plan == plan
    && (plan.protected ==> column.encoding == InToken)
    && (!plan.protected && (forall i :: 0 <= i < |kept| && j < |kept[i]| ==> kept[i][j] == Null) ==>
          column.encoding == InJson)
  }

  ghost predicate GoodNonces(nonces: Nonces) {
    forall i: nat, j: nat :: IsNonce(nonces(i, j))
  }

  /** MAIN RESULT. An answer holds the first `maxRows` available rows and says whether there were
      more; NULL stays NULL, a protected cell decrypts to the raw cell in its place, and from any other
      cell and the encoding reported for its column a reader has the raw value back with its type. */
  lemma AnswerShowsRows(codec: Codec, plans: seq<OutputPlan>, maxRows: nat, nonces: Nonces, available: seq<Row>)
    requires Execute(codec, plans, maxRows, nonces, |plans|, available).Ok?
    requires Ideal(codec.lib) && GoodNonces(nonces)
    ensures var r, kept := Execute(codec, plans, maxRows, nonces, |plans|, available).value,
        KeptRows(available, maxRows);
      && |r.rows| == |kept| && |r.columns| == |plans|
      && (r.truncated <==> |available| > maxRows)
      && forall i, j {:trigger r.rows[i][j]} :: 0 <= i < |kept| && 0 <= j < |plans| ==>
        |kept[i]| == |r.rows[i]| == |plans| && CellShows(codec, r.columns[j], kept[i][j], r.rows[i][j])
    ensures var r := Execute(codec, plans, maxRows, nonces, |plans|, available).value;
      forall j :: 0 <= j < |plans| ==>
        j < |r.columns| && ColumnReported(plans[j], r.columns[j], KeptRows(available, maxRows), j)
  {
    var kept := KeptRows(available, maxRows);
    ExecuteKeeps(codec, plans, maxRows, nonces, available);
    RunRowsMake(codec, plans, nonces, kept, Unseen(|plans|), 0);
    var r := Execute(codec, plans, maxRows, nonces, |plans|, available).value;
    forall j | 0 <= j < |plans| {
      AnswerColumn(codec, plans, maxRows, nonces, available, j);
    }
    forall i, j | 0 <= i < |kept| && 0 <= j < |plans|
      ensures |kept[i]| == |r.rows[i]| == |plans| && CellShows(codec, r.columns[j], kept[i][j], r.rows[i][j])
    {
      AnswerCell(codec, plans, maxRows, nonces, available, i, j);
    }
  }

  /** One cell of an answer. */
  lemma AnswerCell(codec: Codec, plans: seq<OutputPlan>, maxRows: nat, nonces: Nonces, available: seq<Row>, i: nat,
                   j: nat)
    requires Execute(codec, plans, maxRows, nonces, |plans|, available).Ok?
    requires Ideal(codec.lib) && GoodNonces(nonces)
    requires i < |KeptRows(available, maxRows)| && j < |plans|
    ensures var r, kept := Execute(codec, plans, maxRows, nonces, |plans|, available).value,
        KeptRows(available, maxRows);
      && |r.rows| == |kept| && |r.columns| == |plans|
      && |kept[i]| == |r.rows[i]| == |plans| && CellShows(codec, r.columns[j], kept[i][j], r.rows[i][j])
  {
    var kept := KeptRows(available, maxRows);
    ExecuteKeeps(codec, plans, maxRows, nonces, available);
    RunRowsMake(codec, plans, nonces, kept, Unseen(|plans|), 0);
    var r := Execute(codec, plans, maxRows, nonces, |plans|, available).value;
    var final := RunRows(codec, plans, nonces, kept, Unseen(|plans|), 0).value.1;
    assert RowMade(codec, plans, RowNonces(nonces, i), kept[i], r.rows[i], final);
    assert CellMade(codec, plans[j], nonces(i, j), kept[i][j], r.rows[i][j], final[j]);
    MadeCellShows(codec, plans[j], nonces(i, j), kept[i][j], r.rows[i][j], final[j]);
  }

  lemma MadeCellShows(codec: Codec, plan: OutputPlan, nonce: seq<byte>, v: Value, cell: Cell, seen: Option<Encoding>)
    requires CellMade(codec, plan, nonce, v, cell, seen) && Ideal(codec.lib) && IsNonce(nonce)
    ensures CellShows(codec, ResultColumn(plan, ColumnEncoding(plan, seen)), v, cell)
  {
    if v != Null {
      if plan.protected {
        TokenRoundTrip(codec, nonce, v);
      } else {
        ShownReadsBack(codec.lib, v);
      }
    }
  }

  /** NULL cells say nothing of the encoding of their column. */
  lemma {:induction false} NullsSayNothing(codec: Codec, plans: seq<OutputPlan>, nonces: nat -> seq<byte>, raw: Row,
                                           seen: seq<Option<Encoding>>, from: nat, j: nat)
    requires |raw| == |plans| == |seen| && from <= |plans| && j < |plans| && raw[j] == Null
    requires RunRow(codec, plans, nonces, raw, seen, from).Ok?
    ensures RunRow(codec, plans, nonces, raw, seen, from).value.1[j] == seen[j]
    decreases |plans| - from
  {
    if from < |plans| {
      var step := RunCell(codec, plans[from], nonces(from), raw[from], seen[from]).value;
      NullsSayNothing(codec, plans, nonces, raw, seen[from := step.1], from + 1, j);
    }
  }

  lemma {:induction false} NullColumnSaysNothing(codec: Codec, plans: seq<OutputPlan>, nonces: Nonces, raws: seq<Row>,
                                                 seen: seq<Option<Encoding>>, from: nat, j: nat)
    requires |seen| == |plans| && from <= |raws| && j < |plans|
    requires forall i :: 0 <= i < |raws| && j < |raws[i]| ==> raws[i][j] == Null
    requires RunRows(codec, plans, nonces, raws, seen, from).Ok?
    ensures RunRows(codec, plans, nonces, raws, seen, from).value.1[j] == seen[j]
    decreases |raws| - from
  {
    if from < |raws| {
      var after := RunRow(codec, plans, RowNonces(nonces, from), raws[from], seen, 0).value.1;
      NullsSayNothing(codec, plans, RowNonces(nonces, from), raws[from], seen, 0, j);
      NullColumnSaysNothing(codec, plans, nonces, raws, after, from + 1, j);
    }
  }

  lemma AnswerColumn(codec: Codec, plans: seq<OutputPlan>, maxRows: nat, nonces: Nonces, available: seq<Row>, j: nat)
    requires Execute(codec, plans, maxRows, nonces, |plans|, available).Ok? && j < |plans|
    ensures var r := Execute(codec, plans, maxRows, nonces, |plans|, available).value;
      j < |r.columns| && ColumnReported(plans[j], r.columns[j], KeptRows(available, maxRows), j)
  {
    var kept := KeptRows(available, maxRows);
    ExecuteKeeps(codec, plans, maxRows, nonces, available);
    if forall i :: 0 <= i < |kept| && j < |kept[i]| ==> kept[i][j] == Null {
      NullColumnSaysNothing(codec, plans, nonces, kept, Unseen(|plans|), 0, j);
    }
  }

  // ----- Exactly when there is an answer

  /** The value can be shown in a column of encoding `e`. */
  ghost predicate CellFits(codec: Codec, plan: OutputPlan, v: Value, e: Encoding) {
    || v == Null
    || (plan.protected && Tokenisable(codec, v))
    || (!plan.protected && EncodeValue(codec.lib, v).Ok? && EncodeValue(codec.lib, v).value.encoding == e)
  }

  ghost predicate RowFits(codec: Codec, plans: seq<OutputPlan>, raw: Row, es: seq<Encoding>)
    requires |es| == |plans|
  {
    |raw| == |plans| && forall j :: 0 <= j < |plans| ==> CellFits(codec, plans[j], raw[j], es[j])
  }

  ghost predicate Agrees(seen: seq<Option<Encoding>>, es: seq<Encoding>) {
    |seen| == |es| && forall j :: 0 <= j < |seen| && seen[j].Some? ==> seen[j].value == es[j]
  }

  lemma FittingCellRuns(codec: Codec, plan: OutputPlan, nonce: seq<byte>, v: Value, seen: Option<Encoding>, e: Encoding)
    requires IdealCipher(codec.lib) && IsNonce(nonce)
    requires CellFits(codec, plan, v, e) && (seen.Some? ==> seen.value == e)
    ensures RunCell(codec, plan, nonce, v, seen).Ok?
    ensures var after := RunCell(codec, plan, nonce, v, seen).value.1; after.Some? ==> after.value == e
  {
    if v != Null && plan.protected {
      TokenSizeThreshold(codec, nonce, v);
    }
  }

  lemma {:induction false} FittingRowRuns(codec: Codec, plans: seq<OutputPlan>, nonces: nat -> seq<byte>, raw: Row,
                                          seen: seq<Option<Encoding>>, from: nat, es: seq<Encoding>)
    requires |raw| == |plans| == |seen| == |es| && from <= |plans|
    requires IdealCipher(codec.lib) && (forall j: nat :: IsNonce(nonces(j)))
    requires RowFits(codec, plans, raw, es) && Agrees(seen, es)
    ensures RunRow(codec, plans, nonces, raw, seen, from).Ok?
    ensures Agrees(RunRow(codec, plans, nonces, raw, seen, from).value.1, es)
    decreases |plans| - from
  {
    if from < |plans| {
      FittingCellRuns(codec, plans[from], nonces(from), raw[from], seen[from], es[from]);
      var step := RunCell(codec, plans[from], nonces(from), raw[from], seen[from]).value;
      FittingRowRuns(codec, plans, nonces, raw, seen[from := step.1], from + 1, es);
    }
  }

  lemma {:induction false} FittingRowsRun(codec: Codec, plans: seq<OutputPlan>, nonces: Nonces, raws: seq<Row>,
                                          seen: seq<Option<Encoding>>, from: nat, es: seq<Encoding>)
    requires |seen| == |plans| == |es| && from <= |raws|
    requires IdealCipher(codec.lib) && GoodNonces(nonces) && Agrees(seen, es)
    requires forall i :: from <= i < |raws| ==> RowFits(codec, plans, raws[i], es)
    ensures RunRows(codec, plans, nonces, raws, seen, from).Ok?
    decreases |raws| - from
  {
    if from < |raws| {
      assert RowFits(codec, plans, raws[from], es);
      FittingRowRuns(codec, plans, RowNonces(nonces, from), raws[from], seen, 0, es);
      FittingRowsRun(codec, plans, nonces, raws,
                     RunRow(codec, plans, RowNonces(nonces, from), raws[from], seen, 0).value.1, from + 1, es);
    }
  }

  function Chosen(seen: seq<Option<Encoding>>): seq<Encoding> {
    seq(|seen|, j requires 0 <= j < |seen| => if seen[j].Some? then seen[j].value else InJson)
  }

  /** There is an answer iff some choice of one encoding per column fits every kept row. */
  lemma AnswersByEncoding(codec: Codec, plans: seq<OutputPlan>, maxRows: nat, nonces: Nonces, available: seq<Row>)
    requires IdealCipher(codec.lib) && GoodNonces(nonces)
    ensures Execute(codec, plans, maxRows, nonces, |plans|, available).Ok? <==>
            exists es: seq<Encoding> :: |es| == |plans| &&
              forall i :: 0 <= i < |KeptRows(available, maxRows)| ==>
                RowFits(codec, plans, KeptRows(available, maxRows)[i], es)
  {
    var kept := KeptRows(available, maxRows);
    ExecuteKeeps(codec, plans, maxRows, nonces, available);
    if Execute(codec, plans, maxRows, nonces, |plans|, available).Ok? {
      RunRowsMake(codec, plans, nonces, kept, Unseen(|plans|), 0);
      var (rows, final) := RunRows(codec, plans, nonces, kept, Unseen(|plans|), 0).value;
      var es := Chosen(final);
      forall i | 0 <= i < |kept|
        ensures RowFits(codec, plans, kept[i], es)
      {
        assert RowMade(codec, plans, RowNonces(nonces, i), kept[i], rows[i], final);
        forall j | 0 <= j < |plans|
          ensures CellFits(codec, plans[j], kept[i][j], es[j])
        {
          assert CellMade(codec, plans[j], nonces(i, j), kept[i][j], rows[i][j], final[j]);
          if kept[i][j] != Null && plans[j].protected {
            TokenSizeThreshold(codec, nonces(i, j), kept[i][j]);
          }
        }
      }
    }
    if es: seq<Encoding> :| |es| == |plans| && forall i :: 0 <= i < |kept| ==> RowFits(codec, plans, kept[i], es) {
      FittingRowsRun(codec, plans, nonces, kept, Unseen(|plans|), 0, es);
    }
  }

  /** The cell can be answered: it is NULL, or a token can be made of it, or it can be shown. */
  ghost predicate CellAnswerable(codec: Codec, plan: OutputPlan, v: Value) {
    v == Null || if plan.protected then Tokenisable(codec, v) else Showable(v)
  }

  ghost predicate RowAnswerable(codec: Codec, plans: seq<OutputPlan>, raw: Row) {
    |raw| == |plans| && forall j :: 0 <= j < |plans| ==> CellAnswerable(codec, plans[j], raw[j])
  }

  /** The cells of an unprotected column are NULL or of one form. */
  ghost predicate ColumnUniform(plans: seq<OutputPlan>, kept: seq<Row>, j: nat) {
    j < |plans| && !plans[j].protected ==>
      forall i, k :: 0 <= i < |kept| && 0 <= k < |kept| && j < |kept[i]| && j < |kept[k]| ==>
        kept[i][j] == Null || kept[k][j] == Null || SameForm(kept[i][j], kept[k][j])
  }

  lemma FitsAreAnswerable(codec: Codec, plans: seq<OutputPlan>, kept: seq<Row>, es: seq<Encoding>)
    requires |es| == |plans| && forall i :: 0 <= i < |kept| ==> RowFits(codec, plans, kept[i], es)
    ensures forall i :: 0 <= i < |kept| ==> RowAnswerable(codec, plans, kept[i])
    ensures forall j :: 0 <= j < |plans| ==> ColumnUniform(plans, kept, j)
  {
    forall i, j | 0 <= i < |kept| && 0 <= j < |plans|
      ensures |kept[i]| == |plans| && CellAnswerable(codec, plans[j], kept[i][j])
      ensures CellFits(codec, plans[j], kept[i][j], es[j])
    {
      assert RowFits(codec, plans, kept[i], es) && CellFits(codec, plans[j], kept[i][j], es[j]);
      if kept[i][j] != Null {
        ShownExactly(codec.lib, kept[i][j]);
      }
    }
    assert forall i :: 0 <= i < |kept| ==> RowFits(codec, plans, kept[i], es);
    forall j | 0 <= j < |plans| && !plans[j].protected
      ensures ColumnUniform(plans, kept, j)
    {
      forall i, k | 0 <= i < |kept| && 0 <= k < |kept| && kept[i][j] != Null && kept[k][j] != Null
        ensures SameForm(kept[i][j], kept[k][j])
      {
        assert CellFits(codec, plans[j], kept[i][j], es[j]) && CellFits(codec, plans[j], kept[k][j], es[j]);
        ShownExactly(codec.lib, kept[i][j]);
        ShownExactly(codec.lib, kept[k][j]);
        FormsAreEncodings(codec.lib, kept[i][j], kept[k][j]);
      }
    }
  }

  /** The encoding that the first cell of a column to have one gives it. */
  ghost function FormOf(lib: Library, kept: seq<Row>, j: nat): Encoding {
    if exists i :: 0 <= i < |kept| && j < |kept[i]| && kept[i][j] != Null && EncodeValue(lib, kept[i][j]).Ok? then
      var i :| 0 <= i < |kept| && j < |kept[i]| && kept[i][j] != Null && EncodeValue(lib, kept[i][j]).Ok?;
      EncodeValue(lib, kept[i][j]).value.encoding
    else InJson
  }

  lemma AnswerableFits(codec: Codec, plans: seq<OutputPlan>, kept: seq<Row>, i: nat, j: nat)
    requires i < |kept| && j < |plans|
    requires forall k :: 0 <= k < |kept| ==> RowAnswerable(codec, plans, kept[k])
    requires ColumnUniform(plans, kept, j)
    ensures |kept[i]| == |plans| && CellFits(codec, plans[j], kept[i][j], FormOf(codec.lib, kept, j))
  {
    assert RowAnswerable(codec, plans, kept[i]) && CellAnswerable(codec, plans[j], kept[i][j]);
    var v := kept[i][j];
    if v != Null && !plans[j].protected {
      ShownExactly(codec.lib, v);
      var k :| 0 <= k < |kept| && j < |kept[k]| && kept[k][j] != Null && EncodeValue(codec.lib, kept[k][j]).Ok?
        && FormOf(codec.lib, kept, j) == EncodeValue(codec.lib, kept[k][j]).value.encoding;
      ShownExactly(codec.lib, kept[k][j]);
      FormsAreEncodings(codec.lib, v, kept[k][j]);
    }
  }

  lemma AnswerableRowsFit(codec: Codec, plans: seq<OutputPlan>, kept: seq<Row>) returns (es: seq<Encoding>)
    requires forall i :: 0 <= i < |kept| ==> RowAnswerable(codec, plans, kept[i])
    requires forall j :: 0 <= j < |plans| ==> ColumnUniform(plans, kept, j)
    ensures |es| == |plans| && forall i :: 0 <= i < |kept| ==> RowFits(codec, plans, kept[i], es)
  {
    es := seq(|plans|, j requires 0 <= j < |plans| => FormOf(codec.lib, kept, j));
    forall i | 0 <= i < |kept|
      ensures RowFits(codec, plans, kept[i], es)
    {
      assert RowAnswerable(codec, plans, kept[i]);
      forall j | 0 <= j < |plans|
        ensures CellFits(codec, plans[j], kept[i][j], es[j])
      {
        AnswerableFits(codec, plans, kept, i, j);
      }
    }
  }

  /** MAIN RESULT. There is an answer iff every kept row has a cell for each output, each of them NULL, or
      protected and small enough for a token, or a value that can be shown; and the cells of each
      unprotected column are of one form. */
  lemma AnswersExactly(codec: Codec, plans: seq<OutputPlan>, maxRows: nat, nonces: Nonces, available: seq<Row>)
    requires IdealCipher(codec.lib) && GoodNonces(nonces)
    ensures var kept := KeptRows(available, maxRows);
      Execute(codec, plans, maxRows, nonces, |plans|, available).Ok? <==>
      && (forall i :: 0 <= i < |kept| ==> RowAnswerable(codec, plans, kept[i]))
      && (forall j :: 0 <= j < |plans| ==> ColumnUniform(plans, kept, j))
  {
    var kept := KeptRows(available, maxRows);
    AnswersByEncoding(codec, plans, maxRows, nonces, available);
    if Execute(codec, plans, maxRows, nonces, |plans|, available).Ok? {
      var es: seq<Encoding> :| |es| == |plans| && forall i :: 0 <= i < |kept| ==> RowFits(codec, plans, kept[i], es);
      FitsAreAnswerable(codec, plans, kept, es);
    }
    if (forall i :: 0 <= i < |kept| ==> RowAnswerable(codec, plans, kept[i]))
       && (forall j :: 0 <= j < |plans| ==> ColumnUniform(plans, kept, j)) {
      var es := AnswerableRowsFit(codec, plans, kept);
    }
  }
}
