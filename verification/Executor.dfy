/** `security/executor.py`: the row loop that turns fetched rows into the answer, tokenising
    protected cells and giving every other column one encoding. */
module Executor {
  import opened Outcomes
  import opened Values
  import opened Tokens
  import opened Issue
  import opened Clock

  datatype Encoding = InJson | InToken | InDecimal | InDate | InDateTime | InTime | InUuid | InBase64

  /** A cell of the answer. */
  datatype Cell = NullCell | Plain(value: Value) | TextCell(text: string) | TokenCell(token: string)

  datatype Encoded = Encoded(cell: Cell, encoding: Encoding)

  /** The form and encoding of one unprotected value that is not NULL. */
  function EncodeValue(lib: Library, v: Value): Result<Encoded> {
    match v
    case Str(_) => Ok(Encoded(Plain(v), InJson))
    case Bool(_) => Ok(Encoded(Plain(v), InJson))
    case Int(_) => Ok(Encoded(Plain(v), InJson))
    case Float(_, finite) => if finite then Ok(Encoded(Plain(v), InJson)) else Rejected(UnsupportedResult)
    case Decimal(_, finite) => if finite then Ok(Encoded(TextCell(lib.show(v)), InDecimal))
      else Rejected(UnsupportedResult)
    case DateTime(_) => Ok(Encoded(TextCell(lib.show(v)), InDateTime))
    case Date(_) => Ok(Encoded(TextCell(lib.show(v)), InDate))
    case Time(_) => Ok(Encoded(TextCell(lib.show(v)), InTime))
    case TimeDelta(us) =>
      if 0 <= us < MICROSECONDS_PER_DAY then Ok(Encoded(TextCell(lib.show(Time(ClockText(us)))), InTime))
      else Rejected(UnsupportedResult)
    case Uuid(_) => Ok(Encoded(TextCell(lib.show(v)), InUuid))
    case Bytes(_) => Ok(Encoded(TextCell(lib.show(v)), InBase64))
    case ByteBuffer(data) => Ok(Encoded(TextCell(lib.show(Bytes(data))), InBase64))
    case _ => Rejected(UnsupportedResult)
  }

  datatype ResultColumn = ResultColumn(plan: OutputPlan, encoding: Encoding)

  datatype ExecutionResult = ExecutionResult(columns: seq<ResultColumn>, rows: seq<seq<Cell>>, truncated: bool)

  /** The nonce drawn for the cell at a row and column. */
  type Nonces = (nat, nat) -> seq<byte>

  // ----- One cell, one row, all rows: the loop as a recursion over its state

  /** A cell, and the encoding its column has afterwards. */
  function RunCell(codec: Codec, plan: OutputPlan, nonce: seq<byte>, v: Value,
                   seen: Option<Encoding>): Result<(Cell, Option<Encoding>)> {
    if v == Null then Ok((NullCell, seen))
    else if plan.protected then
      var token :- Encrypt(codec, nonce, v);
      Ok((if token.Some? then TokenCell(token.value) else NullCell, seen))
    else
      var e :- EncodeValue(codec.lib, v);
      if seen.Some? && seen.value != e.encoding then Rejected(UnsupportedResult)
      else Ok((e.cell, Some(e.encoding)))
  }

  /** The cells from column `from` on; `seen` holds one entry per column. */
  function RunRow(codec: Codec, plans: seq<OutputPlan>, nonces: nat -> seq<byte>, raw: Row,
                  seen: seq<Option<Encoding>>, from: nat): Result<(seq<Cell>, seq<Option<Encoding>>)>
    requires |raw| == |plans| == |seen| && from <= |plans|
    ensures var r := RunRow(codec, plans, nonces, raw, seen, from);
      r.Ok? ==> |r.value.0| == |plans| - from && |r.value.1| == |plans|
    decreases |plans| - from
  {
    if from == |plans| then Ok(([], seen))
    else
      var (cell, encoding) :- RunCell(codec, plans[from], nonces(from), raw[from], seen[from]);
      var (cells, after) :- RunRow(codec, plans, nonces, raw, seen[from := encoding], from + 1);
      Ok(([cell] + cells, after))
  }

  function RowNonces(nonces: Nonces, row: nat): nat -> seq<byte> {
    (column: nat) => nonces(row, column)
  }

  function RunRows(codec: Codec, plans: seq<OutputPlan>, nonces: Nonces, raws: seq<Row>, seen: seq<Option<Encoding>>,
                   from: nat): Result<(seq<seq<Cell>>, seq<Option<Encoding>>)>
    requires |seen| == |plans| && from <= |raws|
    ensures var r := RunRows(codec, plans, nonces, raws, seen, from);
      r.Ok? ==> |r.value.0| == |raws| - from && |r.value.1| == |plans|
    decreases |raws| - from
  {
    if from == |raws| then Ok(([], seen))
    else if |raws[from]| != |plans| then Rejected(UnsupportedResult)
    else
      var (cells, after) :- RunRow(codec, plans, RowNonces(nonces, from), raws[from], seen, 0);
      var (rows, final) :- RunRows(codec, plans, nonces, raws, after, from + 1);
      Ok(([cells] + rows, final))
  }

  function Unseen(n: nat): seq<Option<Encoding>> {
    seq(n, _ => None)
  }

  function ColumnEncoding(plan: OutputPlan, seen: Option<Encoding>): Encoding {
    if plan.protected then InToken else if seen.Some? then seen.value else InJson
  }

  function Columns(plans: seq<OutputPlan>, seen: seq<Option<Encoding>>): seq<ResultColumn>
    requires |seen| == |plans|
  {
    seq(|plans|, i requires 0 <= i < |plans| => ResultColumn(plans[i], ColumnEncoding(plans[i], seen[i])))
  }

  /** At most one row more than `maxRows` is fetched; `keys` is the number of result columns. */
  function Execute(codec: Codec, plans: seq<OutputPlan>, maxRows: nat, nonces: Nonces, keys: nat,
                   available: seq<Row>): Result<ExecutionResult> {
    if keys != |plans| then Rejected(UnsupportedResult)
    else
      var fetched := if |available| <= maxRows + 1 then available else available[..maxRows + 1];
      var kept := if |fetched| <= maxRows then fetched else fetched[..maxRows];
      var (rows, seen) :- RunRows(codec, plans, nonces, kept, Unseen(|plans|), 0);
      Ok(ExecutionResult(Columns(plans, seen), rows, |fetched| > maxRows))
  }

  // ----- The loop as it is written

  /** The inner loop: the cells of one row, and the encodings after it. */
  method ShowRow(codec: Codec, plans: seq<OutputPlan>, nonces: nat -> seq<byte>, raw: Row, seen: seq<Option<Encoding>>)
      returns (r: Result<(seq<Cell>, seq<Option<Encoding>>)>)
    requires |raw| == |plans| == |seen|
    ensures r == RunRow(codec, plans, nonces, raw, seen, 0)
  {
    var cells: seq<Cell>, encodings := [], seen;
    FollowingStart(RunRow(codec, plans, nonces, raw, seen, 0));
    var j := 0;
    while j < |plans|
      invariant 0 <= j <= |plans| && |encodings| == |plans|
      invariant RunRow(codec, plans, nonces, raw, seen, 0)
        == Following(cells, RunRow(codec, plans, nonces, raw, encodings, j))
    {
      var step := RunCell(codec, plans[j], nonces(j), raw[j], encodings[j]);
      if step.Rejected? {
        return Rejected(step.reason);
      }
      FollowingStep(cells, step.value.0, RunRow(codec, plans, nonces, raw, encodings[j := step.value.1], j + 1));
      cells := cells + [step.value.0];
      encodings := encodings[j := step.value.1];
      j := j + 1;
    }
    assert cells + [] == cells;
    return Ok((cells, encodings));
  }

  /** The outer loop: every kept row, in order. */
  method ShowRows(codec: Codec, plans: seq<OutputPlan>, nonces: Nonces, kept: seq<Row>)
        returns (r: Result<(seq<seq<Cell>>, seq<Option<Encoding>>)>)
    ensures r == RunRows(codec, plans, nonces, kept, Unseen(|plans|), 0)
  {
    var rows: seq<seq<Cell>>, encodings := [], Unseen(|plans|);
    ghost var all := RunRows(codec, plans, nonces, kept, encodings, 0);
    FollowingStart(all);
    var i := 0;
    while i < |kept|
      invariant 0 <= i <= |kept| && |encodings| == |plans|
      invariant all == Following(rows, RunRows(codec, plans, nonces, kept, encodings, i))
    {
      if |kept[i]| != |plans| {
        return Rejected(UnsupportedResult);
      }
      var row := ShowRow(codec, plans, RowNonces(nonces, i), kept[i], encodings);
      if row.Rejected? {
        return Rejected(row.reason);
      }
      FollowingStep(rows, row.value.0, RunRows(codec, plans, nonces, kept, row.value.1, i + 1));
      rows := rows + [row.value.0];
      encodings := row.value.1;
      i := i + 1;
    }
    assert rows + [] == rows;
    return Ok((rows, encodings));
  }

  method ExecuteValidated(codec: Codec, plans: seq<OutputPlan>, maxRows: nat, nonces: Nonces, keys: nat,
                          available: seq<Row>) returns (r: Result<ExecutionResult>)
    ensures r == Execute(codec, plans, maxRows, nonces, keys, available)
  {
    if keys != |plans| {
      return Rejected(UnsupportedResult);
    }
    var fetched := if |available| <= maxRows + 1 then available else available[..maxRows + 1];
    var truncated := |fetched| > maxRows;
    var shown := ShowRows(codec, plans, nonces, if |fetched| <= maxRows then fetched else fetched[..maxRows]);
    if shown.Rejected? {
      return Rejected(shown.reason);
    }
    return Ok(ExecutionResult(Columns(plans, shown.value.1), shown.value.0, truncated));
  }

  /** The outcome of a loop that has produced `done` and has `rest` to come. */
  ghost function Following<T>(done: seq<T>, rest: Result<(seq<T>, seq<Option<Encoding>>)>)
    : Result<(seq<T>, seq<Option<Encoding>>)>
  {
    if rest.Rejected? then rest else Ok((done + rest.value.0, rest.value.1))
  }

  /** The state of a loop after its next element. */
  ghost function Then<T>(first: T, rest: Result<(seq<T>, seq<Option<Encoding>>)>)
    : Result<(seq<T>, seq<Option<Encoding>>)>
  {
    if rest.Rejected? then rest else Ok(([first] + rest.value.0, rest.value.1))
  }

  lemma FollowingStart<T>(rest: Result<(seq<T>, seq<Option<Encoding>>)>)
    ensures Following([], rest) == rest
  {
    if rest.Ok? {
      assert [] + rest.value.0 == rest.value.0;
    }
  }

  lemma FollowingStep<T>(done: seq<T>, next: T, rest: Result<(seq<T>, seq<Option<Encoding>>)>)
    ensures Following(done + [next], rest) == Following(done, Then(next, rest))
  {
    if rest.Ok? {
      assert done + [next] + rest.value.0 == done + ([next] + rest.value.0);
    }
  }
}
