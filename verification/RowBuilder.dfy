/** The chunking row builder: columns filled one value at a time, handed over as batches, refining a plain list of
    rows. */
module RowBuilder {
  import opened RowModel

  /** A typed append and the bytes it accounts for. */
  datatype Kind =
    | KBool | KInt16 | KInt32 | KInt64 | KFloat32 | KFloat64 | KDecimal | KString(length: nat) | KBytes(length: nat)
    | KDate | KTime | KTimestamp

  datatype Cell = Null | Value(kind: Kind, content: int)

  function Size(c: Cell): nat {
    match c
    case Null => 0
    case Value(kind, _) =>
      match kind
      case KBool => 1
      case KInt16 => 2
      case KInt32 => 4
      case KInt64 => 8
      case KFloat32 => 4
      case KFloat64 => 8
      case KDecimal => 16
      case KString(n) => n + 4
      case KBytes(n) => n + 4
      case KDate => 4
      case KTime => 8
      case KTimestamp => 8
  }

  /** Whether a column's builder takes an append. */
  predicate Takes(t: ArrowType, c: Cell) {
    match c
    case Null => true
    case Value(kind, _) =>
      match kind
      case KBool => t.ABool?
      case KInt16 => t.AInt16?
      case KInt32 => t.AInt32?
      case KInt64 => t.AInt64?
      case KFloat32 => t.AFloat32?
      case KFloat64 => t.AFloat64?
      case KDecimal => t.ADecimal128?
      case KString(_) => t.AUtf8?
      case KBytes(_) => t.ABinary?
      case KDate => t.ADate32?
      case KTime => t.ATime64?
      case KTimestamp => t.ATimestamp?
  }

  datatype Operation = OpInsert | OpUpdate | OpDelete

  /** What a source says of a row beside its cells; a key may be absent, which is not the same as empty. */
  datatype Meta = Meta(op: Operation, key: Option<seq<string>>, coarse: bool, lsn: string, sequence: nat)

  datatype Row = Row(cells: seq<Cell>, op: Operation)

  type Columns = seq<seq<Cell>>

  /** A batch: columns, a row count, a sparse operation vector, where an empty one means inserts, and its last row's
      meta. */
  datatype Chunk = Chunk(columns: Columns, count: nat, ops: seq<Operation>, last: Meta)

  // ---- rows of a chunk ----

  predicate AtLeast(columns: Columns, n: nat) { forall c :: 0 <= c < |columns| ==> n <= |columns[c]| }

  function Op(ops: seq<Operation>, i: nat): Operation
    requires ops == [] || i < |ops|
  {
    if ops == [] then OpInsert else ops[i]
  }

  function RowAt(columns: Columns, ops: seq<Operation>, i: nat): Row
    requires AtLeast(columns, i + 1) && (ops == [] || i < |ops|)
  {
    Row(seq(|columns|, c requires 0 <= c < |columns| => columns[c][i]), Op(ops, i))
  }

  function RowsOf(columns: Columns, ops: seq<Operation>, n: nat): (rows: seq<Row>)
    requires AtLeast(columns, n) && (ops == [] || |ops| == n)
    ensures |rows| == n
  {
    seq(n, i requires 0 <= i < n => RowAt(columns, ops, i))
  }

  /** The bytes of the first n cells, and of the first n rows. */
  function CellBytes(cells: seq<Cell>, n: nat): nat
    requires n <= |cells|
  {
    if n == 0 then 0 else CellBytes(cells, n - 1) + Size(cells[n - 1])
  }

  function RowBytes(cells: seq<Cell>): nat { CellBytes(cells, |cells|) }

  function BytesTo(rows: seq<Row>, n: nat): nat
    requires n <= |rows|
  {
    if n == 0 then 0 else BytesTo(rows, n - 1) + RowBytes(rows[n - 1].cells)
  }

  function BytesOf(rows: seq<Row>): nat { BytesTo(rows, |rows|) }

  /** Columns of one length, at least one row and at most maxRows, maxBytes reached only by the last row. */
  ghost predicate WellFormed(k: Chunk, width: nat, maxRows: int, maxBytes: int) {
    && |k.columns| == width && 1 <= k.count <= maxRows && (forall c :: 0 <= c < width ==> |k.columns[c]| == k.count)
    && (k.ops == [] || |k.ops| == k.count)
    && (maxBytes > 0 ==> BytesTo(RowsOf(k.columns, k.ops, k.count), k.count - 1) < maxBytes)
  }

  ghost predicate AllWellFormed(chunks: seq<Chunk>, width: nat, maxRows: int, maxBytes: int) {
    forall i {:trigger WellFormed(chunks[i], width, maxRows, maxBytes)} :: 0 <= i < |chunks| ==>
      WellFormed(chunks[i], width, maxRows, maxBytes)
  }

  ghost function ChunkRows(k: Chunk, width: nat, maxRows: int, maxBytes: int): seq<Row>
    requires WellFormed(k, width, maxRows, maxBytes)
  {
    RowsOf(k.columns, k.ops, k.count)
  }

  /** The rows of the first n chunks, in order. */
  ghost function FlattenTo(chunks: seq<Chunk>, n: nat, width: nat, maxRows: int, maxBytes: int): seq<Row>
    requires AllWellFormed(chunks, width, maxRows, maxBytes) && n <= |chunks|
  {
    if n == 0 then []
    else FlattenTo(chunks, n - 1, width, maxRows, maxBytes) + ChunkRows(chunks[n - 1], width, maxRows, maxBytes)
  }

  ghost function Flatten(chunks: seq<Chunk>, width: nat, maxRows: int, maxBytes: int): seq<Row>
    requires AllWellFormed(chunks, width, maxRows, maxBytes)
  {
    FlattenTo(chunks, |chunks|, width, maxRows, maxBytes)
  }

  function CountRows(chunks: seq<Chunk>, n: nat): nat
    requires n <= |chunks|
  {
    if n == 0 then 0 else CountRows(chunks, n - 1) + chunks[n - 1].count
  }

  lemma {:induction false} FlattenCounts(chunks: seq<Chunk>, n: nat, width: nat, maxRows: int, maxBytes: int)
    requires AllWellFormed(chunks, width, maxRows, maxBytes) && n <= |chunks|
    ensures |FlattenTo(chunks, n, width, maxRows, maxBytes)| == CountRows(chunks, n)
  {
    if n > 0 { FlattenCounts(chunks, n - 1, width, maxRows, maxBytes); }
  }

  lemma {:induction false} FlattenPrefix(chunks: seq<Chunk>, more: seq<Chunk>, n: nat, width: nat, maxRows: int,
      maxBytes: int)
    requires AllWellFormed(more, width, maxRows, maxBytes) && AllWellFormed(chunks, width, maxRows, maxBytes)
    requires chunks <= more && n <= |chunks|
    ensures FlattenTo(more, n, width, maxRows, maxBytes) == FlattenTo(chunks, n, width, maxRows, maxBytes)
  {
    if n > 0 { FlattenPrefix(chunks, more, n - 1, width, maxRows, maxBytes); }
  }

  /** Appending to one column leaves the finished rows alone. */
  lemma RowsUntouched(columns: Columns, ops: seq<Operation>, n: nat, c: nat, cell: Cell)
    requires AtLeast(columns, n) && (ops == [] || |ops| == n) && c < |columns|
    ensures AtLeast(columns[c := columns[c] + [cell]], n)
    ensures RowsOf(columns[c := columns[c] + [cell]], ops, n) == RowsOf(columns, ops, n)
  {
    var more := columns[c := columns[c] + [cell]];
    forall i | 0 <= i < n ensures RowAt(more, ops, i) == RowAt(columns, ops, i) {
      assert forall d :: 0 <= d < |columns| ==> more[d][i] == columns[d][i];
    }
  }

  /** The operation vector after one more row, read through the sparse form. */
  ghost predicate Extended(ops: seq<Operation>, n: nat, op: Operation, next: seq<Operation>) {
    && (ops == [] || |ops| == n) && (next == [] || |next| == n + 1)
    && (forall i :: 0 <= i < n ==> Op(next, i) == Op(ops, i)) && Op(next, n) == op
  }

  /** The vector is made when the first row that is no insert arrives, and has one entry per row from then on. */
  method AppendOp(ops: seq<Operation>, n: nat, op: Operation) returns (next: seq<Operation>)
    requires ops == [] || |ops| == n
    ensures Extended(ops, n, op, next)
  {
    next := ops;
    if op != OpInsert && ops == [] { next := seq(n, _ => OpInsert); }
    if op != OpInsert || ops != [] { next := next + [op]; }
  }

  lemma RowFinished(columns: Columns, ops: seq<Operation>, n: nat, cells: seq<Cell>, op: Operation,
      next: seq<Operation>)
    requires AtLeast(columns, n + 1) && Extended(ops, n, op, next) && |cells| == |columns|
    requires forall c :: 0 <= c < |columns| ==> columns[c][n] == cells[c]
    ensures RowsOf(columns, next, n + 1) == RowsOf(columns, ops, n) + [Row(cells, op)]
  {
    forall i | 0 <= i < n + 1 ensures RowAt(columns, next, i) == (RowsOf(columns, ops, n) + [Row(cells, op)])[i] {
      if i < n { assert Op(next, i) == Op(ops, i); }
    }
  }

  lemma {:induction false} BytesPrefix(rows: seq<Row>, more: seq<Row>, n: nat)
    requires rows <= more && n <= |rows|
    ensures BytesTo(more, n) == BytesTo(rows, n)
  {
    if n > 0 { BytesPrefix(rows, more, n - 1); }
  }

  lemma {:induction false} CellPrefix(cells: seq<Cell>, more: seq<Cell>, n: nat)
    requires cells <= more && n <= |cells|
    ensures CellBytes(more, n) == CellBytes(cells, n)
  {
    if n > 0 { CellPrefix(cells, more, n - 1); }
  }

  lemma RowBytesAppend(cells: seq<Cell>, c: Cell)
    ensures RowBytes(cells + [c]) == RowBytes(cells) + Size(c)
  {
    CellPrefix(cells, cells + [c], |cells|);
  }

  /** Whole rows, then the cells of the open row in the first columns. */
  ghost predicate Shape(columns: Columns, rows: nat, cells: seq<Cell>) {
    && |cells| <= |columns|
    && (forall c :: 0 <= c < |columns| ==> |columns[c]| == if c < |cells| then rows + 1 else rows)
    && (forall c :: 0 <= c < |cells| ==> columns[c][rows] == cells[c])
  }

  lemma ShapePush(columns: Columns, rows: nat, cells: seq<Cell>, cell: Cell)
    requires Shape(columns, rows, cells) && |cells| < |columns|
    ensures Shape(columns[|cells| := columns[|cells|] + [cell]], rows, cells + [cell])
  {}

  /** Columns that hold the buffered rows, then the cells of the open row. */
  ghost predicate Holds(columns: Columns, ops: seq<Operation>, buffered: seq<Row>, cells: seq<Cell>) {
    && Shape(columns, |buffered|, cells) && (ops == [] || |ops| == |buffered|)
    && RowsOf(columns, ops, |buffered|) == buffered
  }

  lemma HoldsNothing(width: nat)
    ensures Holds(seq(width, _ => []), [], [], [])
  {}

  lemma HoldsPush(columns: Columns, ops: seq<Operation>, buffered: seq<Row>, cells: seq<Cell>, cell: Cell)
    requires Holds(columns, ops, buffered, cells) && |cells| < |columns|
    ensures Holds(columns[|cells| := columns[|cells|] + [cell]], ops, buffered, cells + [cell])
  {
    RowsUntouched(columns, ops, |buffered|, |cells|, cell);
    ShapePush(columns, |buffered|, cells, cell);
  }

  lemma HoldsFinish(columns: Columns, ops: seq<Operation>, buffered: seq<Row>, cells: seq<Cell>, op: Operation,
      next: seq<Operation>)
    requires Holds(columns, ops, buffered, cells) && |cells| == |columns| && Extended(ops, |buffered|, op, next)
    ensures Holds(columns, next, buffered + [Row(cells, op)], [])
  {
    RowFinished(columns, ops, |buffered|, cells, op, next);
  }

  /** Rows within a chunk's bounds: the limits are reached only by the last one. */
  ghost predicate Bounded(rows: seq<Row>, maxRows: int, maxBytes: int) {
    rows != [] && |rows| <= maxRows && (maxBytes > 0 ==> BytesTo(rows, |rows| - 1) < maxBytes)
  }

  lemma HandedOver(columns: Columns, ops: seq<Operation>, buffered: seq<Row>, last: Meta, maxRows: int, maxBytes: int)
    requires Holds(columns, ops, buffered, []) && Bounded(buffered, maxRows, maxBytes)
    ensures WellFormed(Chunk(columns, |buffered|, ops, last), |columns|, maxRows, maxBytes)
  {}

  lemma OneMore(buffered: seq<Row>, row: Row, maxRows: int, maxBytes: int)
    requires |buffered| < maxRows && (maxBytes > 0 ==> BytesOf(buffered) < maxBytes)
    ensures Bounded(buffered + [row], maxRows, maxBytes)
    ensures BytesOf(buffered + [row]) == BytesOf(buffered) + RowBytes(row.cells)
  {
    BytesPrefix(buffered, buffered + [row], |buffered|);
  }

  ghost predicate Measured(columns: Columns, ops: seq<Operation>, buffered: seq<Row>, cells: seq<Cell>, bytes: int) {
    Holds(columns, ops, buffered, cells) && bytes == BytesOf(buffered) + RowBytes(cells)
  }

  lemma MeasuredPush(columns: Columns, ops: seq<Operation>, buffered: seq<Row>, cells: seq<Cell>, bytes: int,
      cell: Cell)
    requires Measured(columns, ops, buffered, cells, bytes) && |cells| < |columns|
    ensures Measured(columns[|cells| := columns[|cells|] + [cell]], ops, buffered, cells + [cell], bytes + Size(cell))
  {
    HoldsPush(columns, ops, buffered, cells, cell);
    RowBytesAppend(cells, cell);
  }

  lemma MeasuredFinish(columns: Columns, ops: seq<Operation>, buffered: seq<Row>, cells: seq<Cell>, bytes: int,
      op: Operation, next: seq<Operation>, maxRows: int, maxBytes: int)
    requires Measured(columns, ops, buffered, cells, bytes) && |cells| == |columns|
    requires Extended(ops, |buffered|, op, next)
    requires |buffered| < maxRows && (maxBytes > 0 ==> BytesOf(buffered) < maxBytes)
    ensures Measured(columns, next, buffered + [Row(cells, op)], [], bytes)
    ensures Bounded(buffered + [Row(cells, op)], maxRows, maxBytes)
  {
    HoldsFinish(columns, ops, buffered, cells, op, next);
    OneMore(buffered, Row(cells, op), maxRows, maxBytes);
  }

  /** The delivered chunks are well formed; their rows, then the rows still to come, are the completed rows. */
  ghost predicate Delivers(chunks: seq<Chunk>, width: nat, maxRows: int, maxBytes: int, completed: seq<Row>,
      rest: seq<Row>)
  {
    AllWellFormed(chunks, width, maxRows, maxBytes) && Flatten(chunks, width, maxRows, maxBytes) + rest == completed
  }

  lemma DeliversMore(chunks: seq<Chunk>, width: nat, maxRows: int, maxBytes: int, completed: seq<Row>, rest: seq<Row>,
      row: Row)
    requires Delivers(chunks, width, maxRows, maxBytes, completed, rest)
    ensures Delivers(chunks, width, maxRows, maxBytes, completed + [row], rest + [row])
  {
    var out := Flatten(chunks, width, maxRows, maxBytes);
    assert out + (rest + [row]) == out + rest + [row];
  }

  lemma DeliversChunk(chunks: seq<Chunk>, k: Chunk, width: nat, maxRows: int, maxBytes: int, completed: seq<Row>)
    requires WellFormed(k, width, maxRows, maxBytes)
    requires Delivers(chunks, width, maxRows, maxBytes, completed, RowsOf(k.columns, k.ops, k.count))
    ensures Delivers(chunks + [k], width, maxRows, maxBytes, completed, [])
  {
    var more := chunks + [k];
    assert AllWellFormed(more, width, maxRows, maxBytes);
    FlattenPrefix(chunks, more, |chunks|, width, maxRows, maxBytes);
    assert more[|chunks|] == k;
    assert Flatten(more, width, maxRows, maxBytes) + [] == Flatten(more, width, maxRows, maxBytes);
  }

  /** At any moment what was delivered is a prefix of what was completed, and chunk counts sum to the delivered rows. */
  lemma DeliveredPrefix(chunks: seq<Chunk>, width: nat, maxRows: int, maxBytes: int, completed: seq<Row>,
      rest: seq<Row>)
    requires Delivers(chunks, width, maxRows, maxBytes, completed, rest)
    ensures Flatten(chunks, width, maxRows, maxBytes) <= completed
    ensures CountRows(chunks, |chunks|) + |rest| == |completed|
  {
    FlattenCounts(chunks, |chunks|, width, maxRows, maxBytes);
  }

  // ---- checkpoint cursors ----

  datatype Cursor =
    | StreamDelta(lsn: string, sequence: nat)
    | ShardDelta(key: seq<string>)
    | CoarseAck(rows: nat)
    | CoarseDone(want: nat)

  /** The cursor of a chunk, from its last row. */
  function CursorOf(last: Meta, rows: nat): Option<Cursor> {
    if last.lsn != "" then Some(StreamDelta(last.lsn, last.sequence))
    else if last.coarse then Some(CoarseAck(rows))
    else if last.key.None? then None
    else Some(ShardDelta(last.key.value))
  }

  /** The cursor of a part's completion marker. */
  function MarkerOf(meta: Meta, total: nat): Cursor {
    if meta.lsn != "" then StreamDelta(meta.lsn, meta.sequence)
    else if meta.key.Some? && |meta.key.value| > 0 then ShardDelta(meta.key.value)
    else CoarseDone(total)
  }

  predicate Acks(last: Meta) { last.lsn == "" && last.coarse }

  /** The sum of the acknowledgements the first n chunks carry. */
  function Acked(chunks: seq<Chunk>, n: nat): nat
    requires n <= |chunks|
  {
    if n == 0 then 0 else
      var cursor := CursorOf(chunks[n - 1].last, chunks[n - 1].count);
      Acked(chunks, n - 1) + if cursor.Some? && cursor.value.CoarseAck? then cursor.value.rows else 0
  }

  ghost predicate LastAt(chunks: seq<Chunk>, metas: seq<Meta>, i: nat)
    requires i < |chunks|
  {
    0 < CountRows(chunks, i + 1) <= |metas| && chunks[i].last == metas[CountRows(chunks, i + 1) - 1]
  }

  /** Each chunk carries the meta of the last of its rows, counting rows from the first chunk on. */
  ghost predicate Lasts(chunks: seq<Chunk>, metas: seq<Meta>) {
    forall i :: 0 <= i < |chunks| ==> LastAt(chunks, metas, i)
  }

  lemma {:induction false} CountPrefix(chunks: seq<Chunk>, more: seq<Chunk>, n: nat)
    requires chunks <= more && n <= |chunks|
    ensures CountRows(more, n) == CountRows(chunks, n)
  {
    if n > 0 { CountPrefix(chunks, more, n - 1); }
  }

  lemma {:induction false} LastsMore(chunks: seq<Chunk>, metas: seq<Meta>, meta: Meta)
    requires Lasts(chunks, metas)
    ensures Lasts(chunks, metas + [meta])
  {
    forall i | 0 <= i < |chunks| ensures LastAt(chunks, metas + [meta], i) { assert LastAt(chunks, metas, i); }
  }

  lemma {:induction false} LastsChunk(chunks: seq<Chunk>, metas: seq<Meta>, k: Chunk)
    requires Lasts(chunks, metas) && metas != [] && k.last == metas[|metas| - 1]
    requires CountRows(chunks, |chunks|) + k.count == |metas|
    ensures Lasts(chunks + [k], metas)
  {
    var more := chunks + [k];
    forall i | 0 <= i < |more| ensures LastAt(more, metas, i) {
      if i < |chunks| {
        assert LastAt(chunks, metas, i);
        CountPrefix(chunks, more, i + 1);
      } else {
        CountPrefix(chunks, more, |chunks|);
      }
    }
  }

  /** Every completed row was delivered or is still to be, and every chunk carries its last row's meta. */
  ghost predicate Kept(chunks: seq<Chunk>, width: nat, maxRows: int, maxBytes: int, completed: seq<Row>,
      metas: seq<Meta>, rest: seq<Row>)
  {
    Delivers(chunks, width, maxRows, maxBytes, completed, rest) && |metas| == |completed| && Lasts(chunks, metas)
  }

  lemma {:induction false} KeptMore(chunks: seq<Chunk>, width: nat, maxRows: int, maxBytes: int, completed: seq<Row>,
      metas: seq<Meta>, rest: seq<Row>, row: Row, meta: Meta)
    requires Kept(chunks, width, maxRows, maxBytes, completed, metas, rest)
    ensures Kept(chunks, width, maxRows, maxBytes, completed + [row], metas + [meta], rest + [row])
  {
    DeliversMore(chunks, width, maxRows, maxBytes, completed, rest, row);
    LastsMore(chunks, metas, meta);
  }

  /** The open chunk, handed over, is all that was left. */
  lemma {:induction false} KeptChunk(chunks: seq<Chunk>, k: Chunk, maxRows: int, maxBytes: int, completed: seq<Row>,
      metas: seq<Meta>, buffered: seq<Row>, bytes: int)
    requires Kept(chunks, |k.columns|, maxRows, maxBytes, completed, metas, buffered)
    requires Bounded(buffered, maxRows, maxBytes)
    requires Measured(k.columns, k.ops, buffered, [], bytes) && k.count == |buffered| && metas != []
    requires k.last == metas[|metas| - 1]
    ensures Kept(chunks + [k], |k.columns|, maxRows, maxBytes, completed, metas, [])
  {
    HandedOver(k.columns, k.ops, buffered, k.last, maxRows, maxBytes);
    assert k == Chunk(k.columns, |buffered|, k.ops, k.last);
    DeliveredPrefix(chunks, |k.columns|, maxRows, maxBytes, completed, buffered);
    DeliversChunk(chunks, k, |k.columns|, maxRows, maxBytes, completed);
    LastsChunk(chunks, metas, k);
  }

  ghost predicate AllAck(chunks: seq<Chunk>, n: nat) { forall i :: 0 <= i < n <= |chunks| ==> Acks(chunks[i].last) }

  ghost predicate Filled(chunks: seq<Chunk>) { forall i :: 0 <= i < |chunks| ==> chunks[i].count > 0 }

  lemma {:induction false} AckedExactly(chunks: seq<Chunk>, n: nat)
    requires n <= |chunks| && Filled(chunks)
    ensures Acked(chunks, n) <= CountRows(chunks, n)
    ensures Acked(chunks, n) == CountRows(chunks, n) <==> AllAck(chunks, n)
  {
    if n > 0 { AckedExactly(chunks, n - 1); }
  }

  /**
    Once everything is delivered, the acknowledgements sum to the completed rows exactly when the last row of every
    chunk is coarse and outside a change stream. So they do in a read where every row is.
   */
  lemma {:induction false} CoarseAcksMatch(chunks: seq<Chunk>, width: nat, maxRows: int, maxBytes: int,
      completed: seq<Row>, metas: seq<Meta>)
    requires Delivers(chunks, width, maxRows, maxBytes, completed, []) && Lasts(chunks, metas)
    ensures Acked(chunks, |chunks|) == |completed| <==> AllAck(chunks, |chunks|)
    ensures (forall j :: 0 <= j < |metas| ==> Acks(metas[j])) ==> Acked(chunks, |chunks|) == |completed|
  {
    DeliveredPrefix(chunks, width, maxRows, maxBytes, completed, []);
    assert Filled(chunks) by {
      forall i | 0 <= i < |chunks| ensures chunks[i].count > 0 {
        assert WellFormed(chunks[i], width, maxRows, maxBytes);
      }
    }
    AckedExactly(chunks, |chunks|);
    if forall j :: 0 <= j < |metas| ==> Acks(metas[j]) {
      forall i | 0 <= i < |chunks| ensures Acks(chunks[i].last) { assert LastAt(chunks, metas, i); }
    }
  }

  predicate Plain(m: Meta) { m.lsn == "" && !m.coarse && m.key.None? }

  lemma {:induction false} NothingAcked(chunks: seq<Chunk>, n: nat)
    requires n <= |chunks| && forall i :: 0 <= i < |chunks| ==> Plain(chunks[i].last)
    ensures Acked(chunks, n) == 0
  {
    if n > 0 { NothingAcked(chunks, n - 1); }
  }

  /** A plain read acknowledges nothing, yet its marker asks for every row: the two meet only when there was no row. */
  lemma {:induction false} PlainReadUnmatched(chunks: seq<Chunk>, metas: seq<Meta>, meta: Meta, total: nat)
    requires Lasts(chunks, metas) && (forall j :: 0 <= j < |metas| ==> Plain(metas[j])) && Plain(meta)
    ensures forall i :: 0 <= i < |chunks| ==> CursorOf(chunks[i].last, chunks[i].count).None?
    ensures MarkerOf(meta, total) == CoarseDone(total) && (Acked(chunks, |chunks|) == total <==> total == 0)
  {
    forall i | 0 <= i < |chunks| ensures Plain(chunks[i].last) { assert LastAt(chunks, metas, i); }
    NothingAcked(chunks, |chunks|);
  }

  // ---- the builder ----

  class Builder {
    const types: seq<ArrowType>
    const maxRows: int
    const maxBytes: int
    var cols: Columns
    var cur: nat
    var rows: nat
    var bytes: int
    var ops: seq<Operation>
    var last: Meta
    var total: nat
    var failed: bool
    var flushReq: bool
    var closed: bool

    /** Rows completed by EndRow and what was said of them, the cells of the open row, the completed rows not delivered,
        and the chunks the receiver accepted. */
    ghost var completed: seq<Row>
    ghost var metas: seq<Meta>
    ghost var openCells: seq<Cell>
    ghost var buffered: seq<Row>
    ghost var delivered: seq<Chunk>

    ghost predicate Healthy()
      reads this
    {
      !failed && !closed
    }

    /** The columns hold the buffered rows and the open row, and the counters measure them. */
    ghost predicate OpenChunk()
      reads this
    {
      |cols| == |types| && cur == |openCells| && rows == |buffered| && Measured(cols, ops, buffered, openCells, bytes)
    }

    /** Every completed row was delivered or is still to be; a healthy builder holds exactly the latter. */
    ghost predicate Accounted()
      reads this
    {
      && maxRows > 0 && total == |completed| && Kept(delivered, |types|, maxRows, maxBytes, completed, metas, buffered)
      && (Healthy() ==> OpenChunk() && (rows > 0 ==> metas != [] && last == metas[|metas| - 1]))
    }

    /** And the open chunk is still below its bounds. */
    ghost predicate Valid()
      reads this
    {
      Accounted() && (Healthy() ==> rows < maxRows && (maxBytes > 0 ==> BytesOf(buffered) < maxBytes))
    }

    constructor (types: seq<ArrowType>, maxRows: int, maxBytes: int)
      requires maxRows > 0
      ensures Valid() && Healthy() && completed == [] && metas == [] && delivered == [] && openCells == []
      ensures this.types == types && this.maxRows == maxRows && this.maxBytes == maxBytes
    {
      this.types, this.maxRows, this.maxBytes := types, maxRows, maxBytes;
      cols := seq(|types|, _ => []);
      cur, rows, bytes, ops, last, total := 0, 0, 0, [], Meta(OpInsert, None, false, "", 0), 0;
      failed, flushReq, closed := false, false, false;
      completed, metas, openCells, buffered, delivered := [], [], [], [], [];
      HoldsNothing(|types|);
    }

    /** A typed append or a null; the wrong type, or one column too many, fails the builder. */
    method Append(cell: Cell)
      requires Valid()
      modifies this
      ensures Valid() && completed == old(completed) && metas == old(metas) && delivered == old(delivered)
      ensures total == old(total)
      ensures closed == old(closed) && (old(failed) ==> failed)
      ensures old(Healthy()) ==> (Healthy() <==> old(cur) < |types| && Takes(types[old(cur)], cell))
      ensures Healthy() ==> openCells == old(openCells) + [cell]
    {
      if closed {
        failed := true;
        return;
      }
      if failed { return; }
      if cur >= |cols| || !Takes(types[cur], cell) {
        failed := true;
        return;
      }
      Push(cell);
    }

    method Push(cell: Cell)
      requires Valid() && Healthy() && cur < |types|
      modifies this`cols, this`cur, this`bytes, this`openCells
      ensures Valid() && openCells == old(openCells) + [cell]
    {
      MeasuredPush(cols, ops, buffered, openCells, bytes, cell);
      cols := cols[cur := cols[cur] + [cell]];
      cur, bytes := cur + 1, bytes + Size(cell);
      openCells := openCells + [cell];
    }

    method RequestFlush()
      modifies this`flushReq
      ensures flushReq
    {
      flushReq := true;
    }

    method Clear()
      modifies this`cols, this`ops, this`rows, this`bytes
      ensures |cols| == |types| && rows == 0 && Measured(cols, ops, [], [], bytes) && bytes == 0
    {
      HoldsNothing(|types|);
      cols := seq(|types|, _ => []);
      ops, rows, bytes := [], 0, 0;
    }

    /** The open chunk as a batch; the receiver takes it or fails the builder. */
    method HandOver() returns (ok: bool)
      requires Accounted() && Healthy() && cur == 0 && Bounded(buffered, maxRows, maxBytes)
      modifies this
      ensures Valid() && ok == Healthy() && closed == old(closed) && completed == old(completed) && total == old(total)
      ensures openCells == old(openCells)
      ensures metas == old(metas)
      ensures ok ==> buffered == [] && |delivered| == |old(delivered)| + 1 && old(delivered) <= delivered && !flushReq
      ensures ok ==> metas != [] && delivered[|old(delivered)|].last == metas[|metas| - 1]
      ensures !ok ==> delivered == old(delivered)
    {
      var out := Chunk(cols, rows, ops, last);
      KeptChunk(delivered, out, maxRows, maxBytes, completed, metas, buffered, bytes);
      Clear();
      var taken: bool := *;
      if !taken {
        failed := true;
        return false;
      }
      delivered, buffered := delivered + [out], [];
      flushReq := false;
      return true;
    }

    /** The open row joins the buffered ones. */
    method JoinRow(meta: Meta)
      requires OpenChunk() && cur == |types| && rows < maxRows && (maxBytes > 0 ==> BytesOf(buffered) < maxBytes)
      modifies this`cur, this`ops, this`last, this`rows, this`openCells, this`buffered
      ensures OpenChunk() && cur == 0 && openCells == [] && Bounded(buffered, maxRows, maxBytes)
      ensures buffered == old(buffered) + [Row(old(openCells), meta.op)] && last == meta && rows == old(rows) + 1
    {
      var next := AppendOp(ops, rows, meta.op);
      MeasuredFinish(cols, ops, buffered, openCells, bytes, meta.op, next, maxRows, maxBytes);
      buffered := buffered + [Row(openCells, meta.op)];
      ops, last, cur, rows, openCells := next, meta, 0, rows + 1, [];
    }

    /** Closes a full row. */
    method FinishRow(meta: Meta)
      requires Valid() && Healthy() && cur == |types|
      modifies this`cur, this`ops, this`last, this`rows, this`total, this`completed, this`metas, this`openCells,
               this`buffered
      ensures Accounted() && cur == 0 && Bounded(buffered, maxRows, maxBytes) && openCells == []
      ensures completed == old(completed) + [Row(old(openCells), meta.op)] && metas == old(metas) + [meta]
      ensures rows == old(rows) + 1
    {
      ghost var row := Row(openCells, meta.op);
      KeptMore(delivered, |types|, maxRows, maxBytes, completed, metas, buffered, row, meta);
      JoinRow(meta);
      total, completed, metas := total + 1, completed + [row], metas + [meta];
    }

    method EndRow(meta: Meta) returns (ok: bool)
      requires Valid()
      modifies this
      ensures Valid() && closed == old(closed) && old(delivered) <= delivered && |delivered| <= |old(delivered)| + 1
      ensures ok == (old(!closed) && Healthy())
      ensures !old(Healthy()) ==>
                !ok && delivered == old(delivered) && completed == old(completed) && metas == old(metas)
      ensures old(Healthy()) ==>
                completed == if old(cur) == |types| then old(completed) + [Row(old(openCells), meta.op)]
                             else old(completed)
      ensures old(Healthy()) ==> metas == if old(cur) == |types| then old(metas) + [meta] else old(metas)
      ensures old(Healthy()) && old(cur) != |types| ==> !ok && delivered == old(delivered)
      ensures ok ==> openCells == []
      ensures ok ==>
                (buffered == [] <==>
                 old(rows) + 1 >= maxRows || (maxBytes > 0 && old(bytes) >= maxBytes) || old(flushReq))
      ensures |delivered| > |old(delivered)| ==> delivered[|old(delivered)|].last == meta
    {
      if closed { return false; }
      if !failed && cur != |cols| { failed := true; }
      if failed {
        cur, openCells := 0, [];
        return false;
      }
      ok := EndFullRow(meta);
    }

    method EndFullRow(meta: Meta) returns (ok: bool)
      requires Valid() && Healthy() && cur == |types|
      modifies this
      ensures Valid() && ok == Healthy() && closed == old(closed) && openCells == []
      ensures old(delivered) <= delivered && |delivered| <= |old(delivered)| + 1
      ensures completed == old(completed) + [Row(old(openCells), meta.op)] && metas == old(metas) + [meta]
      ensures |delivered| > |old(delivered)| ==> delivered[|old(delivered)|].last == meta
      ensures ok ==>
                (buffered == [] <==>
                 old(rows) + 1 >= maxRows || (maxBytes > 0 && old(bytes) >= maxBytes) || old(flushReq))
    {
      FinishRow(meta);
      ok := HandOverFull();
    }

    /** Hands the open chunk over at its bounds or on request. */
    method HandOverFull() returns (ok: bool)
      requires Accounted() && Healthy() && cur == 0 && Bounded(buffered, maxRows, maxBytes)
      modifies this
      ensures Valid() && ok == Healthy() && closed == old(closed) && completed == old(completed) && metas == old(metas)
      ensures openCells == old(openCells)
      ensures old(delivered) <= delivered && |delivered| <= |old(delivered)| + 1
      ensures |delivered| > |old(delivered)| ==> metas != [] && delivered[|old(delivered)|].last == metas[|metas| - 1]
      ensures ok ==>
                (buffered == [] <==> old(rows) >= maxRows || (maxBytes > 0 && old(bytes) >= maxBytes) || old(flushReq))
    {
      if rows >= maxRows || (maxBytes > 0 && bytes >= maxBytes) || flushReq {
        flushReq := false;
        ok := HandOver();
      } else {
        ok := true;
      }
    }

    /** Hands over what is buffered; afterwards everything completed has been delivered. Refused inside a row. */
    method Flush() returns (ok: bool)
      requires Valid()
      modifies this
      ensures Valid() && closed == old(closed) && completed == old(completed) && metas == old(metas)
      ensures old(delivered) <= delivered && total == old(total)
      ensures ok ==> Healthy() && buffered == [] && Flatten(delivered, |types|, maxRows, maxBytes) == completed
      ensures ok ==>
                old(Healthy()) && old(cur) == 0 && !flushReq
                  && |delivered| == |old(delivered)| + if old(rows) == 0 then 0 else 1
      ensures |delivered| > |old(delivered)| ==> metas != [] && delivered[|old(delivered)|].last == metas[|metas| - 1]
      ensures !ok ==> delivered == old(delivered)
    {
      if closed || failed { return false; }
      if cur != 0 {
        failed := true;
        return false;
      }
      if rows == 0 {
        flushReq := false;
        return true;
      }
      ok := HandOver();
    }

    /**
      Flushes, then sends the part's completion marker. On success everything completed has been delivered, and when the
      marker asks for a number of rows it is theirs: the acknowledgements reach it exactly when every chunk ended on a
      coarse row, in particular when every row ended so far was coarse.
     */
    method Drain(meta: Meta) returns (ok: bool, marker: Cursor)
      requires Valid()
      modifies this
      ensures Valid() && completed == old(completed) && metas == old(metas) && old(delivered) <= delivered
      ensures !old(Healthy()) ==> !ok && delivered == old(delivered)
      ensures ok ==>
                && Flatten(delivered, |types|, maxRows, maxBytes) == completed
                && CountRows(delivered, |delivered|) == |completed|
      ensures ok ==> marker == MarkerOf(meta, |completed|) && Lasts(delivered, metas)
      ensures ok && marker.CoarseDone? ==>
                (Acked(delivered, |delivered|) == marker.want <==> AllAck(delivered, |delivered|))
      ensures ok && marker.CoarseDone? && (forall j :: 0 <= j < |metas| ==> Acks(metas[j])) ==>
                Acked(delivered, |delivered|) == marker.want
    {
      marker := MarkerOf(meta, total);
      ok := Flush();
      if !ok { return; }
      DeliveredPrefix(delivered, |types|, maxRows, maxBytes, completed, buffered);
      CoarseAcksMatch(delivered, |types|, maxRows, maxBytes, completed, metas);
      var taken: bool := *;
      if !taken {
        failed := true;
        ok := false;
      }
    }

    /** Releases the columns and drops whatever was not flushed. */
    method Close()
      requires Valid()
      modifies this
      ensures Valid() && closed && completed == old(completed) && metas == old(metas) && delivered == old(delivered)
    {
      if closed { return; }
      closed := true;
      cols, ops, rows, cur := [], [], 0, 0;
    }
  }
}
