/** The interpreter: compiled operations run by position over a frame of columns. */
module TransformExec {
  import opened RowModel
  import opened TransformCatalog
  import opened TransformLiterals
  import opened TransformCompile

  datatype Column = Column(typ: ArrowType, cells: seq<Cell>)

  datatype Datum = ArrayDatum(col: Column) | ScalarDatum(typ: ArrowType, cell: Cell)

  /** Panic is an index out of range or a failed type assertion; Err is an error a kernel returned. */
  datatype Result<+T> = Ok(value: T) | Err | Panic

  /** The kernels, bound to a function's name and its checked argument types. */
  datatype Runtime = Runtime(patterns: Patterns, exec: (string, seq<ArgType>, seq<Datum>) -> Option<Datum>)

  function Eval(rt: Runtime, node: Node, cols: seq<Column>): (r: Result<Datum>)
    decreases node, 0
  {
    match node
    case ColNode(i) => if 0 <= i < |cols| then Ok(ArrayDatum(cols[i])) else Panic
    case LiteralNode(typ, cell) => Ok(ScalarDatum(typ, cell))
    case CallNode(fn, types, args) =>
      match EvalArgs(rt, args, cols)
      case Err => Err
      case Panic => Panic
      case Ok(values) =>
        var d := rt.exec(fn, types, values);
        if d.None? then Err else Ok(d.value)
  }

  function EvalArgs(rt: Runtime, args: seq<Node>, cols: seq<Column>): (r: Result<seq<Datum>>)
    decreases args
  {
    if args == [] then Ok([]) else
      match Eval(rt, args[0], cols)
      case Err => Err
      case Panic => Panic
      case Ok(d) =>
        match EvalArgs(rt, args[1..], cols)
        case Err => Err
        case Panic => Panic
        case Ok(rest) => Ok([d] + rest)
  }

  /** toArray: a scalar is broadcast to the row count. */
  function ToArray(d: Datum, rows: nat): Column {
    match d
    case ArrayDatum(col) => col
    case ScalarDatum(typ, cell) => Column(typ, seq(rows, _ => cell))
  }

  function EvalArray(rt: Runtime, node: Node, cols: seq<Column>, rows: nat): (r: Result<Column>) {
    match Eval(rt, node, cols)
    case Err => Err
    case Panic => Panic
    case Ok(d) => Ok(ToArray(d, rows))
  }

  /** Takes then where the mask is true, and other elsewhere, null mask included. */
  function IfElse(mask: Column, chosen: Column, other: Column): (r: Result<Column>) {
    if chosen.typ != other.typ then Err
    else if |chosen.cells| < |mask.cells| || |other.cells| < |mask.cells| then Panic
    else Ok(Column(chosen.typ, seq(|mask.cells|, i requires 0 <= i < |mask.cells| =>
      if mask.cells[i] == BoolCell(true) then chosen.cells[i] else other.cells[i])))
  }

  function Nulls(typ: ArrowType, rows: nat): Column { Column(typ, seq(rows, _ => Null)) }

  /** The mask of a conditional compute; anything but a boolean column fails the type assertion. */
  function EvalMask(rt: Runtime, where: Option<Node>, cols: seq<Column>, rows: nat): (r: Result<Option<Column>>) {
    if where.None? then Ok(None) else
      match EvalArray(rt, where.value, cols, rows)
      case Err => Err
      case Panic => Panic
      case Ok(m) => if m.typ == ABool then Ok(Some(m)) else Panic
  }

  /** One entry's new column, merged under the mask with the column it replaces. */
  function EvalEntry(rt: Runtime, e: Entry, mask: Option<Column>, cols: seq<Column>, rows: nat): (r: Result<Column>) {
    match EvalArray(rt, e.expr, cols, rows)
    case Err => Err
    case Panic => Panic
    case Ok(arr) =>
      if mask.None? then Ok(arr)
      else if e.idx < 0 then IfElse(mask.value, arr, Nulls(arr.typ, rows))
      else if e.idx >= |cols| then Panic
      else IfElse(mask.value, arr, cols[e.idx])
  }

  function EvalEntries(rt: Runtime, entries: seq<Entry>, k: nat, mask: Option<Column>, cols: seq<Column>, rows: nat,
      outs: seq<Column>): (r: Result<seq<Column>>)
    requires k <= |entries|
    decreases |entries| - k
  {
    if k == |entries| then Ok(outs) else
      match EvalEntry(rt, entries[k], mask, cols, rows)
      case Err => Err
      case Panic => Panic
      case Ok(c) => EvalEntries(rt, entries, k + 1, mask, cols, rows, outs + [c])
  }

  /** Assigns outs[k..] in order: replace in place, or append. */
  function Assign(cols: seq<Column>, entries: seq<Entry>, outs: seq<Column>, k: nat): (r: Result<seq<Column>>)
    requires k <= |entries| == |outs|
    decreases |entries| - k
  {
    if k == |entries| then Ok(cols)
    else if entries[k].idx < 0 then Assign(cols + [outs[k]], entries, outs, k + 1)
    else if entries[k].idx >= |cols| then Panic
    else Assign(cols[entries[k].idx := outs[k]], entries, outs, k + 1)
  }

  function ApplyOp(rt: Runtime, op: Op, cols: seq<Column>, rows: nat): (r: Result<seq<Column>>) {
    match op
    case DropOp(i) => if 0 <= i < |cols| then Ok(cols[..i] + cols[i + 1..]) else Panic
    case ComputeOp(where, entries) =>
      match EvalMask(rt, where, cols, rows)
      case Err => Err
      case Panic => Panic
      case Ok(mask) =>
        match EvalEntries(rt, entries, 0, mask, cols, rows, [])
        case Err => Err
        case Panic => Panic
        case Ok(outs) => EntriesLength(rt, entries, 0, mask, cols, rows, []); Assign(cols, entries, outs, 0)
  }

  lemma {:induction false} EntriesLength(rt: Runtime, entries: seq<Entry>, k: nat, mask: Option<Column>,
      cols: seq<Column>, rows: nat, outs: seq<Column>)
    requires k <= |entries|
    ensures var r := EvalEntries(rt, entries, k, mask, cols, rows, outs); r.Ok? ==> |r.value| == |outs| + |entries| - k
    decreases |entries| - k
  {
    if k < |entries| && EvalEntry(rt, entries[k], mask, cols, rows).Ok? {
      EntriesLength(rt, entries, k + 1, mask, cols, rows, outs + [EvalEntry(rt, entries[k], mask, cols, rows).value]);
    }
  }

  function ApplyOps(rt: Runtime, ops: seq<Op>, cols: seq<Column>, rows: nat): (r: Result<seq<Column>>)
    decreases |ops|
  {
    if ops == [] then Ok(cols) else
      match ApplyOp(rt, ops[0], cols, rows)
      case Err => Err
      case Panic => Panic
      case Ok(next) => ApplyOps(rt, ops[1..], next, rows)
  }

  // ---- the frame the interpreter updates in place ----

  class Frame {
    const rt: Runtime
    const rows: nat
    var cols: seq<Column>

    constructor (rt: Runtime, rows: nat, cols: seq<Column>)
      ensures this.rt == rt && this.rows == rows && this.cols == cols
    {
      this.rt, this.rows, this.cols := rt, rows, cols;
    }

    /** Runs one operation; on an error or a panic the frame is left as it was or is abandoned. */
    method Apply(op: Op) returns (r: Result<()>)
      modifies this
      ensures match ApplyOp(rt, op, old(cols), rows)
              case Ok(next) => r == Ok(()) && cols == next
              case Err => r == Err
              case Panic => r == Panic
    {
      match op {
        case DropOp(i) =>
          if !(0 <= i < |cols|) { return Panic; }
          cols := cols[..i] + cols[i + 1..];
          return Ok(());
        case ComputeOp(where, entries) =>
          var mask := EvalMask(rt, where, cols, rows);
          if mask.Err? { return Err; }
          if mask.Panic? { return Panic; }
          r := Assignments(entries, mask.value);
      }
    }

    /** Evaluates every entry against the frame as it stands, then assigns them all. */
    method Assignments(entries: seq<Entry>, mask: Option<Column>) returns (r: Result<()>)
      modifies this
      ensures match EvalEntries(rt, entries, 0, mask, old(cols), rows, [])
              case Err => r == Err
              case Panic => r == Panic
              case Ok(outs) =>
                |outs| == |entries| &&
                match Assign(old(cols), entries, outs, 0)
                case Ok(next) => r == Ok(()) && cols == next
                case Err => r == Err
                case Panic => r == Panic
    {
      var outs: seq<Column> := [];
      var k := 0;
      while k < |entries|
        invariant 0 <= k <= |entries| && |outs| == k && cols == old(cols)
        invariant EvalEntries(rt, entries, 0, mask, cols, rows, []) ==
                    EvalEntries(rt, entries, k, mask, cols, rows, outs)
      {
        var c := EvalEntry(rt, entries[k], mask, cols, rows);
        if c.Err? { return Err; }
        if c.Panic? { return Panic; }
        outs, k := outs + [c.value], k + 1;
      }
      var i := 0;
      while i < |entries|
        invariant 0 <= i <= |entries| == |outs|
        invariant Assign(old(cols), entries, outs, 0) == Assign(cols, entries, outs, i)
      {
        var idx := entries[i].idx;
        if idx < 0 {
          cols := cols + [outs[i]];
        } else if idx >= |cols| {
          return Panic;
        } else {
          cols := cols[idx := outs[i]];
        }
        i := i + 1;
      }
      return Ok(());
    }
  }

  // ---- plans over records ----

  datatype ArrowField = ArrowField(name: string, typ: ArrowType, nullable: bool)

  function ArrowFieldOf(f: Field): ArrowField { ArrowField(f.name, StorageOf(TypeOf(f)), f.nullable) }

  /** arrowbatch.Schema. */
  function ArrowSchema(fields: seq<Field>): (out: seq<ArrowField>)
    ensures |out| == |fields|
  {
    seq(|fields|, i requires 0 <= i < |fields| => ArrowFieldOf(fields[i]))
  }

  datatype Record = Record(fields: seq<ArrowField>, cols: seq<Column>, rows: nat)

  datatype Plan = Plan(input: seq<Field>, output: seq<Field>, ops: seq<Op>)

  predicate InputMatches(plan: Plan, rec: Record) {
    |rec.fields| >= |plan.input| && forall i :: 0 <= i < |plan.input| ==> rec.fields[i].name == plan.input[i].name
  }

  /** Plan.Apply: the leading columns run through the operations, the trailing ones pass through. */
  function ApplyPlan(rt: Runtime, plan: Plan, rec: Record): (r: Result<Record>)
    requires |rec.cols| == |rec.fields|
  {
    if !InputMatches(plan, rec) then Err else
      var n := |plan.input|;
      match ApplyOps(rt, plan.ops, rec.cols[..n], rec.rows)
      case Err => Err
      case Panic => Panic
      case Ok(cols) => Ok(Record(ArrowSchema(plan.output) + rec.fields[n..], cols + rec.cols[n..], rec.rows))
  }

  /** The same over a frame updated in place, as Apply does it. */
  method RunPlan(rt: Runtime, plan: Plan, rec: Record) returns (r: Result<Record>)
    requires |rec.cols| == |rec.fields|
    ensures r == ApplyPlan(rt, plan, rec)
  {
    if !InputMatches(plan, rec) { return Err; }
    var n := |plan.input|;
    var f := new Frame(rt, rec.rows, rec.cols[..n]);
    var k := 0;
    while k < |plan.ops|
      invariant 0 <= k <= |plan.ops|
      invariant ApplyOps(rt, plan.ops, rec.cols[..n], rec.rows) == ApplyOps(rt, plan.ops[k..], f.cols, rec.rows)
    {
      var step := f.Apply(plan.ops[k]);
      if step.Err? { return Err; }
      if step.Panic? { return Panic; }
      k := k + 1;
    }
    return Ok(Record(ArrowSchema(plan.output) + rec.fields[n..], f.cols + rec.cols[n..], rec.rows));
  }
}
