/**
  The transform compiler. A definition names columns; the compiler resolves every name to a position
  in a working layout it changes step by step, and records operations by position.
 */
module TransformCompile {
  import opened RowModel
  import opened Order
  import opened TransformCatalog
  import opened TransformLiterals

  datatype Expr = Col(name: string) | Lit(value: Literal) | Call(fn: string, args: seq<Expr>)

  datatype Step =
    | Rename(names: map<string, string>)
    | Drop(columns: seq<string>)
    | Compute(entries: map<string, Expr>, where: Option<Expr>)

  /** A compiled expression: columns by position, literals boxed, calls bound to checked types. */
  datatype Node =
    | ColNode(idx: int)
    | LiteralNode(typ: ArrowType, cell: Cell)
    | CallNode(fn: string, types: seq<ArgType>, args: seq<Node>)

  /** An assignment; a negative index appends a column. */
  datatype Entry = Entry(idx: int, expr: Node)

  datatype Op = DropOp(idx: int) | ComputeOp(where: Option<Node>, entries: seq<Entry>)

  datatype Issue =
    | UnknownColumn(name: string) | UnknownFunction(name: string) | PrimaryKeyColumn(name: string)
    | ReservedColumn(name: string) | ColumnExists(name: string) | BadCall(fn: string)
    | ConditionNotBool | TypeChange(name: string)

  /** The position of the first column with a name. */
  function Index(fields: seq<Field>, name: string): (i: int)
    ensures -1 <= i < |fields|
    ensures i >= 0 ==> fields[i].name == name && forall j :: 0 <= j < i ==> fields[j].name != name
    ensures i < 0 ==> forall j :: 0 <= j < |fields| ==> fields[j].name != name
  {
    if fields == [] then -1
    else if fields[0].name == name then 0
    else
      var i := Index(fields[1..], name);
      assert forall j :: 1 <= j < |fields| ==> fields[j] == fields[1..][j - 1];
      if i < 0 then -1 else i + 1
  }

  // ---- expressions ----

  datatype Compiled = Compiled(node: Node, typ: ArgType) | Refused(issues: seq<Issue>)

  datatype CompiledArgs = CompiledArgs(nodes: seq<Node>, types: seq<ArgType>, issues: seq<Issue>)

  function Boxing(v: Literal, t: ValueType): Node { LiteralNode(BoxedType(v, t), Boxed(v, t)) }

  predicate Widens(spec: FunctionSpec, target: ValueType, i: nat, t: ArgType)
    requires |spec.args| > 0
  {
    t.literal.Some? && !spec.ArgAt(i).literal && t.valueType != target && Coercible(t.literal.value, target)
  }

  /** coerceLiterals: the argument types once literals have widened to the first column's type. */
  function Coerced(spec: FunctionSpec, types: seq<ArgType>): (out: seq<ArgType>)
    requires |spec.args| > 0
    ensures |out| == |types|
  {
    var target := Target(spec, types);
    if !spec.sameType || target.None? then types else
      seq(|types|, i requires 0 <= i < |types| =>
        if Widens(spec, target.value, i, types[i]) then types[i].(valueType := target.value) else types[i])
  }

  /** The argument nodes after coercion: a literal whose type changed is boxed again. */
  function CoercedNodes(nodes: seq<Node>, before: seq<ArgType>, after: seq<ArgType>): (out: seq<Node>)
    requires |nodes| == |before| == |after|
    ensures |out| == |nodes|
  {
    seq(|nodes|, i requires 0 <= i < |nodes| =>
      if after[i] != before[i] && after[i].literal.Some? then Boxing(after[i].literal.value, after[i].valueType)
      else nodes[i])
  }

  /** coerceLiterals, rewriting the argument nodes and their types in place. */
  method CoerceLiterals(spec: FunctionSpec, args: array<Node>, types: array<ArgType>)
    requires |spec.args| > 0 && spec.sameType && args.Length == types.Length
    modifies args, types
    ensures types[..] == Coerced(spec, old(types[..]))
    ensures args[..] == CoercedNodes(old(args[..]), old(types[..]), types[..])
  {
    ghost var nodes, before := args[..], types[..];
    var target := FindTarget(spec, types[..]);
    if target.Some? {
      for i := 0 to types.Length
        invariant target == Target(spec, before) && |before| == |nodes| == types.Length
        invariant forall j :: 0 <= j < i ==> types[j] == Coerced(spec, before)[j]
        invariant forall j :: 0 <= j < i ==> args[j] == CoercedNodes(nodes, before, Coerced(spec, before))[j]
        invariant forall j :: i <= j < types.Length ==> types[j] == before[j] && args[j] == nodes[j]
      {
        var t := types[i];
        if t.literal.Some? && !spec.ArgAt(i).literal && t.valueType != target.value
          && Coercible(t.literal.value, target.value) {
          args[i] := Boxing(t.literal.value, target.value);
          types[i] := t.(valueType := target.value);
        }
      }
    }
    assert types[..] == Coerced(spec, before);
  }

  function CompileExpr(patterns: Patterns, fields: seq<Field>, e: Expr): (c: Compiled)
    ensures c.Refused? ==> c.issues != []
    decreases e, 0
  {
    match e
    case Lit(v) => Compiled(Boxing(v, LiteralType(v)), ArgType(LiteralType(v), Some(v)))
    case Col(name) =>
      var i := Index(fields, name);
      if i < 0 then Refused([UnknownColumn(name)]) else Compiled(ColNode(i), ArgType(TypeOf(fields[i]), None))
    case Call(fn, args) =>
      var spec := Lookup(fn);
      if spec.None? then Refused([UnknownFunction(fn)]) else
        var compiled := CompileArgs(patterns, fields, args);
        if compiled.issues != [] then Refused(compiled.issues) else
          var types := Coerced(spec.value, compiled.types);
          var ret := Check(patterns, fn, spec.value, types);
          if ret.None? then Refused([BadCall(fn)]) else
            Compiled(CallNode(fn, types, CoercedNodes(compiled.nodes, compiled.types, types)), ArgType(ret.value, None))
  }

  /** Every argument is compiled even after one is refused, so all issues are reported. */
  function CompileArgs(patterns: Patterns, fields: seq<Field>, args: seq<Expr>): (c: CompiledArgs)
    ensures c.issues == [] ==> |c.nodes| == |c.types| == |args|
    decreases args
  {
    if args == [] then CompiledArgs([], [], []) else
      var first := CompileExpr(patterns, fields, args[0]);
      var rest := CompileArgs(patterns, fields, args[1..]);
      match first
      case Compiled(node, typ) => CompiledArgs([node] + rest.nodes, [typ] + rest.types, rest.issues)
      case Refused(issues) => CompiledArgs(rest.nodes, rest.types, issues + rest.issues)
  }

  // ---- steps, as functions of the working state ----

  datatype Work = Work(fields: seq<Field>, ops: seq<Op>, issues: seq<Issue>)

  /** The renames accepted so far, from old name to new, and the issues. */
  datatype Renames = Renames(accepted: map<string, string>, issues: seq<Issue>)

  /** Rename looks every name up in the layout before the step. */
  function RenameEntry(fields: seq<Field>, pk: seq<string>, from: string, to: string, r: Renames): (next: Renames)
    ensures next.accepted.Keys <= r.accepted.Keys + {from}
  {
    if Index(fields, from) < 0 then r.(issues := r.issues + [UnknownColumn(from)])
    else if from in pk then r.(issues := r.issues + [PrimaryKeyColumn(from)])
    else if IsReserved(to) then r.(issues := r.issues + [ReservedColumn(to)])
    else if Index(fields, to) >= 0 || to in r.accepted.Values then r.(issues := r.issues + [ColumnExists(to)])
    else r.(accepted := r.accepted[from := to])
  }

  /** The entries from the k-th name on. */
  function RenameScan(fields: seq<Field>, pk: seq<string>, names: map<string, string>, todo: seq<string>, k: nat,
      r: Renames): Renames
    requires k <= |todo| && forall n :: n in todo ==> n in names
    decreases |todo| - k
  {
    if k == |todo| then r
    else RenameScan(fields, pk, names, todo, k + 1, RenameEntry(fields, pk, todo[k], names[todo[k]], r))
  }

  function Relabeled(fields: seq<Field>, accepted: map<string, string>): (out: seq<Field>)
    ensures |out| == |fields|
  {
    seq(|fields|, i requires 0 <= i < |fields| =>
      if fields[i].name in accepted && Index(fields, fields[i].name) == i
      then fields[i].(name := accepted[fields[i].name]) else fields[i])
  }

  /** Go collects renames as positions by new name: those of the accepted old names, one each. */
  ghost predicate Positions(fields: seq<Field>, renamed: map<string, int>, accepted: map<string, string>) {
    && renamed.Keys == accepted.Values
    && forall n :: n in accepted ==> Index(fields, n) >= 0 && renamed[accepted[n]] == Index(fields, n)
  }

  /** One column of a layout whose new names in left have not been assigned yet. */
  ghost function RelabeledUnless(fields: seq<Field>, accepted: map<string, string>, left: set<string>, i: nat): Field
    requires i < |fields|
  {
    if fields[i].name in accepted && Index(fields, fields[i].name) == i && accepted[fields[i].name] !in left
    then fields[i].(name := accepted[fields[i].name]) else fields[i]
  }

  lemma RelabelOne(fields: seq<Field>, renamed: map<string, int>, accepted: map<string, string>, left: set<string>,
      to: string)
    requires Positions(fields, renamed, accepted) && to in left && left <= renamed.Keys
    ensures 0 <= renamed[to] < |fields|
    ensures forall j :: 0 <= j < |fields| ==> (
              var f := RelabeledUnless(fields, accepted, left, j);
              RelabeledUnless(fields, accepted, left - {to}, j) == if j == renamed[to] then f.(name := to) else f)
  {
    var from :| from in accepted && accepted[from] == to;
    assert fields[renamed[to]].name == from;
  }

  function RenameStep(w: Work, pk: seq<string>, names: map<string, string>): Work {
    var r := RenameScan(w.fields, pk, names, SortedKeys(names.Keys), 0, Renames(map[], w.issues));
    w.(fields := Relabeled(w.fields, r.accepted), issues := r.issues)
  }

  function DropStep(w: Work, pk: seq<string>, columns: seq<string>): Work
    decreases |columns|
  {
    if columns == [] then w else
      var i := Index(w.fields, columns[0]);
      if i < 0 then DropStep(w.(issues := w.issues + [UnknownColumn(columns[0])]), pk, columns[1..])
      else if columns[0] in pk then DropStep(w.(issues := w.issues + [PrimaryKeyColumn(columns[0])]), pk, columns[1..])
      else DropStep(w.(fields := w.fields[..i] + w.fields[i + 1..], ops := w.ops + [DropOp(i)]), pk, columns[1..])
  }

  /** A layout change a compute step makes once all its entries have compiled. */
  datatype Change = Change(idx: int, field: Field)

  datatype Pending = Pending(entries: seq<Entry>, changes: seq<Change>, issues: seq<Issue>)

  function ComputedField(name: string, t: ValueType): Field { Field(name, true, t.logical, "", t.precision, t.scale) }

  /** The entries from the k-th name on. */
  function ComputeScan(patterns: Patterns, fields: seq<Field>, pk: seq<string>, entries: map<string, Expr>,
      guarded: bool, todo: seq<string>, k: nat, p: Pending): Pending
    requires k <= |todo| && forall n :: n in todo ==> n in entries
    decreases |todo| - k
  {
    if k == |todo| then p else
      ComputeScan(patterns, fields, pk, entries, guarded, todo, k + 1,
                  ComputeEntry(patterns, fields, pk, entries, guarded, todo[k], p))
  }

  function ComputeEntry(patterns: Patterns, fields: seq<Field>, pk: seq<string>, entries: map<string, Expr>,
      guarded: bool, name: string, p: Pending): Pending
    requires name in entries
  {
    if IsReserved(name) then p.(issues := p.issues + [ReservedColumn(name)])
    else if name in pk then p.(issues := p.issues + [PrimaryKeyColumn(name)])
    else match CompileExpr(patterns, fields, entries[name])
      case Refused(issues) => p.(issues := p.issues + issues)
      case Compiled(node, t) =>
        var i := Index(fields, name);
        if i >= 0 && guarded && TypeOf(fields[i]) != t.valueType then p.(issues := p.issues + [TypeChange(name)])
        else Pending(p.entries + [Entry(i, node)], p.changes + [Change(i, ComputedField(name, t.valueType))], p.issues)
  }

  /** Applies the changes from the k-th on: replace in place, or append. */
  function ApplyChanges(fields: seq<Field>, changes: seq<Change>, k: nat): (out: seq<Field>)
    requires k <= |changes| && forall c :: c in changes ==> c.idx < |fields|
    ensures |out| >= |fields|
    decreases |changes| - k
  {
    if k == |changes| then fields
    else if changes[k].idx < 0 then ApplyChanges(fields + [changes[k].field], changes, k + 1)
    else ApplyChanges(fields[changes[k].idx := changes[k].field], changes, k + 1)
  }

  lemma {:induction false} ScanIndices(patterns: Patterns, fields: seq<Field>, pk: seq<string>,
      entries: map<string, Expr>, guarded: bool, todo: seq<string>, k: nat, p: Pending)
    requires k <= |todo| && forall n :: n in todo ==> n in entries
    requires forall c :: c in p.changes ==> c.idx < |fields|
    ensures forall c :: c in ComputeScan(patterns, fields, pk, entries, guarded, todo, k, p).changes ==>
              c.idx < |fields|
    decreases |todo| - k
  {
    if k < |todo| {
      ScanIndices(patterns, fields, pk, entries, guarded, todo, k + 1,
                  ComputeEntry(patterns, fields, pk, entries, guarded, todo[k], p));
    }
  }

  /** The compiled condition of a compute step, or the issues that stop the step. */
  function CompileWhere(patterns: Patterns, fields: seq<Field>, where: Option<Expr>): (r: (Option<Node>, seq<Issue>)) {
    if where.None? then (None, []) else
      match CompileExpr(patterns, fields, where.value)
      case Refused(issues) => (None, issues)
      case Compiled(node, t) => if t.valueType.logical == Bool then (Some(node), []) else (None, [ConditionNotBool])
  }

  function ComputeStep(patterns: Patterns, w: Work, pk: seq<string>, entries: map<string, Expr>,
      where: Option<Expr>): Work
  {
    var (guard, issues) := CompileWhere(patterns, w.fields, where);
    if issues != [] then w.(issues := w.issues + issues) else
      var todo := SortedKeys(entries.Keys);
      var p := ComputeScan(patterns, w.fields, pk, entries, where.Some?, todo, 0, Pending([], [], w.issues));
      ScanIndices(patterns, w.fields, pk, entries, where.Some?, todo, 0, Pending([], [], w.issues));
      if p.entries == [] then w.(issues := p.issues)
      else Work(ApplyChanges(w.fields, p.changes, 0), w.ops + [ComputeOp(guard, p.entries)], p.issues)
  }

  function CompileStep(patterns: Patterns, w: Work, pk: seq<string>, step: Step): Work {
    match step
    case Rename(names) => RenameStep(w, pk, names)
    case Drop(columns) => DropStep(w, pk, columns)
    case Compute(entries, where) => ComputeStep(patterns, w, pk, entries, where)
  }

  function CompileSteps(patterns: Patterns, w: Work, pk: seq<string>, steps: seq<Step>): Work
    decreases |steps|
  {
    if steps == [] then w else CompileSteps(patterns, CompileStep(patterns, w, pk, steps[0]), pk, steps[1..])
  }

  // ---- the compiler itself, which updates its layout, operations and issues in place ----

  class Compiler {
    const patterns: Patterns
    const pk: seq<string>
    var fields: seq<Field>
    var ops: seq<Op>
    var issues: seq<Issue>

    constructor (patterns: Patterns, schema: Schema)
      ensures this.patterns == patterns && pk == schema.primaryKey && State() == Work(schema.fields, [], [])
    {
      this.patterns, pk, fields, ops, issues := patterns, schema.primaryKey, schema.fields, [], [];
    }

    ghost function State(): Work
      reads this
    {
      Work(fields, ops, issues)
    }

    method RenameColumns(names: map<string, string>)
      modifies this
      ensures State() == RenameStep(old(State()), pk, names)
    {
      ghost var start := Renames(map[], issues);
      var renamed, found, r := CollectRenames(names, start);
      issues := found;
      ApplyRenames(renamed, r.accepted);
    }

    /** Visits the entries in name order without changing the layout. */
    method CollectRenames(names: map<string, string>, ghost start: Renames)
      returns (renamed: map<string, int>, found: seq<Issue>, ghost r: Renames)
      requires start == Renames(map[], issues)
      ensures r == RenameScan(fields, pk, names, SortedKeys(names.Keys), 0, start)
      ensures found == r.issues && Positions(fields, renamed, r.accepted)
    {
      var todo := SortedKeys(names.Keys);
      SortedDistinct(todo);
      renamed, found, r := map[], issues, start;
      var k := 0;
      while k < |todo|
        invariant 0 <= k <= |todo| && r.issues == found && Positions(fields, renamed, r.accepted)
        invariant RenameScan(fields, pk, names, todo, 0, start) == RenameScan(fields, pk, names, todo, k, r)
        invariant forall j :: k <= j < |todo| ==> todo[j] !in r.accepted
      {
        var from := todo[k];
        renamed, found := CollectRename(from, names[from], renamed, found, r);
        ghost var next := RenameEntry(fields, pk, from, names[from], r);
        assert forall j :: k < j < |todo| ==> todo[j] != from && todo[j] !in next.accepted;
        r, k := next, k + 1;
      }
    }

    /** One entry of a rename: an issue, or a new name for a position. */
    method CollectRename(from: string, to: string, renamed: map<string, int>, found: seq<Issue>, ghost r: Renames)
      returns (renamed': map<string, int>, found': seq<Issue>)
      requires r.issues == found && Positions(fields, renamed, r.accepted) && from !in r.accepted
      ensures RenameEntry(fields, pk, from, to, r).issues == found'
      ensures Positions(fields, renamed', RenameEntry(fields, pk, from, to, r).accepted)
    {
      renamed', found' := renamed, found;
      var i := Index(fields, from);
      if i < 0 {
        found' := found + [UnknownColumn(from)];
      } else if from in pk {
        found' := found + [PrimaryKeyColumn(from)];
      } else if IsReserved(to) {
        found' := found + [ReservedColumn(to)];
      } else if Index(fields, to) >= 0 || to in renamed {
        found' := found + [ColumnExists(to)];
      } else {
        ValuesUpdate(r.accepted, from, to);
        renamed' := renamed[to := i];
      }
    }

    /** Assigns the new names, in no particular order. */
    method ApplyRenames(renamed: map<string, int>, ghost accepted: map<string, string>)
      requires Positions(fields, renamed, accepted)
      modifies this`fields
      ensures fields == Relabeled(old(fields), accepted)
    {
      ghost var before := fields;
      var layout, left := fields, renamed.Keys;
      while left != {}
        invariant left <= renamed.Keys && |layout| == |before|
        invariant forall j :: 0 <= j < |before| ==> layout[j] == RelabeledUnless(before, accepted, left, j)
        decreases left
      {
        var to :| to in left;
        var i := renamed[to];
        RelabelOne(before, renamed, accepted, left, to);
        layout := layout[i := layout[i].(name := to)];
        left := left - {to};
      }
      fields := layout;
    }

    method DropColumns(columns: seq<string>)
      modifies this
      ensures State() == DropStep(old(State()), pk, columns)
    {
      var j := 0;
      while j < |columns|
        invariant 0 <= j <= |columns|
        invariant DropStep(old(State()), pk, columns) == DropStep(State(), pk, columns[j..])
      {
        var i := Index(fields, columns[j]);
        if i < 0 {
          issues := issues + [UnknownColumn(columns[j])];
        } else if columns[j] in pk {
          issues := issues + [PrimaryKeyColumn(columns[j])];
        } else {
          fields := fields[..i] + fields[i + 1..];
          ops := ops + [DropOp(i)];
        }
        j := j + 1;
      }
    }

    method ComputeColumns(entries: map<string, Expr>, where: Option<Expr>)
      modifies this
      ensures State() == ComputeStep(patterns, old(State()), pk, entries, where)
    {
      var (guard, stops) := CompileWhere(patterns, fields, where);
      if stops != [] {
        issues := issues + stops;
        return;
      }
      var todo := SortedKeys(entries.Keys);
      var p := Pending([], [], issues);
      ghost var start := p;
      ScanIndices(patterns, fields, pk, entries, where.Some?, todo, 0, start);
      var k := 0;
      while k < |todo|
        invariant 0 <= k <= |todo| && State() == old(State())
        invariant ComputeScan(patterns, fields, pk, entries, where.Some?, todo, 0, start)
               == ComputeScan(patterns, fields, pk, entries, where.Some?, todo, k, p)
      {
        p := ComputeEntry(patterns, fields, pk, entries, where.Some?, todo[k], p);
        k := k + 1;
      }
      issues := p.issues;
      if p.entries != [] {
        ChangeLayout(p.changes);
        ops := ops + [ComputeOp(guard, p.entries)];
      }
    }

    method ChangeLayout(changes: seq<Change>)
      requires forall c :: c in changes ==> c.idx < |fields|
      modifies this`fields
      ensures fields == ApplyChanges(old(fields), changes, 0)
    {
      var c := 0;
      while c < |changes|
        invariant 0 <= c <= |changes| && |fields| >= |old(fields)|
        invariant ApplyChanges(old(fields), changes, 0) == ApplyChanges(fields, changes, c)
      {
        var ch := changes[c];
        if ch.idx < 0 { fields := fields + [ch.field]; } else { fields := fields[ch.idx := ch.field]; }
        c := c + 1;
      }
    }

    method Run(steps: seq<Step>)
      modifies this
      ensures State() == CompileSteps(patterns, old(State()), pk, steps)
    {
      var k := 0;
      while k < |steps|
        invariant 0 <= k <= |steps|
        invariant CompileSteps(patterns, old(State()), pk, steps) == CompileSteps(patterns, State(), pk, steps[k..])
      {
        match steps[k] {
          case Rename(names) => RenameColumns(names);
          case Drop(columns) => DropColumns(columns);
          case Compute(entries, where) => ComputeColumns(entries, where);
        }
        k := k + 1;
      }
    }
  }

  lemma ValuesUpdate(m: map<string, string>, k: string, v: string)
    requires k !in m
    ensures m[k := v].Values == m.Values + {v}
  {
    assert forall x :: x in m ==> m[k := v][x] == m[x];
    assert m[k := v][k] == v;
    forall y | y in m.Values ensures y in m[k := v].Values {
      var x :| x in m && m[x] == y;
      assert m[k := v][x] == y;
    }
  }
}
