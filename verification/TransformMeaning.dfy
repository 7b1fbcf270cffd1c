/**
  What a transform means by column name, and the proof that the compiled positions compute exactly that.
  The reference never mentions a position: a step is a function of a map from names to columns.
 */
module TransformMeaning {
  import opened RowModel
  import opened Order
  import opened TransformCatalog
  import opened TransformLiterals
  import opened TransformCompile
  import opened TransformExec

  // ---- the reference: typing and evaluation by name ----

  type Types = map<string, ValueType>

  function NamedType(patterns: Patterns, types: Types, e: Expr): (t: Option<ArgType>)
    decreases e, 0
  {
    match e
    case Lit(v) => Some(ArgType(LiteralType(v), Some(v)))
    case Col(name) => if name in types then Some(ArgType(types[name], None)) else None
    case Call(fn, args) =>
      var spec, argTypes := Lookup(fn), NamedTypes(patterns, types, args);
      if spec.None? || argTypes.None? then None else
        var ret := Check(patterns, fn, spec.value, Coerced(spec.value, argTypes.value));
        if ret.None? then None else Some(ArgType(ret.value, None))
  }

  function NamedTypes(patterns: Patterns, types: Types, args: seq<Expr>): (t: Option<seq<ArgType>>)
    ensures t.Some? ==> |t.value| == |args|
    decreases args
  {
    if args == [] then Some([]) else
      var first, rest := NamedType(patterns, types, args[0]), NamedTypes(patterns, types, args[1..]);
      if first.None? || rest.None? then None else Some([first.value] + rest.value)
  }

  datatype Named = Named(typ: ValueType, col: Column)

  type Env = map<string, Named>

  function TypesOf(env: Env): Types { map n | n in env :: env[n].typ }

  function Scalar(v: Literal, t: ValueType): Datum { ScalarDatum(BoxedType(v, t), Boxed(v, t)) }

  function NamedEval(rt: Runtime, env: Env, e: Expr): (d: Option<Datum>)
    decreases e, 0
  {
    match e
    case Lit(v) => Some(Scalar(v, LiteralType(v)))
    case Col(name) => if name in env then Some(ArrayDatum(env[name].col)) else None
    case Call(fn, args) =>
      var spec, argTypes := Lookup(fn), NamedTypes(rt.patterns, TypesOf(env), args);
      if spec.None? || argTypes.None? then None else
        var types := Coerced(spec.value, argTypes.value);
        var values := NamedValues(rt, env, args, types);
        if values.None? then None else rt.exec(fn, types, values.value)
  }

  /** Argument values; a literal takes the type its call gave it. */
  function NamedValues(rt: Runtime, env: Env, args: seq<Expr>, types: seq<ArgType>): (d: Option<seq<Datum>>)
    requires |args| == |types|
    decreases args
  {
    if args == [] then Some([]) else
      var first := if types[0].literal.Some? then Some(Scalar(types[0].literal.value, types[0].valueType))
                   else NamedEval(rt, env, args[0]);
      var rest := NamedValues(rt, env, args[1..], types[1..]);
      if first.None? || rest.None? then None else Some([first.value] + rest.value)
  }

  // ---- the reference: steps by name ----

  function NewName(names: map<string, string>, n: string): string { if n in names then names[n] else n }

  predicate RenameAccepted(keys: set<string>, pk: seq<string>, names: map<string, string>) {
    && (forall n :: n in names ==> n in keys && n !in pk && names[n] !in keys && !IsReserved(names[n]))
    && (forall n, m :: n in names && m in names && names[n] == names[m] ==> n == m)
  }

  predicate DropAccepted(keys: set<string>, pk: seq<string>, columns: seq<string>) {
    && (forall i :: 0 <= i < |columns| ==> columns[i] in keys && columns[i] !in pk)
    && (forall i, j :: 0 <= i < j < |columns| ==> columns[i] != columns[j])
  }

  predicate ConditionAccepted(patterns: Patterns, types: Types, where: Option<Expr>) {
    where.Some? ==>
      var t := NamedType(patterns, types, where.value);
      t.Some? && t.value.valueType.logical == Bool
  }

  predicate EntryAccepted(patterns: Patterns, types: Types, pk: seq<string>, guarded: bool, name: string, e: Expr) {
    && !IsReserved(name) && name !in pk
    && var t := NamedType(patterns, types, e);
       t.Some? && (guarded && name in types ==> types[name] == t.value.valueType)
  }

  /** Which steps compile, said by name alone. */
  predicate StepAccepted(patterns: Patterns, types: Types, pk: seq<string>, step: Step) {
    match step
    case Rename(names) => RenameAccepted(types.Keys, pk, names)
    case Drop(columns) => DropAccepted(types.Keys, pk, columns)
    case Compute(entries, where) =>
      && ConditionAccepted(patterns, types, where)
      && forall n :: n in entries ==> EntryAccepted(patterns, types, pk, where.Some?, n, entries[n])
  }

  /** Renaming relabels: each column keeps its content under its new name. */
  function RenameKeys<V>(m: map<string, V>, names: map<string, string>): (r: map<string, V>)
    requires RenameAccepted(m.Keys, [], names)
    ensures forall k :: k in m ==> NewName(names, k) in r && r[NewName(names, k)] == m[k]
    ensures forall n :: n in r ==> exists k :: k in m && n == NewName(names, k)
  {
    map k | k in m :: NewName(names, k) := m[k]
  }

  function Listed(columns: seq<string>): set<string> { set c | c in columns }

  /** The mask of a conditional step, None inside for an unconditional one. */
  function NamedMask(rt: Runtime, env: Env, rows: nat, where: Option<Expr>): (m: Option<Option<Column>>) {
    if where.None? then Some(None) else
      var d := NamedEval(rt, env, where.value);
      if d.None? then None else Some(Some(ToArray(d.value, rows)))
  }

  /** Row by row: the new value where the mask is true, the old one elsewhere. */
  function Merged(mask: Column, value: Column, kept: Column, rows: nat): (c: Option<Column>) {
    if |mask.cells| == |value.cells| == |kept.cells| == rows then
      Some(Column(value.typ, seq(rows, i requires 0 <= i < rows =>
        if mask.cells[i] == BoolCell(true) then value.cells[i] else kept.cells[i])))
    else None
  }

  /** The column an entry assigns: unmatched rows keep the old column, or are null in a new one. */
  function NamedEntry(rt: Runtime, env: Env, rows: nat, mask: Option<Column>, name: string,
      e: Expr): (c: Option<Column>)
  {
    var d := NamedEval(rt, env, e);
    if d.None? then None else
      var value := ToArray(d.value, rows);
      if mask.None? then Some(value)
      else Merged(mask.value, value, if name in env then env[name].col else Nulls(value.typ, rows), rows)
  }

  /** An entry's type and column by name. */
  function NamedValue(rt: Runtime, env: Env, rows: nat, mask: Option<Column>, name: string, e: Expr): (v: Option<Named>)
  {
    var t, c := NamedType(rt.patterns, TypesOf(env), e), NamedEntry(rt, env, rows, mask, name, e);
    if t.None? || c.None? then None else Some(Named(t.value.valueType, c.value))
  }

  /** The environment with every value assigned at once, unless one of them failed. */
  function AssignAll(env: Env, values: map<string, Option<Named>>): (r: Option<Env>) {
    if None in values.Values then None
    else Some(env + map n | n in values && values[n].Some? :: values[n].value)
  }

  /** Every entry reads the columns before the step; the assignments happen together. */
  function NamedCompute(rt: Runtime, env: Env, rows: nat, entries: map<string, Expr>,
      where: Option<Expr>): (r: Option<Env>)
  {
    if entries == map[] then Some(env) else
      var mask := NamedMask(rt, env, rows, where);
      if mask.None? then None else
        AssignAll(env, map n | n in entries :: NamedValue(rt, env, rows, mask.value, n, entries[n]))
  }

  /** One step by name; None when a kernel fails. */
  function NamedStep(rt: Runtime, env: Env, rows: nat, step: Step): (r: Option<Env>)
    requires StepAccepted(rt.patterns, TypesOf(env), [], step)
  {
    match step
    case Rename(names) => Some(RenameKeys(env, names))
    case Drop(columns) => Some(env - Listed(columns))
    case Compute(entries, where) => NamedCompute(rt, env, rows, entries, where)
  }

  function NamedSteps(rt: Runtime, env: Env, rows: nat, steps: seq<Step>): (r: Option<Env>)
    decreases |steps|
  {
    if steps == [] then Some(env)
    else if !StepAccepted(rt.patterns, TypesOf(env), [], steps[0]) then None
    else
      var next := NamedStep(rt, env, rows, steps[0]);
      if next.None? then None else NamedSteps(rt, next.value, rows, steps[1..])
  }

  // ---- expressions: compiled exactly when typed, with the type by name ----

  ghost predicate Agree(fields: seq<Field>, types: Types) {
    types.Keys == Names(fields) && forall i :: 0 <= i < |fields| ==> types[fields[i].name] == TypeOf(fields[i])
  }

  lemma {:induction false} ExprAccepted(patterns: Patterns, fields: seq<Field>, types: Types, e: Expr)
    requires Agree(fields, types)
    ensures var c, t := CompileExpr(patterns, fields, e), NamedType(patterns, types, e);
            (c.Compiled? <==> t.Some?) && (c.Compiled? ==> c.typ == t.value)
    decreases e, 0
  {
    match e
    case Lit(_) =>
    case Col(name) =>
      var i := Index(fields, name);
      assert i >= 0 ==> fields[i].name in Names(fields);
    case Call(fn, args) =>
      ArgsAccepted(patterns, fields, types, args);
  }

  lemma {:induction false} ArgsAccepted(patterns: Patterns, fields: seq<Field>, types: Types, args: seq<Expr>)
    requires Agree(fields, types)
    ensures var c, t := CompileArgs(patterns, fields, args), NamedTypes(patterns, types, args);
            (c.issues == [] <==> t.Some?) && (t.Some? ==> c.types == t.value)
    decreases args
  {
    if args != [] {
      ExprAccepted(patterns, fields, types, args[0]);
      ArgsAccepted(patterns, fields, types, args[1..]);
    }
  }

  // ---- expressions: the positional value is the named one, at exactly the recorded type ----

  /** A constant is a scalar boxed at its type; anything else is a column of the type's storage and the right length. */
  ghost predicate HasType(d: Datum, t: ArgType, rows: nat) {
    if t.literal.Some? then d == Scalar(t.literal.value, t.valueType) && d.typ == StorageOf(t.valueType)
    else d.ArrayDatum? && d.col.typ == StorageOf(t.valueType) && |d.col.cells| == rows
  }

  ghost predicate HaveTypes(values: seq<Datum>, types: seq<ArgType>, rows: nat) {
    |values| == |types| && forall i :: 0 <= i < |values| ==> HasType(values[i], types[i], rows)
  }

  /** The contract of a type-correct kernel: arguments of the checked types give a column of the checked result type. */
  ghost predicate KernelsTyped(rt: Runtime, rows: nat) {
    forall fn, types, values ::
      Lookup(fn).Some? && Check(rt.patterns, fn, Lookup(fn).value, types).Some? && HaveTypes(values, types, rows)
      && rt.exec(fn, types, values).Some? ==>
        HasType(rt.exec(fn, types, values).value,
                ArgType(Check(rt.patterns, fn, Lookup(fn).value, types).value, None), rows)
  }

  /** A frame whose columns have the layout's storage types and the row count. */
  ghost predicate Typed(fields: seq<Field>, cols: seq<Column>, rows: nat) {
    && |fields| == |cols|
    && forall i :: 0 <= i < |cols| ==> cols[i].typ == StorageOf(TypeOf(fields[i])) && |cols[i].cells| == rows
  }

  /** Position by position, the frame holds what the environment has under the layout's name. */
  ghost predicate Holds(fields: seq<Field>, cols: seq<Column>, env: Env) {
    && |fields| == |cols| && env.Keys == Names(fields) && DistinctNames(fields)
    && forall i :: 0 <= i < |fields| ==> env[fields[i].name] == Named(TypeOf(fields[i]), cols[i])
  }

  lemma HoldsAgree(fields: seq<Field>, cols: seq<Column>, env: Env)
    requires Holds(fields, cols, env)
    ensures Agree(fields, TypesOf(env))
  {
    assert forall i :: 0 <= i < |fields| ==> fields[i].name in Names(fields);
  }

  /** What relates the positional and the named value of an expression. */
  ghost predicate SameValue(r: Result<Datum>, d: Option<Datum>, t: ArgType, rows: nat) {
    match r
    case Panic => false
    case Err => d.None?
    case Ok(v) => d == Some(v) && HasType(v, t, rows)
  }

  /** Argument types after coercion: only literals changed, and only to types they widen to. */
  ghost predicate Widened(before: seq<ArgType>, after: seq<ArgType>) {
    && |before| == |after|
    && forall i :: 0 <= i < |before| ==>
         after[i] == before[i]
         || (before[i].literal.Some? && after[i].literal == before[i].literal
             && Coercible(before[i].literal.value, after[i].valueType))
  }

  lemma CoercedWidens(spec: FunctionSpec, types: seq<ArgType>)
    requires |spec.args| > 0
    ensures Widened(types, Coerced(spec, types))
  {}

  /** A compiled expression evaluates to the named value, never panics, and has the recorded type. */
  lemma {:induction false} EvalMeaning(rt: Runtime, fields: seq<Field>, cols: seq<Column>, env: Env, rows: nat, e: Expr)
    requires KernelsTyped(rt, rows) && Typed(fields, cols, rows) && Holds(fields, cols, env)
    requires CompileExpr(rt.patterns, fields, e).Compiled?
    ensures var c := CompileExpr(rt.patterns, fields, e);
            SameValue(Eval(rt, c.node, cols), NamedEval(rt, env, e), c.typ, rows)
    decreases e, 0
  {
    match e
    case Lit(v) => BoxedAtType(v, LiteralType(v));
    case Col(name) =>
    case Call(fn, args) =>
      HoldsAgree(fields, cols, env);
      ArgsAccepted(rt.patterns, fields, TypesOf(env), args);
      var spec := Lookup(fn).value;
      var before := CompileArgs(rt.patterns, fields, args).types;
      CoercedWidens(spec, before);
      ArgsMeaning(rt, fields, cols, env, rows, args, Coerced(spec, before));
  }

  ghost predicate SameValues(r: Result<seq<Datum>>, d: Option<seq<Datum>>, types: seq<ArgType>, rows: nat) {
    match r
    case Panic => false
    case Err => d.None?
    case Ok(values) => d == Some(values) && HaveTypes(values, types, rows)
  }

  lemma ConsTypes(v: Datum, values: seq<Datum>, types: seq<ArgType>, rows: nat)
    requires types != [] && HasType(v, types[0], rows) && HaveTypes(values, types[1..], rows)
    ensures HaveTypes([v] + values, types, rows)
  {
    assert forall i :: 1 <= i < |types| ==> types[i] == types[1..][i - 1];
  }

  /** The first argument, then the rest. */
  lemma ArgsCons(rt: Runtime, nodes: seq<Node>, cols: seq<Column>, env: Env, args: seq<Expr>, types: seq<ArgType>,
      rows: nat)
    requires |nodes| == |args| == |types| > 0
    requires var first := if types[0].literal.Some? then Some(Scalar(types[0].literal.value, types[0].valueType))
               else NamedEval(rt, env, args[0]);
             SameValue(Eval(rt, nodes[0], cols), first, types[0], rows)
    requires SameValues(EvalArgs(rt, nodes[1..], cols), NamedValues(rt, env, args[1..], types[1..]), types[1..], rows)
    ensures SameValues(EvalArgs(rt, nodes, cols), NamedValues(rt, env, args, types), types, rows)
  {
    var head, tail := Eval(rt, nodes[0], cols), EvalArgs(rt, nodes[1..], cols);
    if head.Ok? && tail.Ok? { ConsTypes(head.value, tail.value, types, rows); }
  }

  lemma {:induction false} ArgsMeaning(rt: Runtime, fields: seq<Field>, cols: seq<Column>, env: Env, rows: nat,
      args: seq<Expr>, types: seq<ArgType>)
    requires KernelsTyped(rt, rows) && Typed(fields, cols, rows) && Holds(fields, cols, env)
    requires CompileArgs(rt.patterns, fields, args).issues == []
    requires Widened(CompileArgs(rt.patterns, fields, args).types, types)
    ensures var c := CompileArgs(rt.patterns, fields, args);
            SameValues(EvalArgs(rt, CoercedNodes(c.nodes, c.types, types), cols), NamedValues(rt, env, args, types),
                       types, rows)
    decreases args
  {
    if args != [] {
      var c, rest := CompileArgs(rt.patterns, fields, args), CompileArgs(rt.patterns, fields, args[1..]);
      EvalMeaning(rt, fields, cols, env, rows, args[0]);
      assert c.nodes[1..] == rest.nodes && c.types[1..] == rest.types;
      ArgsMeaning(rt, fields, cols, env, rows, args[1..], types[1..]);
      var nodes := CoercedNodes(c.nodes, c.types, types);
      assert nodes[1..] == CoercedNodes(rest.nodes, rest.types, types[1..]);
      FirstArg(rt, fields, cols, args[0], types[0], rows);
      ArgsCons(rt, nodes, cols, env, args, types, rows);
    }
  }

  /** The first argument's node after coercion: the compiled one, or its literal boxed again. */
  lemma FirstArg(rt: Runtime, fields: seq<Field>, cols: seq<Column>, e: Expr, t: ArgType, rows: nat)
    requires CompileExpr(rt.patterns, fields, e).Compiled?
    requires Widened([CompileExpr(rt.patterns, fields, e).typ], [t])
    ensures t.literal.Some? ==>
              var c := CompileExpr(rt.patterns, fields, e);
              var node := if t != c.typ then Boxing(t.literal.value, t.valueType) else c.node;
              && Eval(rt, node, cols) == Ok(Scalar(t.literal.value, t.valueType))
              && HasType(Scalar(t.literal.value, t.valueType), t, rows)
    ensures t.literal.None? ==> t == CompileExpr(rt.patterns, fields, e).typ
  {
    var c := CompileExpr(rt.patterns, fields, e);
    assert [c.typ][0] == c.typ && [t][0] == t;
    if t.literal.Some? {
      assert e == Lit(t.literal.value);
      BoxedAtType(t.literal.value, t.valueType);
    }
  }
}
