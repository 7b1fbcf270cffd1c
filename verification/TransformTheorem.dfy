/** The transform as a whole: acceptance, meaning, keys and the reserved namespace, for any list of steps. */
module TransformTheorem {
  import opened RowModel
  import opened Order
  import opened TransformCatalog
  import opened TransformLiterals
  import opened TransformCompile
  import opened TransformExec
  import opened TransformMeaning
  import opened TransformCorrect
  import opened TransformCompute

  // ---- meaning ----

  lemma AcceptedWithoutKey(patterns: Patterns, types: Types, pk: seq<string>, step: Step)
    requires StepAccepted(patterns, types, pk, step)
    ensures StepAccepted(patterns, types, [], step)
  {
    match step
    case Rename(_) =>
    case Drop(_) =>
    case Compute(entries, where) =>
      forall n | n in entries ensures EntryAccepted(patterns, types, [], where.Some?, n, entries[n]) {
        assert EntryAccepted(patterns, types, pk, where.Some?, n, entries[n]);
      }
  }

  lemma StepAcceptedExactly(patterns: Patterns, w: Work, types: Types, pk: seq<string>, step: Step)
    requires DistinctNames(w.fields) && Agree(w.fields, types)
    ensures CompileStep(patterns, w, pk, step).issues == w.issues <==> StepAccepted(patterns, types, pk, step)
  {
    match step
    case Rename(names) => RenameAcceptedExactly(w, pk, names);
    case Drop(columns) => DropAcceptedExactly(w, pk, columns);
    case Compute(entries, where) => ComputeAcceptedExactly(patterns, w, types, pk, entries, where);
  }

  lemma StepMeaning(rt: Runtime, w: Work, pk: seq<string>, step: Step, start: seq<Column>, rows: nat, env: Env)
    requires KernelsTyped(rt, rows) && Related(rt, w, start, rows, Some(env))
    requires CompileStep(rt.patterns, w, pk, step).issues == w.issues
    ensures StepAccepted(rt.patterns, TypesOf(env), pk, step) && StepAccepted(rt.patterns, TypesOf(env), [], step)
    ensures Related(rt, CompileStep(rt.patterns, w, pk, step), start, rows, NamedStep(rt, env, rows, step))
  {
    var cols := ApplyOps(rt, w.ops, start, rows).value;
    HoldsAgree(w.fields, cols, env);
    StepAcceptedExactly(rt.patterns, w, TypesOf(env), pk, step);
    AcceptedWithoutKey(rt.patterns, TypesOf(env), pk, step);
    match step
    case Rename(names) =>
      RenameAcceptedExactly(w, pk, names);
      RenameMeaning(w.fields, cols, env, pk, names);
      RelabeledTyped(w.fields, cols, names, rows);
    case Drop(columns) => DropMeaning(rt, w, pk, columns, start, rows, env);
    case Compute(entries, where) => ComputeMeaning(rt, w, pk, entries, where, start, rows, env);
  }

  lemma RelabeledTyped(fields: seq<Field>, cols: seq<Column>, names: map<string, string>, rows: nat)
    requires Typed(fields, cols, rows)
    ensures Typed(Relabeled(fields, names), cols, rows)
  {
    assert forall i :: 0 <= i < |fields| ==> TypeOf(Relabeled(fields, names)[i]) == TypeOf(fields[i]);
  }

  lemma {:induction false} DropErrStays(rt: Runtime, w: Work, pk: seq<string>, columns: seq<string>,
      start: seq<Column>, rows: nat)
    requires ApplyOps(rt, w.ops, start, rows) == Err
    ensures ApplyOps(rt, DropStep(w, pk, columns).ops, start, rows) == Err
    decreases |columns|
  {
    if columns != [] {
      var i := Index(w.fields, columns[0]);
      if i < 0 {
        DropErrStays(rt, w.(issues := w.issues + [UnknownColumn(columns[0])]), pk, columns[1..], start, rows);
      } else if columns[0] in pk {
        DropErrStays(rt, w.(issues := w.issues + [PrimaryKeyColumn(columns[0])]), pk, columns[1..], start, rows);
      } else {
        ApplyAppend(rt, w.ops, DropOp(i), start, rows);
        DropErrStays(rt, Without(w, i), pk, columns[1..], start, rows);
      }
    }
  }

  lemma ErrStays(rt: Runtime, w: Work, pk: seq<string>, step: Step, start: seq<Column>, rows: nat)
    requires ApplyOps(rt, w.ops, start, rows) == Err
    ensures ApplyOps(rt, CompileStep(rt.patterns, w, pk, step).ops, start, rows) == Err
  {
    match step
    case Rename(_) =>
    case Drop(columns) => DropErrStays(rt, w, pk, columns, start, rows);
    case Compute(entries, where) =>
      var ops := CompileStep(rt.patterns, w, pk, step).ops;
      if ops != w.ops { ApplyAppend(rt, w.ops, ops[|w.ops|], start, rows); }
  }

  lemma {:induction false} StepsMeaning(rt: Runtime, w: Work, pk: seq<string>, steps: seq<Step>, start: seq<Column>,
      rows: nat, env: Option<Env>)
    requires KernelsTyped(rt, rows) && Related(rt, w, start, rows, env)
    requires CompileSteps(rt.patterns, w, pk, steps).issues == w.issues
    ensures Related(rt, CompileSteps(rt.patterns, w, pk, steps), start, rows,
                    if env.None? then None else NamedSteps(rt, env.value, rows, steps))
    decreases |steps|
  {
    if steps != [] {
      var next := CompileStep(rt.patterns, w, pk, steps[0]);
      StepIssuesGrow(rt.patterns, w, pk, steps[0]);
      StepsIssuesGrow(rt.patterns, next, pk, steps[1..]);
      if env.None? {
        ErrStays(rt, w, pk, steps[0], start, rows);
        StepsMeaning(rt, next, pk, steps[1..], start, rows, None);
      } else {
        StepMeaning(rt, w, pk, steps[0], start, rows, env.value);
        StepsMeaning(rt, next, pk, steps[1..], start, rows, NamedStep(rt, env.value, rows, steps[0]));
      }
    }
  }

  // ---- the plan over a record ----

  function Compile(patterns: Patterns, schema: Schema, steps: seq<Step>): Work {
    CompileSteps(patterns, Work(schema.fields, [], []), schema.primaryKey, steps)
  }

  /** Compile's plan, when it raised no issue. */
  function PlanFor(schema: Schema, w: Work): Plan { Plan(schema.fields, w.fields, w.ops) }

  /** A record built from the schema, possibly with columns appended after it. */
  ghost predicate BuiltFrom(rec: Record, fields: seq<Field>) {
    && |rec.cols| == |rec.fields| >= |fields|
    && (forall i :: 0 <= i < |fields| ==> rec.fields[i].name == fields[i].name)
    && Typed(fields, rec.cols[..|fields|], rec.rows)
  }

  /** The record's leading columns by name. */
  ghost function InputEnv(rec: Record, fields: seq<Field>): (env: Env)
    requires BuiltFrom(rec, fields) && DistinctNames(fields)
    ensures Holds(fields, rec.cols[..|fields|], env)
  {
    EnvOf(fields, rec.cols[..|fields|])
  }

  ghost function EnvOf(fields: seq<Field>, cols: seq<Column>): (env: Env)
    requires |fields| == |cols| && DistinctNames(fields)
    ensures Holds(fields, cols, env)
  {
    assert forall i :: 0 <= i < |fields| ==> Index(fields, fields[i].name) == i;
    assert forall n :: n in Names(fields) ==> Index(fields, n) >= 0;
    map n | n in Names(fields) :: Named(TypeOf(fields[Index(fields, n)]), cols[Index(fields, n)])
  }

  /** The output record is the environment laid out by the plan's schema, then the trailing columns untouched. */
  ghost predicate LaidOut(out: Record, rec: Record, input: seq<Field>, output: seq<Field>, env: Env) {
    && |rec.cols| == |rec.fields| >= |input|
    && out.rows == rec.rows && |out.cols| == |out.fields| == |output| + |rec.cols| - |input|
    && DistinctNames(output) && env.Keys == Names(output)
    && (forall i :: 0 <= i < |output| ==>
          && out.fields[i] == ArrowFieldOf(output[i])
          && out.cols[i] == env[output[i].name].col
          && out.cols[i].typ == out.fields[i].typ && |out.cols[i].cells| == rec.rows)
    && (forall i :: |input| <= i < |rec.cols| ==>
          && out.fields[i - |input| + |output|] == rec.fields[i]
          && out.cols[i - |input| + |output|] == rec.cols[i])
  }

  /**
    A definition that compiles, run by position over a matching record, yields at each output position the
    column the steps give that output name; no position is ever out of range, no type assertion fails, the
    row count stays, and trailing columns pass through. It errors exactly when a kernel the steps call errors.
   */
  lemma PlanMeaning(rt: Runtime, schema: Schema, steps: seq<Step>, rec: Record)
    requires KernelsTyped(rt, rec.rows) && DistinctNames(schema.fields) && BuiltFrom(rec, schema.fields)
    requires Compile(rt.patterns, schema, steps).issues == []
    ensures var w := Compile(rt.patterns, schema, steps);
            var meaning := NamedSteps(rt, InputEnv(rec, schema.fields), rec.rows, steps);
            match ApplyPlan(rt, PlanFor(schema, w), rec)
            case Panic => false
            case Err => meaning.None?
            case Ok(out) => meaning.Some? && LaidOut(out, rec, schema.fields, w.fields, meaning.value)
  {
    var start := rec.cols[..|schema.fields|];
    var env := InputEnv(rec, schema.fields);
    assert Related(rt, Work(schema.fields, [], []), start, rec.rows, Some(env));
    StepsMeaning(rt, Work(schema.fields, [], []), schema.primaryKey, steps, start, rec.rows, Some(env));
  }

  // ---- which definitions compile ----

  function TypesAfter(patterns: Patterns, types: Types, step: Step): Types
    requires StepAccepted(patterns, types, [], step)
  {
    match step
    case Rename(names) => RenameKeys(types, names)
    case Drop(columns) => types - Listed(columns)
    case Compute(entries, where) => types + EntryTypes(patterns, types, entries, where.Some?)
  }

  function EntryTypes(patterns: Patterns, types: Types, entries: map<string, Expr>, guarded: bool): (r: Types)
    requires forall n :: n in entries ==> EntryAccepted(patterns, types, [], guarded, n, entries[n])
  {
    map n | n in entries ::
      (assert EntryAccepted(patterns, types, [], guarded, n, entries[n]);
       NamedType(patterns, types, entries[n]).value.valueType)
  }

  /** Every step is well formed by name over the columns the steps before it leave. */
  predicate StepsAccepted(patterns: Patterns, types: Types, pk: seq<string>, steps: seq<Step>)
    decreases |steps|
  {
    steps == [] ||
    (&& StepAccepted(patterns, types, pk, steps[0])
     && (AcceptedWithoutKey(patterns, types, pk, steps[0]);
         StepsAccepted(patterns, TypesAfter(patterns, types, steps[0]), pk, steps[1..])))
  }

  /** An empty column per field, to read layouts off the frame lemmas. */
  ghost function Blank(fields: seq<Field>): (cols: seq<Column>)
    ensures Typed(fields, cols, 0)
  {
    seq(|fields|, i requires 0 <= i < |fields| => Column(StorageOf(TypeOf(fields[i])), []))
  }

  lemma AgreeUnique(fields: seq<Field>, a: Types, b: Types)
    requires Agree(fields, a) && Agree(fields, b)
    ensures a == b
  {
    forall n | n in a ensures a[n] == b[n] {
      var i :| 0 <= i < |fields| && fields[i].name == n;
    }
  }

  lemma BlankAgrees(fields: seq<Field>, types: Types)
    requires DistinctNames(fields) && Agree(fields, types)
    ensures TypesOf(EnvOf(fields, Blank(fields))) == types
  {
    HoldsAgree(fields, Blank(fields), EnvOf(fields, Blank(fields)));
    AgreeUnique(fields, TypesOf(EnvOf(fields, Blank(fields))), types);
  }

  lemma HoldsTypes(fields: seq<Field>, cols: seq<Column>, env: Env, types: Types)
    requires Holds(fields, cols, env) && types == TypesOf(env)
    ensures DistinctNames(fields) && Agree(fields, types)
  {
    HoldsAgree(fields, cols, env);
  }

  /** An accepted step leaves distinct columns of the types it says by name. */
  lemma StepTypes(patterns: Patterns, w: Work, types: Types, pk: seq<string>, step: Step)
    requires DistinctNames(w.fields) && Agree(w.fields, types) && StepAccepted(patterns, types, pk, step)
    ensures StepAccepted(patterns, types, [], step)
    ensures DistinctNames(CompileStep(patterns, w, pk, step).fields)
    ensures Agree(CompileStep(patterns, w, pk, step).fields, TypesAfter(patterns, types, step))
  {
    AcceptedWithoutKey(patterns, types, pk, step);
    var cols := Blank(w.fields);
    var env := EnvOf(w.fields, cols);
    BlankAgrees(w.fields, types);
    match step
    case Rename(names) =>
      RenameAcceptedExactly(w, pk, names);
      RenameMeaning(w.fields, cols, env, pk, names);
      RenamedTypes(env, names);
      HoldsTypes(Relabeled(w.fields, names), cols, RenameKeys(env, names), RenameKeys(types, names));
    case Drop(columns) => DropTypes(w, types, pk, columns);
    case Compute(entries, where) => ComputeTypes(patterns, w, env, pk, entries, where);
  }

  lemma RenamedTypes(env: Env, names: map<string, string>)
    requires RenameAccepted(env.Keys, [], names)
    ensures TypesOf(env).Keys == env.Keys && RenameKeys(TypesOf(env), names) == TypesOf(RenameKeys(env, names))
  {
    var a, b := RenameKeys(TypesOf(env), names), TypesOf(RenameKeys(env, names));
    forall n | n in a ensures n in b && a[n] == b[n] {
      var k :| k in TypesOf(env) && n == NewName(names, k);
      assert RenameKeys(env, names)[NewName(names, k)] == env[k];
    }
    forall n | n in b ensures n in a {
      var k :| k in env && n == NewName(names, k);
      assert k in TypesOf(env);
    }
  }

  lemma RemovedAgrees(fields: seq<Field>, types: Types, i: nat)
    requires DistinctNames(fields) && Agree(fields, types) && i < |fields|
    ensures Agree(fields[..i] + fields[i + 1..], types - {fields[i].name})
  {
    Removed(fields, i);
    var left := fields[..i] + fields[i + 1..];
    assert forall j :: 0 <= j < |left| ==> left[j] == fields[if j < i then j else j + 1];
  }

  lemma {:induction false} DropTypes(w: Work, types: Types, pk: seq<string>, columns: seq<string>)
    requires DistinctNames(w.fields) && Agree(w.fields, types) && DropAccepted(types.Keys, pk, columns)
    ensures DistinctNames(DropStep(w, pk, columns).fields)
    ensures Agree(DropStep(w, pk, columns).fields, types - Listed(columns))
    decreases |columns|
  {
    if columns == [] {
      assert types - Listed(columns) == types;
    } else {
      var i := Index(w.fields, columns[0]);
      IndexNames(w.fields, columns[0]);
      DropRest(types.Keys, pk, columns, types);
      Removed(w.fields, i);
      RemovedAgrees(w.fields, types, i);
      DropTypes(Without(w, i), types - {columns[0]}, pk, columns[1..]);
    }
  }

  lemma ComputeTypes(patterns: Patterns, w: Work, env: Env, pk: seq<string>, entries: map<string, Expr>,
      where: Option<Expr>)
    requires DistinctNames(w.fields) && env == EnvOf(w.fields, Blank(w.fields))
    requires StepAccepted(patterns, TypesOf(env), pk, Compute(entries, where))
    requires StepAccepted(patterns, TypesOf(env), [], Compute(entries, where))
    ensures var out := ComputeStep(patterns, w, pk, entries, where).fields;
            DistinctNames(out) && Agree(out, TypesAfter(patterns, TypesOf(env), Compute(entries, where)))
  {
    HoldsAgree(w.fields, Blank(w.fields), env);
    ComputeAcceptedExactly(patterns, w, TypesOf(env), pk, entries, where);
    ChangedTypes(patterns, w.fields, env, entries, where, SortedKeys(entries.Keys));
  }

  lemma ChangedTypes(patterns: Patterns, fields: seq<Field>, env: Env, entries: map<string, Expr>, where: Option<Expr>,
      todo: seq<string>)
    requires DistinctNames(fields) && env == EnvOf(fields, Blank(fields)) && TransformCompute.Visits(entries, todo)
    requires StepAccepted(patterns, TypesOf(env), [], Compute(entries, where))
    ensures var out := ApplyChanges(fields, ChangesFor(patterns, fields, entries, todo, |todo|), 0);
            DistinctNames(out) && Agree(out, TypesAfter(patterns, TypesOf(env), Compute(entries, where)))
  {
    var cols := Blank(fields);
    var es, changes := EntriesFor(patterns, fields, entries, todo, |todo|),
                       ChangesFor(patterns, fields, entries, todo, |todo|);
    var outs := seq(|todo|, j requires 0 <= j < |todo| => Column(StorageOf(TypeOf(changes[j].field)), []));
    assert Targets(fields, todo, es, changes);
    AssignMeaning(fields, todo, es, changes, outs, 0, fields, cols, env, 0);
    ComputedTypes(patterns, fields, cols, env, entries, where, todo, outs);
    var next := Assigned(changes, outs, env, 0);
    HoldsTypes(ApplyChanges(fields, changes, 0), Assign(cols, es, outs, 0).value, next, TypesOf(next));
  }

  lemma TypesEqual(a: Types, types: Types, added: Types)
    requires forall n :: n in a <==> n in types || n in added
    requires forall n :: n in types && n !in added ==> a[n] == types[n]
    requires forall n :: n in added ==> a[n] == added[n]
    ensures a == types + added
  {}

  lemma EntryType(patterns: Patterns, fields: seq<Field>, types: Types, guarded: bool, n: string, e: Expr)
    requires Agree(fields, types) && EntryAccepted(patterns, types, [], guarded, n, e)
    ensures NamedType(patterns, types, e).value.valueType == CompiledType(patterns, fields, e)
  {
    ExprAccepted(patterns, fields, types, e);
  }

  lemma ComputedTypes(patterns: Patterns, fields: seq<Field>, cols: seq<Column>, env: Env, entries: map<string, Expr>,
      where: Option<Expr>, todo: seq<string>, outs: seq<Column>)
    requires Holds(fields, cols, env) && TransformCompute.Visits(entries, todo) && |outs| == |todo|
    requires StepAccepted(patterns, TypesOf(env), [], Compute(entries, where))
    ensures TypesOf(Assigned(ChangesFor(patterns, fields, entries, todo, |todo|), outs, env, 0)) ==
              TypesAfter(patterns, TypesOf(env), Compute(entries, where))
  {
    var es, changes := EntriesFor(patterns, fields, entries, todo, |todo|),
                       ChangesFor(patterns, fields, entries, todo, |todo|);
    var types, r := TypesOf(env), Assigned(changes, outs, env, 0);
    AssignedValues(fields, todo, es, changes, outs, env, 0);
    HoldsAgree(fields, cols, env);
    assert todo[0..] == todo;
    var added := EntryTypes(patterns, types, entries, where.Some?);
    forall n | n in added ensures n in r && r[n].typ == added[n] {
      var j := ComputedType(patterns, fields, types, entries, where, todo, n);
    }
    TypesEqual(TypesOf(r), types, added);
  }

  lemma ComputedType(patterns: Patterns, fields: seq<Field>, types: Types, entries: map<string, Expr>,
      where: Option<Expr>, todo: seq<string>, n: string)
    returns (j: nat)
    requires Agree(fields, types) && TransformCompute.Visits(entries, todo) && n in entries
    requires StepAccepted(patterns, types, [], Compute(entries, where))
    ensures j < |todo| && todo[j] == n
    ensures EntryTypes(patterns, types, entries, where.Some?)[n] == CompiledType(patterns, fields, entries[n])
  {
    j :| 0 <= j < |todo| && todo[j] == n;
    assert EntryAccepted(patterns, types, [], where.Some?, n, entries[n]);
    EntryType(patterns, fields, types, where.Some?, n, entries[n]);
  }

  /** A definition compiles without issues exactly when every step is well formed by name. */
  lemma {:induction false} CompilesExactly(patterns: Patterns, w: Work, types: Types, pk: seq<string>, steps: seq<Step>)
    requires DistinctNames(w.fields) && Agree(w.fields, types)
    ensures CompileSteps(patterns, w, pk, steps).issues == w.issues <==> StepsAccepted(patterns, types, pk, steps)
    decreases |steps|
  {
    if steps != [] {
      var next := CompileStep(patterns, w, pk, steps[0]);
      StepAcceptedExactly(patterns, w, types, pk, steps[0]);
      StepIssuesGrow(patterns, w, pk, steps[0]);
      StepsIssuesGrow(patterns, next, pk, steps[1..]);
      if StepAccepted(patterns, types, pk, steps[0]) {
        StepTypes(patterns, w, types, pk, steps[0]);
        CompilesExactly(patterns, next, TypesAfter(patterns, types, steps[0]), pk, steps[1..]);
      }
    }
  }

  // ---- primary keys and the reserved namespace ----

  /** The fields of an accepted step's result: new names are never reserved, and key columns stay as they were. */
  lemma StepKeeps(rt: Runtime, env: Env, rows: nat, pk: seq<string>, step: Step)
    requires StepAccepted(rt.patterns, TypesOf(env), pk, step) && StepAccepted(rt.patterns, TypesOf(env), [], step)
    requires NamedStep(rt, env, rows, step).Some?
    ensures var next := NamedStep(rt, env, rows, step).value;
            && (forall k :: k in pk && k in env ==> k in next && next[k] == env[k])
            && (forall n :: n in next && IsReserved(n) ==> n in env)
  {
    match step
    case Rename(names) => assert forall k :: k in pk ==> NewName(names, k) == k;
    case Drop(columns) =>
    case Compute(entries, where) =>
      assert forall n :: n in entries ==> EntryAccepted(rt.patterns, TypesOf(env), pk, where.Some?, n, entries[n]);
  }

  lemma {:induction false} StepsKeep(rt: Runtime, w: Work, env: Env, rows: nat, pk: seq<string>, steps: seq<Step>)
    requires DistinctNames(w.fields) && Agree(w.fields, TypesOf(env))
    requires CompileSteps(rt.patterns, w, pk, steps).issues == w.issues && NamedSteps(rt, env, rows, steps).Some?
    ensures var out := NamedSteps(rt, env, rows, steps).value;
            && (forall k :: k in pk && k in env ==> k in out && out[k] == env[k])
            && (forall n :: n in out && IsReserved(n) ==> n in env)
    decreases |steps|
  {
    if steps != [] {
      var step, next := steps[0], CompileStep(rt.patterns, w, pk, steps[0]);
      StepIssuesGrow(rt.patterns, w, pk, step);
      StepsIssuesGrow(rt.patterns, next, pk, steps[1..]);
      StepAcceptedExactly(rt.patterns, w, TypesOf(env), pk, step);
      StepTypes(rt.patterns, w, TypesOf(env), pk, step);
      StepKeeps(rt, env, rows, pk, step);
      NextTypes(rt, env, rows, step);
      StepsKeep(rt, next, NamedStep(rt, env, rows, step).value, rows, pk, steps[1..]);
    }
  }

  lemma NextTypes(rt: Runtime, env: Env, rows: nat, step: Step)
    requires StepAccepted(rt.patterns, TypesOf(env), [], step) && NamedStep(rt, env, rows, step).Some?
    ensures TypesOf(NamedStep(rt, env, rows, step).value) == TypesAfter(rt.patterns, TypesOf(env), step)
  {
    match step
    case Rename(names) => RenamedTypes(env, names);
    case Drop(columns) => assert TypesOf(env - Listed(columns)) == TypesOf(env) - Listed(columns);
    case Compute(entries, where) => NextComputeTypes(rt, env, rows, entries, where);
  }

  lemma NextComputeTypes(rt: Runtime, env: Env, rows: nat, entries: map<string, Expr>, where: Option<Expr>)
    requires StepAccepted(rt.patterns, TypesOf(env), [], Compute(entries, where))
    requires NamedCompute(rt, env, rows, entries, where).Some?
    ensures TypesOf(NamedCompute(rt, env, rows, entries, where).value) ==
              TypesOf(env) + EntryTypes(rt.patterns, TypesOf(env), entries, where.Some?)
  {
    var types := TypesOf(env);
    var added := EntryTypes(rt.patterns, types, entries, where.Some?);
    if entries != map[] {
      var mask := NamedMask(rt, env, rows, where).value;
      var values := map n | n in entries :: NamedValue(rt, env, rows, mask, n, entries[n]);
      AssignAllTypes(env, values);
      var r := AssignAll(env, values).value;
      forall n | n in added ensures r[n].typ == added[n] { NamedValueType(rt, env, rows, mask, entries, where, n); }
      TypesEqual(TypesOf(r), types, added);
    }
  }

  lemma NamedValueType(rt: Runtime, env: Env, rows: nat, mask: Option<Column>, entries: map<string, Expr>,
      where: Option<Expr>, n: string)
    requires StepAccepted(rt.patterns, TypesOf(env), [], Compute(entries, where)) && n in entries
    requires NamedValue(rt, env, rows, mask, n, entries[n]).Some?
    ensures NamedValue(rt, env, rows, mask, n, entries[n]).value.typ ==
              EntryTypes(rt.patterns, TypesOf(env), entries, where.Some?)[n]
  {
    assert EntryAccepted(rt.patterns, TypesOf(env), [], where.Some?, n, entries[n]);
  }

  lemma AssignAllTypes(env: Env, values: map<string, Option<Named>>)
    requires AssignAll(env, values).Some?
    ensures var r := AssignAll(env, values).value;
            && (forall n :: n in values ==> values[n].Some? && n in r && r[n] == values[n].value)
            && (forall n :: n in r <==> n in env || n in values)
            && (forall n :: n in env && n !in values ==> r[n] == env[n])
  {
    forall n | n in values ensures values[n].Some? { assert values[n] in values.Values; }
  }

  /** Every primary key column reaches the output under its name, with its type and its data. */
  lemma PrimaryKeySurvives(rt: Runtime, schema: Schema, steps: seq<Step>, rec: Record, k: string)
    requires KernelsTyped(rt, rec.rows) && DistinctNames(schema.fields) && BuiltFrom(rec, schema.fields)
    requires Compile(rt.patterns, schema, steps).issues == []
    requires k in schema.primaryKey && k in Names(schema.fields)
    ensures var w := Compile(rt.patterns, schema, steps);
            match ApplyPlan(rt, PlanFor(schema, w), rec)
            case Ok(out) =>
              var i, j := Index(schema.fields, k), Index(w.fields, k);
              && i >= 0 && 0 <= j < |out.cols| && out.fields[j].name == k && out.cols[j] == rec.cols[i]
              && TypeOf(w.fields[j]) == TypeOf(schema.fields[i])
            case _ => true
  {
    var w := Compile(rt.patterns, schema, steps);
    if ApplyPlan(rt, PlanFor(schema, w), rec).Ok? {
      KeyHeld(rt, schema, steps, rec, k);
      HeldAt(schema.fields, rec.cols[..|schema.fields|], InputEnv(rec, schema.fields), k);
    }
  }

  lemma KeyHeld(rt: Runtime, schema: Schema, steps: seq<Step>, rec: Record, k: string)
    requires KernelsTyped(rt, rec.rows) && DistinctNames(schema.fields) && BuiltFrom(rec, schema.fields)
    requires Compile(rt.patterns, schema, steps).issues == [] && k in schema.primaryKey && k in Names(schema.fields)
    requires ApplyOps(rt, Compile(rt.patterns, schema, steps).ops, rec.cols[..|schema.fields|], rec.rows).Ok?
    ensures var w, env := Compile(rt.patterns, schema, steps), InputEnv(rec, schema.fields);
            var cols := ApplyOps(rt, w.ops, rec.cols[..|schema.fields|], rec.rows).value;
            var j := Index(w.fields, k);
            && k in env && 0 <= j < |w.fields| == |cols| && w.fields[j].name == k
            && env[k] == Named(TypeOf(w.fields[j]), cols[j])
  {
    var w, env := Compile(rt.patterns, schema, steps), InputEnv(rec, schema.fields);
    var start := rec.cols[..|schema.fields|];
    HoldsAgree(schema.fields, start, env);
    assert Related(rt, Work(schema.fields, [], []), start, rec.rows, Some(env));
    StepsMeaning(rt, Work(schema.fields, [], []), schema.primaryKey, steps, start, rec.rows, Some(env));
    StepsKeep(rt, Work(schema.fields, [], []), env, rec.rows, schema.primaryKey, steps);
    HeldAt(w.fields, ApplyOps(rt, w.ops, start, rec.rows).value, NamedSteps(rt, env, rec.rows, steps).value, k);
  }

  /** A name held by a layout is at its index, with its type and column. */
  lemma HeldAt(fields: seq<Field>, cols: seq<Column>, env: Env, k: string)
    requires Holds(fields, cols, env) && k in env
    ensures var i := Index(fields, k);
            0 <= i < |fields| == |cols| && fields[i].name == k && env[k] == Named(TypeOf(fields[i]), cols[i])
  {
    IndexNames(fields, k);
  }
}
