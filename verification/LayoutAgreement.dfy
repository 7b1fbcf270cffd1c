/** The table layout sent to a sink and the layout of the batches written to it, derived along two different routes. */
module LayoutAgreement {
  import opened RowModel
  import opened TransformCatalog
  import opened TransformCompile
  import opened TransformExec
  import opened TransformMeaning
  import opened Order
  import opened TransformCorrect
  import opened TransformCompute
  import opened TransformTheorem

  const AUDIT_RUN_ID := "_filament_run_id"
  const AUDIT_RUN_STARTED_AT := "_filament_run_started_at"
  const AUDIT_OPERATION := "_filament_operation"
  const AUDIT_SOURCE_POSITION := "_filament_source_position"
  const AUDIT_SEQUENCE := "_filament_sequence"

  function AuditField(name: string, logical: Logical): Field { Field(name, true, logical, "", 0, 0) }

  function AuditFields(cdc: bool): seq<Field> {
    [AuditField(AUDIT_RUN_ID, String), AuditField(AUDIT_RUN_STARTED_AT, TimestampTZ)]
    + if cdc then [AuditField(AUDIT_OPERATION, String), AuditField(AUDIT_SOURCE_POSITION, String),
                   AuditField(AUDIT_SEQUENCE, Int64)] else []
  }

  /** The columns the SDK may add to a source's own. */
  const ENVELOPE_FIELDS := [
    AuditField("_filament_event_id", String), AuditField("_filament_event_identity", Bytes),
      AuditField("_filament_event_ts", String),
    AuditField("_filament_headers", Bytes), AuditField("_filament_key", Bytes), AuditField("_filament_payload", Bytes)]

  function Suffix(s: Schema): seq<Field> {
    if s.projectedEnvelope then ENVELOPE_FIELDS[..5] else if s.envelope then ENVELOPE_FIELDS else []
  }

  /** ValidateReservedFields: only the declared suffix may use reserved names. */
  predicate ReservedOk(s: Schema) {
    var n := |s.fields| - |Suffix(s)|;
    n >= 0 && s.fields[n..] == Suffix(s) && forall i :: 0 <= i < n ==> !IsReserved(s.fields[i].name)
  }

  function WithAuditFields(s: Schema, cdc: bool): Option<Schema> {
    if ReservedOk(s) then Some(s.(fields := s.fields + AuditFields(cdc))) else None
  }

  function AllNullable(fields: seq<Field>): (r: seq<Field>)
    ensures |r| == |fields|
  {
    seq(|fields|, i requires 0 <= i < |fields| => fields[i].(nullable := true))
  }

  function AsCDCAppendHistory(s: Schema): Schema { s.(primaryKey := [], fields := AllNullable(s.fields)) }

  /** auditSchema. */
  function AuditSchema(s: Schema, cdc: bool, history: bool): Option<Schema> {
    WithAuditFields(if history then AsCDCAppendHistory(s) else s, cdc)
  }

  /** ensureSchema: compile against the source layout, then shape. */
  function TableLayout(patterns: Patterns, s: Schema, steps: seq<Step>, cdc: bool, history: bool): Option<Schema> {
    var w := Compile(patterns, s, steps);
    if w.issues != [] then None else AuditSchema(s.(fields := w.fields), cdc, history)
  }

  /** inlet.Builder: shape the source layout; the plan is compiled against the unshaped one and applied to such
      batches. */
  ghost predicate BuiltBatch(rec: Record, s: Schema, cdc: bool, history: bool) {
    && AuditSchema(s, cdc, history).Some? && |rec.cols| == |rec.fields|
    && rec.fields == ArrowSchema(AuditSchema(s, cdc, history).value.fields)
    && |s.fields| <= |rec.cols| && Typed(s.fields, rec.cols[..|s.fields|], rec.rows)
  }

  // ---- reserved names survive no transform ----

  ghost predicate NoReserved(names: set<string>) { forall n :: n in names ==> !IsReserved(n) }

  lemma StepReserved(patterns: Patterns, types: Types, pk: seq<string>, step: Step)
    requires StepAccepted(patterns, types, pk, step) && StepAccepted(patterns, types, [], step)
    requires NoReserved(types.Keys)
    ensures NoReserved(TypesAfter(patterns, types, step).Keys)
  {
    match step
    case Rename(names) =>
    case Drop(_) =>
    case Compute(entries, where) =>
      assert forall n :: n in entries ==> EntryAccepted(patterns, types, [], where.Some?, n, entries[n]);
  }

  /** A definition that compiles over unreserved distinct names leaves unreserved distinct names. */
  lemma {:induction false} StepsReserved(patterns: Patterns, w: Work, types: Types, pk: seq<string>, steps: seq<Step>)
    requires DistinctNames(w.fields) && Agree(w.fields, types) && NoReserved(types.Keys)
    requires CompileSteps(patterns, w, pk, steps).issues == w.issues
    ensures NoReserved(Names(CompileSteps(patterns, w, pk, steps).fields))
    decreases |steps|
  {
    if steps == [] {
      forall n | n in Names(w.fields) ensures !IsReserved(n) { assert n in types; }
    } else {
      var step, next := steps[0], CompileStep(patterns, w, pk, steps[0]);
      StepIssuesGrow(patterns, w, pk, step);
      StepsIssuesGrow(patterns, next, pk, steps[1..]);
      StepAcceptedExactly(patterns, w, types, pk, step);
      StepTypes(patterns, w, types, pk, step);
      StepReserved(patterns, types, pk, step);
      StepsReserved(patterns, next, TypesAfter(patterns, types, step), pk, steps[1..]);
    }
  }

  // ---- columns that may not be null ----

  function Required(fields: seq<Field>): set<string> {
    set i | 0 <= i < |fields| && !fields[i].nullable :: fields[i].name
  }

  /** The names a step leaves of columns that may not be null: a computed column may always be null. */
  function RequiredAfter(required: set<string>, step: Step): set<string> {
    match step
    case Rename(names) => set n | n in required :: NewName(names, n)
    case Drop(columns) => required - Listed(columns)
    case Compute(entries, _) => required - entries.Keys
  }

  /** Those left after all steps: neither dropped nor computed over, under their last names. */
  function RequiredLeft(required: set<string>, steps: seq<Step>): set<string>
    decreases |steps|
  {
    if steps == [] then required else RequiredLeft(RequiredAfter(required, steps[0]), steps[1..])
  }

  lemma RenameRequired(fields: seq<Field>, names: map<string, string>)
    requires DistinctNames(fields)
    ensures Required(Relabeled(fields, names)) == RequiredAfter(Required(fields), Rename(names))
  {
    var out := Relabeled(fields, names);
    forall i | 0 <= i < |fields| ensures out[i] == fields[i].(name := NewName(names, fields[i].name)) {
      RelabeledName(fields, names, i);
    }
    forall n | n in Required(out) ensures n in RequiredAfter(Required(fields), Rename(names)) {
      var i :| 0 <= i < |out| && !out[i].nullable && out[i].name == n;
      assert fields[i].name in Required(fields);
    }
    forall n | n in Required(fields) ensures NewName(names, n) in Required(out) {
      var i :| 0 <= i < |fields| && !fields[i].nullable && fields[i].name == n;
      assert out[i].name == NewName(names, n);
    }
  }

  lemma RemovedRequired(fields: seq<Field>, i: nat)
    requires DistinctNames(fields) && i < |fields|
    ensures Required(fields[..i] + fields[i + 1..]) == Required(fields) - {fields[i].name}
  {
    var left := fields[..i] + fields[i + 1..];
    forall j | 0 <= j < |left| ensures left[j] == fields[if j < i then j else j + 1] {}
    forall j | 0 <= j < |fields| && j != i ensures left[if j < i then j else j - 1] == fields[j] {}
  }

  lemma {:induction false} DropRequired(w: Work, pk: seq<string>, columns: seq<string>)
    requires DistinctNames(w.fields) && DropAccepted(Names(w.fields), pk, columns)
    ensures Required(DropStep(w, pk, columns).fields) == Required(w.fields) - Listed(columns)
    decreases |columns|
  {
    if columns != [] {
      var i := Index(w.fields, columns[0]);
      IndexNames(w.fields, columns[0]);
      DropAcceptedFirst(Names(w.fields), pk, columns);
      Removed(w.fields, i);
      RemovedRequired(w.fields, i);
      DropRequired(w.(fields := w.fields[..i] + w.fields[i + 1..], ops := w.ops + [DropOp(i)]), pk, columns[1..]);
      assert Listed(columns) == {columns[0]} + Listed(columns[1..]);
    }
  }

  /** The layout midway through a compute step: columns in place under their names, appended ones nullable. */
  ghost predicate Widening(fields: seq<Field>, cur: seq<Field>) {
    && |cur| >= |fields| && (forall i :: 0 <= i < |fields| ==> cur[i].name == fields[i].name)
    && (forall i :: |fields| <= i < |cur| ==> cur[i].nullable)
  }

  lemma ReplacedRequired(fields: seq<Field>, cur: seq<Field>, i: nat, f: Field)
    requires DistinctNames(fields) && Widening(fields, cur) && i < |fields| && f.nullable && f.name == fields[i].name
    ensures Widening(fields, cur[i := f]) && Required(cur[i := f]) == Required(cur) - {f.name}
  {
    var out := cur[i := f];
    forall n | n in Required(cur) - {f.name} ensures n in Required(out) {
      var j :| 0 <= j < |cur| && !cur[j].nullable && cur[j].name == n;
      assert out[j] == cur[j];
    }
  }

  lemma AppendedRequired(fields: seq<Field>, cur: seq<Field>, f: Field)
    requires Widening(fields, cur) && f.nullable && f.name !in Names(fields)
    ensures Widening(fields, cur + [f]) && Required(cur + [f]) == Required(cur) - {f.name}
  {
    forall j | 0 <= j < |cur| ensures (cur + [f])[j] == cur[j] {}
  }

  lemma {:induction false} ChangesRequired(fields: seq<Field>, todo: seq<string>, changes: seq<Change>,
      cur: seq<Field>, k: nat)
    requires DistinctNames(fields) && Widening(fields, cur) && k <= |todo| == |changes|
    requires forall c :: c in changes ==> c.idx < |fields|
    requires forall j :: 0 <= j < |todo| ==>
               changes[j].idx == Index(fields, todo[j]) && changes[j].field.name == todo[j] && changes[j].field.nullable
    ensures Required(ApplyChanges(cur, changes, k)) == Required(cur) - Listed(todo[k..])
    decreases |todo| - k
  {
    if k < |todo| {
      var i, f := changes[k].idx, changes[k].field;
      IndexNames(fields, todo[k]);
      if i < 0 {
        AppendedRequired(fields, cur, f);
        ChangesRequired(fields, todo, changes, cur + [f], k + 1);
      } else {
        ReplacedRequired(fields, cur, i, f);
        ChangesRequired(fields, todo, changes, cur[i := f], k + 1);
      }
      assert Listed(todo[k..]) == {todo[k]} + Listed(todo[k + 1..]) by {
        assert todo[k..] == [todo[k]] + todo[k + 1..];
      }
    }
  }

  lemma ComputeRequired(patterns: Patterns, w: Work, types: Types, pk: seq<string>, entries: map<string, Expr>,
      where: Option<Expr>)
    requires DistinctNames(w.fields) && Agree(w.fields, types)
    requires StepAccepted(patterns, types, pk, Compute(entries, where))
    ensures Required(ComputeStep(patterns, w, pk, entries, where).fields) == Required(w.fields) - entries.Keys
  {
    ComputeAcceptedExactly(patterns, w, types, pk, entries, where);
    var todo := SortedKeys(entries.Keys);
    assert Listed(todo) == entries.Keys;
    if todo != [] {
      var changes := ChangesFor(patterns, w.fields, entries, todo, |todo|);
      ChangesRequired(w.fields, todo, changes, w.fields, 0);
      assert todo[0..] == todo;
    }
  }

  lemma StepRequired(patterns: Patterns, w: Work, types: Types, pk: seq<string>, step: Step)
    requires DistinctNames(w.fields) && Agree(w.fields, types) && StepAccepted(patterns, types, pk, step)
    ensures Required(CompileStep(patterns, w, pk, step).fields) == RequiredAfter(Required(w.fields), step)
  {
    match step
    case Rename(names) =>
      RenameAcceptedExactly(w, pk, names);
      RenameRequired(w.fields, names);
    case Drop(columns) => DropRequired(w, pk, columns);
    case Compute(entries, where) => ComputeRequired(patterns, w, types, pk, entries, where);
  }

  lemma {:induction false} StepsRequired(patterns: Patterns, w: Work, types: Types, pk: seq<string>, steps: seq<Step>)
    requires DistinctNames(w.fields) && Agree(w.fields, types)
    requires CompileSteps(patterns, w, pk, steps).issues == w.issues
    ensures Required(CompileSteps(patterns, w, pk, steps).fields) == RequiredLeft(Required(w.fields), steps)
    decreases |steps|
  {
    if steps != [] {
      var step, next := steps[0], CompileStep(patterns, w, pk, steps[0]);
      StepIssuesGrow(patterns, w, pk, step);
      StepsIssuesGrow(patterns, next, pk, steps[1..]);
      StepAcceptedExactly(patterns, w, types, pk, step);
      StepTypes(patterns, w, types, pk, step);
      StepRequired(patterns, w, types, pk, step);
      StepsRequired(patterns, next, TypesAfter(patterns, types, step), pk, steps[1..]);
    }
  }

  /** What a compiled definition leaves that may not be null, read off the source columns and the steps alone. */
  lemma CompiledRequired(patterns: Patterns, s: Schema, steps: seq<Step>)
    requires DistinctNames(s.fields) && Compile(patterns, s, steps).issues == []
    ensures Required(Compile(patterns, s, steps).fields) == RequiredLeft(Required(s.fields), steps)
  {
    StepsRequired(patterns, Work(s.fields, [], []), FieldTypes(s.fields), s.primaryKey, steps);
  }

  // ---- agreement ----

  /** The types of distinct fields, by name. */
  ghost function FieldTypes(fields: seq<Field>): (types: Types)
    requires DistinctNames(fields)
    ensures Agree(fields, types)
  {
    HoldsAgree(fields, Blank(fields), EnvOf(fields, Blank(fields)));
    TypesOf(EnvOf(fields, Blank(fields)))
  }

  lemma CompiledUnreserved(patterns: Patterns, s: Schema, steps: seq<Step>)
    requires DistinctNames(s.fields) && NoReserved(Names(s.fields)) && Compile(patterns, s, steps).issues == []
    ensures NoReserved(Names(Compile(patterns, s, steps).fields))
  {
    var types := FieldTypes(s.fields);
    forall n | n in types ensures !IsReserved(n) { assert n in Names(s.fields); }
    StepsReserved(patterns, Work(s.fields, [], []), types, s.primaryKey, steps);
  }

  lemma ShapedFields(s: Schema, cdc: bool, history: bool)
    requires !s.envelope && !s.projectedEnvelope
    ensures AuditSchema(s, cdc, history).Some? <==> NoReserved(Names(s.fields))
    ensures AuditSchema(s, cdc, history).Some? ==>
              AuditSchema(s, cdc, history).value.fields ==
                (if history then AllNullable(s.fields) else s.fields) + AuditFields(cdc)
  {
    var shaped := if history then AsCDCAppendHistory(s) else s;
    assert forall i :: 0 <= i < |s.fields| ==> shaped.fields[i].name == s.fields[i].name;
    assert forall i :: 0 <= i < |s.fields| ==> s.fields[i].name in Names(s.fields);
    assert shaped.fields[|shaped.fields|..] == [];
  }

  /** Whenever a builder accepts a source layout, the table layout exists too. */
  lemma TableExists(patterns: Patterns, s: Schema, steps: seq<Step>, cdc: bool, history: bool)
    requires DistinctNames(s.fields) && !s.envelope && !s.projectedEnvelope && AuditSchema(s, cdc, history).Some?
    requires Compile(patterns, s, steps).issues == []
    ensures TableLayout(patterns, s, steps, cdc, history).Some?
  {
    ShapedFields(s, cdc, history);
    CompiledUnreserved(patterns, s, steps);
    ShapedFields(s.(fields := Compile(patterns, s, steps).fields), cdc, history);
  }

  predicate SameColumn(a: ArrowField, b: ArrowField) { a.name == b.name && a.typ == b.typ }

  lemma BatchBuilt(rec: Record, s: Schema, cdc: bool, history: bool)
    requires !s.envelope && !s.projectedEnvelope && BuiltBatch(rec, s, cdc, history)
    ensures BuiltFrom(rec, s.fields) && |rec.fields| == |s.fields| + |AuditFields(cdc)|
    ensures rec.fields[|s.fields|..] == ArrowSchema(AuditFields(cdc))
  {
    ShapedFields(s, cdc, history);
    var fields := AuditSchema(s, cdc, history).value.fields;
    assert forall i :: 0 <= i < |s.fields| ==> fields[i].name == s.fields[i].name;
    assert forall i :: 0 <= i < |AuditFields(cdc)| ==> fields[|s.fields| + i] == AuditFields(cdc)[i];
  }

  lemma TableFields(patterns: Patterns, s: Schema, steps: seq<Step>, cdc: bool, history: bool)
    requires DistinctNames(s.fields) && !s.envelope && !s.projectedEnvelope
    requires TableLayout(patterns, s, steps, cdc, history).Some?
    ensures var output := Compile(patterns, s, steps).fields;
            TableLayout(patterns, s, steps, cdc, history).value.fields ==
              (if history then AllNullable(output) else output) + AuditFields(cdc)
  {
    ShapedFields(s.(fields := Compile(patterns, s, steps).fields), cdc, history);
  }

  /**
    Every batch the pipeline builds is accepted by the plan, and what the plan writes has the table's columns: the same
    number, and at each position the same name and type. Nullability agrees as well, except in a table of change
    history, where it agrees exactly when every source column that may not be null is dropped or computed over.
   */
  lemma LayoutsAgree(rt: Runtime, s: Schema, steps: seq<Step>, cdc: bool, history: bool, rec: Record)
    requires KernelsTyped(rt, rec.rows) && DistinctNames(s.fields) && !s.envelope && !s.projectedEnvelope
    requires Compile(rt.patterns, s, steps).issues == [] && BuiltBatch(rec, s, cdc, history)
    ensures InputMatches(PlanFor(s, Compile(rt.patterns, s, steps)), rec)
    ensures var plan, table := PlanFor(s, Compile(rt.patterns, s, steps)),
              TableLayout(rt.patterns, s, steps, cdc, history);
            table.Some? &&
            match ApplyPlan(rt, plan, rec)
            case Panic => false
            case Err => true
            case Ok(out) =>
              var want := ArrowSchema(table.value.fields);
              && |out.fields| == |want| && (forall i :: 0 <= i < |want| ==> SameColumn(out.fields[i], want[i]))
              && (out.fields == want <==> !history || RequiredLeft(Required(s.fields), steps) == {})
  {
    var w := Compile(rt.patterns, s, steps);
    TableExists(rt.patterns, s, steps, cdc, history);
    TableFields(rt.patterns, s, steps, cdc, history);
    BatchBuilt(rec, s, cdc, history);
    PlanMeaning(rt, s, steps, rec);
    var r := ApplyPlan(rt, PlanFor(s, w), rec);
    if r.Ok? {
      assert r.value.fields == ArrowSchema(w.fields) + ArrowSchema(AuditFields(cdc));
      ShapedArrow(w.fields, cdc, history);
      CompiledRequired(rt.patterns, s, steps);
      NoneRequired(w.fields);
    }
  }

  lemma NoneRequired(fields: seq<Field>)
    ensures Required(fields) == {} <==> forall i :: 0 <= i < |fields| ==> fields[i].nullable
  {
    forall i | 0 <= i < |fields| && !fields[i].nullable ensures fields[i].name in Required(fields) {}
  }

  /** One column that may not be null and no steps: the table of its change history lets it be null, the batches written
      to that table do not. */
  lemma HistoryDiffers(rt: Runtime) returns (s: Schema, rec: Record)
    ensures DistinctNames(s.fields) && !s.envelope && !s.projectedEnvelope && BuiltBatch(rec, s, true, true)
    ensures Compile(rt.patterns, s, []).issues == [] && TableLayout(rt.patterns, s, [], true, true).Some?
    ensures var r := ApplyPlan(rt, PlanFor(s, Compile(rt.patterns, s, [])), rec);
            r.Ok? && r.value.fields != ArrowSchema(TableLayout(rt.patterns, s, [], true, true).value.fields)
  {
    s := Schema("orders", "", [Field("id", false, Int64, "", 0, 0)], [], "", false, false);
    assert !IsReserved("id") by { assert Lower("id")[0] == 'i'; }
    ShapedFields(s, true, true);
    assert NoReserved(Names(s.fields));
    var fields := AuditSchema(s, true, true).value.fields;
    rec := Record(ArrowSchema(fields), Blank(fields), 0);
    assert rec.cols[..1] == Blank(s.fields);
    var r := ApplyPlan(rt, PlanFor(s, Compile(rt.patterns, s, [])), rec);
    assert r.Ok? && r.value.fields[0] == ArrowFieldOf(s.fields[0]);
    TableFields(rt.patterns, s, [], true, true);
  }

  /** Shaping before or after taking Arrow fields gives the same columns. */
  lemma ShapedArrow(output: seq<Field>, cdc: bool, history: bool)
    ensures var written := ArrowSchema(output) + ArrowSchema(AuditFields(cdc));
            var want := ArrowSchema((if history then AllNullable(output) else output) + AuditFields(cdc));
            && |written| == |want| && (forall i :: 0 <= i < |want| ==> SameColumn(written[i], want[i]))
            && (written == want <==> !history || forall i :: 0 <= i < |output| ==> output[i].nullable)
  {
    var written := ArrowSchema(output) + ArrowSchema(AuditFields(cdc));
    var want := ArrowSchema((if history then AllNullable(output) else output) + AuditFields(cdc));
    forall i | 0 <= i < |want|
      ensures SameColumn(written[i], want[i])
      ensures written[i] == want[i] <==> (!history || i >= |output| || output[i].nullable)
    {
      if i < |output| { assert want[i] == ArrowFieldOf(if history then output[i].(nullable := true) else output[i]); }
    }
    if history && !forall i :: 0 <= i < |output| ==> output[i].nullable {
      var i :| 0 <= i < |output| && !output[i].nullable;
      assert written[i] != want[i];
    }
  }
}
