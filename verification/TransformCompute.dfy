/** The compute step: entries compiled against the layout before the step, assigned together. */
module TransformCompute {
  import opened RowModel
  import opened Order
  import opened TransformCatalog
  import opened TransformLiterals
  import opened TransformCompile
  import opened TransformExec
  import opened TransformMeaning
  import opened TransformCorrect

  // ---- what the scan collects ----

  function CompiledType(patterns: Patterns, fields: seq<Field>, e: Expr): ValueType {
    match CompileExpr(patterns, fields, e)
    case Compiled(_, t) => t.valueType
    case Refused(_) => ValueType(Unknown, 0, 0)
  }

  function EntryFor(patterns: Patterns, fields: seq<Field>, n: string, e: Expr): Entry {
    Entry(Index(fields, n),
          match CompileExpr(patterns, fields, e) case Compiled(node, _) => node case Refused(_) => ColNode(-1))
  }

  function ChangeFor(patterns: Patterns, fields: seq<Field>, n: string, e: Expr): (c: Change)
    ensures c.idx < |fields|
  {
    Change(Index(fields, n), ComputedField(n, CompiledType(patterns, fields, e)))
  }

  ghost predicate Visits(entries: map<string, Expr>, todo: seq<string>) {
    && (forall n :: n in todo <==> n in entries)
    && (forall i, j :: 0 <= i < j < |todo| ==> todo[i] != todo[j])
  }

  ghost function EntriesFor(patterns: Patterns, fields: seq<Field>, entries: map<string, Expr>, todo: seq<string>,
      k: nat): (s: seq<Entry>)
    requires Visits(entries, todo) && k <= |todo|
    ensures |s| == k
  {
    seq(k, j requires 0 <= j < k => EntryFor(patterns, fields, todo[j], entries[todo[j]]))
  }

  ghost function ChangesFor(patterns: Patterns, fields: seq<Field>, entries: map<string, Expr>, todo: seq<string>,
      k: nat): (s: seq<Change>)
    requires Visits(entries, todo) && k <= |todo|
    ensures |s| == k && forall c :: c in s ==> c.idx < |fields|
  {
    seq(k, j requires 0 <= j < k => ChangeFor(patterns, fields, todo[j], entries[todo[j]]))
  }

  lemma CollectedNext(patterns: Patterns, fields: seq<Field>, entries: map<string, Expr>, todo: seq<string>, k: nat)
    requires Visits(entries, todo) && k < |todo|
    ensures EntriesFor(patterns, fields, entries, todo, k + 1) ==
              EntriesFor(patterns, fields, entries, todo, k) + [EntryFor(patterns, fields, todo[k], entries[todo[k]])]
    ensures ChangesFor(patterns, fields, entries, todo, k + 1) ==
              ChangesFor(patterns, fields, entries, todo, k) + [ChangeFor(patterns, fields, todo[k], entries[todo[k]])]
  {}

  lemma ComputeEntryAccepts(patterns: Patterns, fields: seq<Field>, types: Types, pk: seq<string>,
      entries: map<string, Expr>, guarded: bool, n: string, p: Pending)
    requires Agree(fields, types) && n in entries
    ensures var next := ComputeEntry(patterns, fields, pk, entries, guarded, n, p);
            && (next.issues == p.issues <==> EntryAccepted(patterns, types, pk, guarded, n, entries[n]))
            && (next.issues != p.issues ==> |next.issues| > |p.issues|)
            && (next.issues == p.issues ==>
                  && next.entries == p.entries + [EntryFor(patterns, fields, n, entries[n])]
                  && next.changes == p.changes + [ChangeFor(patterns, fields, n, entries[n])])
  {
    ExprAccepted(patterns, fields, types, entries[n]);
    IndexNames(fields, n);
  }

  /** The scan raises no issue exactly when every entry is accepted by name, and then collects them all in order. */
  lemma {:induction false} ComputeScanAccepts(patterns: Patterns, fields: seq<Field>, types: Types, pk: seq<string>,
      entries: map<string, Expr>, guarded: bool, todo: seq<string>, k: nat, p: Pending)
    requires Agree(fields, types) && Visits(entries, todo) && k <= |todo|
    requires p.entries == EntriesFor(patterns, fields, entries, todo, k)
    requires p.changes == ChangesFor(patterns, fields, entries, todo, k)
    ensures var out := ComputeScan(patterns, fields, pk, entries, guarded, todo, k, p);
            && (out.issues == p.issues <==>
                  forall j :: k <= j < |todo| ==>
                    EntryAccepted(patterns, types, pk, guarded, todo[j], entries[todo[j]]))
            && (out.issues == p.issues ==>
                  && out.entries == EntriesFor(patterns, fields, entries, todo, |todo|)
                  && out.changes == ChangesFor(patterns, fields, entries, todo, |todo|))
    decreases |todo| - k
  {
    if k < |todo| {
      var next := ComputeEntry(patterns, fields, pk, entries, guarded, todo[k], p);
      ComputeEntryAccepts(patterns, fields, types, pk, entries, guarded, todo[k], p);
      if next.issues == p.issues {
        CollectedNext(patterns, fields, entries, todo, k);
        ComputeScanAccepts(patterns, fields, types, pk, entries, guarded, todo, k + 1, next);
      } else {
        ComputeIssuesGrow(patterns, fields, pk, entries, guarded, todo, k + 1, next);
      }
    }
  }

  lemma WhereAccepted(patterns: Patterns, fields: seq<Field>, types: Types, where: Option<Expr>)
    requires Agree(fields, types)
    ensures CompileWhere(patterns, fields, where).1 == [] <==> ConditionAccepted(patterns, types, where)
  {
    if where.Some? { ExprAccepted(patterns, fields, types, where.value); }
  }

  lemma ComputeAcceptedExactly(patterns: Patterns, w: Work, types: Types, pk: seq<string>, entries: map<string, Expr>,
      where: Option<Expr>)
    requires Agree(w.fields, types)
    ensures ComputeStep(patterns, w, pk, entries, where).issues == w.issues <==>
              StepAccepted(patterns, types, pk, Compute(entries, where))
    ensures StepAccepted(patterns, types, pk, Compute(entries, where)) ==>
              var todo := SortedKeys(entries.Keys);
              Visits(entries, todo) &&
              ComputeStep(patterns, w, pk, entries, where) ==
                if todo == [] then w else
                  Work(ApplyChanges(w.fields, ChangesFor(patterns, w.fields, entries, todo, |todo|), 0),
                       w.ops + [ComputeOp(CompileWhere(patterns, w.fields, where).0,
                                          EntriesFor(patterns, w.fields, entries, todo, |todo|))],
                       w.issues)
  {
    var todo := SortedKeys(entries.Keys);
    SortedDistinct(todo);
    assert Visits(entries, todo);
    WhereAccepted(patterns, w.fields, types, where);
    ComputeScanAccepts(patterns, w.fields, types, pk, entries, where.Some?, todo, 0, Pending([], [], w.issues));
    VisitsAll(patterns, types, pk, entries, where.Some?, todo);
  }

  lemma VisitsAll(patterns: Patterns, types: Types, pk: seq<string>, entries: map<string, Expr>, guarded: bool,
      todo: seq<string>)
    requires Visits(entries, todo)
    ensures (forall j :: 0 <= j < |todo| ==> EntryAccepted(patterns, types, pk, guarded, todo[j], entries[todo[j]]))
            <==> forall n :: n in entries ==> EntryAccepted(patterns, types, pk, guarded, n, entries[n])
  {
    if forall j :: 0 <= j < |todo| ==> EntryAccepted(patterns, types, pk, guarded, todo[j], entries[todo[j]]) {
      forall n | n in entries ensures EntryAccepted(patterns, types, pk, guarded, n, entries[n]) {
        var j :| 0 <= j < |todo| && todo[j] == n;
      }
    }
  }

  // ---- one entry's value ----

  lemma ArrayType(d: Datum, t: ArgType, rows: nat)
    requires HasType(d, t, rows)
    ensures ToArray(d, rows).typ == StorageOf(t.valueType) && |ToArray(d, rows).cells| == rows
  {}

  lemma MaskMeaning(rt: Runtime, fields: seq<Field>, cols: seq<Column>, env: Env, rows: nat, where: Option<Expr>)
    requires KernelsTyped(rt, rows) && Typed(fields, cols, rows) && Holds(fields, cols, env)
    requires ConditionAccepted(rt.patterns, TypesOf(env), where)
    ensures match EvalMask(rt, CompileWhere(rt.patterns, fields, where).0, cols, rows)
            case Panic => false
            case Err => NamedMask(rt, env, rows, where).None?
            case Ok(m) =>
              && NamedMask(rt, env, rows, where) == Some(m) && (m.Some? <==> where.Some?)
              && (m.Some? ==> |m.value.cells| == rows)
  {
    if where.Some? {
      HoldsAgree(fields, cols, env);
      ExprAccepted(rt.patterns, fields, TypesOf(env), where.value);
      EvalMeaning(rt, fields, cols, env, rows, where.value);
      var c := CompileExpr(rt.patterns, fields, where.value);
      if Eval(rt, c.node, cols).Ok? { ArrayType(Eval(rt, c.node, cols).value, c.typ, rows); }
    }
  }

  lemma MergeIsIfElse(mask: Column, value: Column, kept: Column, rows: nat)
    requires value.typ == kept.typ && |mask.cells| == |value.cells| == |kept.cells| == rows
    ensures Merged(mask, value, kept, rows).Some?
    ensures IfElse(mask, value, kept) == Ok(Merged(mask, value, kept, rows).value)
  {
    var a, b := IfElse(mask, value, kept).value, Merged(mask, value, kept, rows).value;
    assert a.cells == b.cells;
  }

  /** An entry's column by position is the one by name, of the recorded storage type and length. */
  lemma EntryMeaning(rt: Runtime, fields: seq<Field>, cols: seq<Column>, env: Env, rows: nat, mask: Option<Column>,
      pk: seq<string>, n: string, e: Expr)
    requires KernelsTyped(rt, rows) && Typed(fields, cols, rows) && Holds(fields, cols, env)
    requires EntryAccepted(rt.patterns, TypesOf(env), pk, mask.Some?, n, e)
    requires mask.Some? ==> |mask.value.cells| == rows
    ensures match EvalEntry(rt, EntryFor(rt.patterns, fields, n, e), mask, cols, rows)
            case Panic => false
            case Err => NamedEntry(rt, env, rows, mask, n, e).None?
            case Ok(c) => NamedEntry(rt, env, rows, mask, n, e) == Some(c) && |c.cells| == rows
                          && c.typ == StorageOf(CompiledType(rt.patterns, fields, e))
  {
    HoldsAgree(fields, cols, env);
    ExprAccepted(rt.patterns, fields, TypesOf(env), e);
    EvalMeaning(rt, fields, cols, env, rows, e);
    IndexNames(fields, n);
    var c := CompileExpr(rt.patterns, fields, e);
    if Eval(rt, c.node, cols).Ok? {
      var d := Eval(rt, c.node, cols).value;
      ArrayType(d, c.typ, rows);
      var value, i := ToArray(d, rows), Index(fields, n);
      if mask.Some? { MergeIsIfElse(mask.value, value, if i < 0 then Nulls(value.typ, rows) else cols[i], rows); }
    }
  }

  ghost predicate ValuesSoFar(rt: Runtime, env: Env, rows: nat, mask: Option<Column>, entries: map<string, Expr>,
      todo: seq<string>, fields: seq<Field>, outs: seq<Column>)
    requires Visits(entries, todo) && |outs| <= |todo|
  {
    forall j :: 0 <= j < |outs| ==>
      && NamedEntry(rt, env, rows, mask, todo[j], entries[todo[j]]) == Some(outs[j])
      && outs[j].typ == StorageOf(CompiledType(rt.patterns, fields, entries[todo[j]])) && |outs[j].cells| == rows
  }

  lemma {:induction false} EntriesMeaning(rt: Runtime, fields: seq<Field>, cols: seq<Column>, env: Env, rows: nat,
      mask: Option<Column>, pk: seq<string>, entries: map<string, Expr>, todo: seq<string>, k: nat, outs: seq<Column>)
    requires KernelsTyped(rt, rows) && Typed(fields, cols, rows) && Holds(fields, cols, env) && Visits(entries, todo)
    requires forall n :: n in entries ==> EntryAccepted(rt.patterns, TypesOf(env), pk, mask.Some?, n, entries[n])
    requires mask.Some? ==> |mask.value.cells| == rows
    requires k == |outs| <= |todo| && ValuesSoFar(rt, env, rows, mask, entries, todo, fields, outs)
    ensures match EvalEntries(rt, EntriesFor(rt.patterns, fields, entries, todo, |todo|), k, mask, cols, rows, outs)
            case Panic => false
            case Err => exists n :: n in entries && NamedEntry(rt, env, rows, mask, n, entries[n]).None?
            case Ok(all) => |all| == |todo| && ValuesSoFar(rt, env, rows, mask, entries, todo, fields, all)
    decreases |todo| - k
  {
    if k < |todo| {
      var es := EntriesFor(rt.patterns, fields, entries, todo, |todo|);
      EntryMeaning(rt, fields, cols, env, rows, mask, pk, todo[k], entries[todo[k]]);
      assert todo[k] in entries;
      var v := EvalEntry(rt, es[k], mask, cols, rows);
      if v.Ok? { EntriesMeaning(rt, fields, cols, env, rows, mask, pk, entries, todo, k + 1, outs + [v.value]); }
    }
  }

  // ---- layout, frame and environment change in step ----

  /** The changes of a step and the positions of its entries, both found in the layout before the step. */
  ghost predicate Targets(fields: seq<Field>, todo: seq<string>, es: seq<Entry>, changes: seq<Change>) {
    && |es| == |changes| == |todo|
    && (forall j :: 0 <= j < |todo| ==>
        es[j].idx == changes[j].idx == Index(fields, todo[j]) && changes[j].field.name == todo[j])
    && (forall i, j :: 0 <= i < j < |todo| ==> todo[i] != todo[j])
  }

  ghost predicate Fits(changes: seq<Change>, outs: seq<Column>, rows: nat) {
    && |outs| == |changes|
    && forall j :: 0 <= j < |outs| ==> outs[j].typ == StorageOf(TypeOf(changes[j].field)) && |outs[j].cells| == rows
  }

  ghost function Assigned(changes: seq<Change>, outs: seq<Column>, env: Env, k: nat): Env
    requires |outs| == |changes| && k <= |changes|
    decreases |changes| - k
  {
    if k == |changes| then env
    else Assigned(changes, outs, env[changes[k].field.name := Named(TypeOf(changes[k].field), outs[k])], k + 1)
  }

  /** The layout and frame midway: columns of the original layout are still in place, later entries not yet appended. */
  ghost predicate Midway(fields: seq<Field>, todo: seq<string>, k: nat, cur: seq<Field>, cols: seq<Column>, env: Env,
      rows: nat)
    requires k <= |todo|
  {
    && Holds(cur, cols, env) && Typed(cur, cols, rows) && |cur| >= |fields|
    && (forall i :: 0 <= i < |fields| ==> cur[i].name == fields[i].name)
    && (forall j :: k <= j < |todo| && todo[j] !in Names(fields) ==> todo[j] !in env)
  }

  lemma Replaced(cur: seq<Field>, cols: seq<Column>, env: Env, rows: nat, i: nat, f: Field, c: Column)
    requires Holds(cur, cols, env) && Typed(cur, cols, rows) && i < |cur| && f.name == cur[i].name
    requires c.typ == StorageOf(TypeOf(f)) && |c.cells| == rows
    ensures Holds(cur[i := f], cols[i := c], env[f.name := Named(TypeOf(f), c)])
    ensures Typed(cur[i := f], cols[i := c], rows)
  {
    forall j | 0 <= j < |cur|
      ensures cur[i := f][j].name == cur[j].name && cur[j].name in Names(cur) && cur[j].name in Names(cur[i := f])
    {
      assert cur[i := f][j].name == cur[j].name;
    }
  }

  lemma Appended(cur: seq<Field>, cols: seq<Column>, env: Env, rows: nat, f: Field, c: Column)
    requires Holds(cur, cols, env) && Typed(cur, cols, rows) && f.name !in env
    requires c.typ == StorageOf(TypeOf(f)) && |c.cells| == rows
    ensures Holds(cur + [f], cols + [c], env[f.name := Named(TypeOf(f), c)]) && Typed(cur + [f], cols + [c], rows)
  {
    forall j | 0 <= j < |cur| ensures cur[j].name in Names(cur) && cur[j].name in Names(cur + [f]) {
      assert (cur + [f])[j] == cur[j];
    }
    assert (cur + [f])[|cur|] == f;
  }

  /** The layout and the frame after one assignment. */
  ghost function NextFields(cur: seq<Field>, i: int, f: Field): seq<Field>
    requires i < |cur|
  {
    if i < 0 then cur + [f] else cur[i := f]
  }

  ghost function NextCols(cols: seq<Column>, i: int, c: Column): seq<Column>
    requires i < |cols|
  {
    if i < 0 then cols + [c] else cols[i := c]
  }

  lemma MidwayStep(fields: seq<Field>, todo: seq<string>, k: nat, cur: seq<Field>, cols: seq<Column>, env: Env,
      rows: nat, f: Field, c: Column)
    requires k < |todo| && Midway(fields, todo, k, cur, cols, env, rows) && f.name == todo[k]
    requires forall i, j :: 0 <= i < j < |todo| ==> todo[i] != todo[j]
    requires c.typ == StorageOf(TypeOf(f)) && |c.cells| == rows
    ensures var i := Index(fields, todo[k]);
            Midway(fields, todo, k + 1, NextFields(cur, i, f), NextCols(cols, i, c),
                   env[todo[k] := Named(TypeOf(f), c)], rows)
  {
    var i := Index(fields, todo[k]);
    IndexNames(fields, todo[k]);
    if i < 0 { Appended(cur, cols, env, rows, f, c); } else { Replaced(cur, cols, env, rows, i, f, c); }
  }

  /** One assignment, one change and one environment update; the rest goes on from there. */
  lemma AssignNext(fields: seq<Field>, todo: seq<string>, es: seq<Entry>, changes: seq<Change>, outs: seq<Column>,
      k: nat, cur: seq<Field>, cols: seq<Column>, env: Env)
    requires Targets(fields, todo, es, changes) && |outs| == |changes| && k < |todo| && |cols| == |cur|
    requires forall c :: c in changes ==> c.idx < |cur|
    ensures var f, i := changes[k].field, changes[k].idx;
            && i < |cur| && |NextFields(cur, i, f)| >= |cur|
            && Assign(cols, es, outs, k) == Assign(NextCols(cols, i, outs[k]), es, outs, k + 1)
            && ApplyChanges(cur, changes, k) == ApplyChanges(NextFields(cur, i, f), changes, k + 1)
            && Assigned(changes, outs, env, k) ==
                 Assigned(changes, outs, env[f.name := Named(TypeOf(f), outs[k])], k + 1)
  {
    assert changes[k] in changes;
  }

  /** Assigning the columns and changing the layout keep the frame holding the environment. */
  lemma {:induction false} AssignMeaning(fields: seq<Field>, todo: seq<string>, es: seq<Entry>, changes: seq<Change>,
      outs: seq<Column>, k: nat, cur: seq<Field>, cols: seq<Column>, env: Env, rows: nat)
    requires Targets(fields, todo, es, changes) && Fits(changes, outs, rows)
    requires k <= |todo| && Midway(fields, todo, k, cur, cols, env, rows) && forall c :: c in changes ==> c.idx < |cur|
    ensures match Assign(cols, es, outs, k)
            case Panic => false
            case Err => false
            case Ok(next) =>
              && Typed(ApplyChanges(cur, changes, k), next, rows)
              && Holds(ApplyChanges(cur, changes, k), next, Assigned(changes, outs, env, k))
    decreases |todo| - k
  {
    if k < |todo| {
      var f, i := changes[k].field, changes[k].idx;
      AssignNext(fields, todo, es, changes, outs, k, cur, cols, env);
      MidwayStep(fields, todo, k, cur, cols, env, rows, f, outs[k]);
      AssignMeaning(fields, todo, es, changes, outs, k + 1, NextFields(cur, i, f), NextCols(cols, i, outs[k]),
                    env[f.name := Named(TypeOf(f), outs[k])], rows);
    }
  }

  lemma {:induction false} AssignedValues(fields: seq<Field>, todo: seq<string>, es: seq<Entry>, changes: seq<Change>,
      outs: seq<Column>, env: Env, k: nat)
    requires Targets(fields, todo, es, changes) && |outs| == |todo| && k <= |todo|
    ensures var r := Assigned(changes, outs, env, k);
            && (forall n :: n in r <==> n in env || n in todo[k..])
            && (forall n :: n in env && n !in todo[k..] ==> r[n] == env[n])
            && (forall j :: k <= j < |todo| ==> r[todo[j]] == Named(TypeOf(changes[j].field), outs[j]))
    decreases |todo| - k
  {
    if k < |todo| {
      AssignedValues(fields, todo, es, changes, outs, env[todo[k] := Named(TypeOf(changes[k].field), outs[k])], k + 1);
      assert todo[k..] == [todo[k]] + todo[k + 1..];
      assert todo[k] !in todo[k + 1..];
      assert forall j :: k < j < |todo| ==> todo[j] in todo[k + 1..];
    }
  }

  lemma FailingEntry(rt: Runtime, env: Env, rows: nat, entries: map<string, Expr>, where: Option<Expr>,
      mask: Option<Column>)
    requires NamedMask(rt, env, rows, where) == Some(mask)
    ensures (exists n :: n in entries && NamedEntry(rt, env, rows, mask, n, entries[n]).None?) ==>
              NamedCompute(rt, env, rows, entries, where).None?
  {
    if n :| n in entries && NamedEntry(rt, env, rows, mask, n, entries[n]).None? {
      var values := map n | n in entries :: NamedValue(rt, env, rows, mask, n, entries[n]);
      assert values[n] == None;
      assert None in values.Values;
    }
  }

  lemma AssignAllValues(env: Env, values: map<string, Option<Named>>, r: Env)
    requires forall n :: n in r <==> n in env || n in values
    requires forall n :: n in env && n !in values ==> r[n] == env[n]
    requires forall n :: n in values ==> values[n] == Some(r[n])
    ensures AssignAll(env, values) == Some(r)
  {
    assert None !in values.Values;
    assert r == env + map n | n in values && values[n].Some? :: values[n].value;
  }

  lemma AssignedEntry(rt: Runtime, fields: seq<Field>, cols: seq<Column>, env: Env, rows: nat, mask: Option<Column>,
      n: string, e: Expr, out: Column)
    requires Holds(fields, cols, env) && NamedEntry(rt, env, rows, mask, n, e) == Some(out)
    requires NamedType(rt.patterns, TypesOf(env), e).Some?
    ensures NamedValue(rt, env, rows, mask, n, e) == Some(Named(CompiledType(rt.patterns, fields, e), out))
  {
    HoldsAgree(fields, cols, env);
    ExprAccepted(rt.patterns, fields, TypesOf(env), e);
  }

  /** The assignments made one after another amount to the simultaneous ones. */
  lemma ComputedEnv(rt: Runtime, fields: seq<Field>, cols: seq<Column>, env: Env, rows: nat,
      entries: map<string, Expr>, where: Option<Expr>, mask: Option<Column>, todo: seq<string>, outs: seq<Column>)
    requires Holds(fields, cols, env) && Visits(entries, todo) && entries != map[] && |outs| == |todo|
    requires NamedMask(rt, env, rows, where) == Some(mask)
    requires ValuesSoFar(rt, env, rows, mask, entries, todo, fields, outs)
    requires forall n :: n in entries ==> NamedType(rt.patterns, TypesOf(env), entries[n]).Some?
    ensures NamedCompute(rt, env, rows, entries, where) ==
              Some(Assigned(ChangesFor(rt.patterns, fields, entries, todo, |todo|), outs, env, 0))
  {
    var es, changes := EntriesFor(rt.patterns, fields, entries, todo, |todo|),
                       ChangesFor(rt.patterns, fields, entries, todo, |todo|);
    AssignedValues(fields, todo, es, changes, outs, env, 0);
    var r := Assigned(changes, outs, env, 0);
    assert todo[0..] == todo;
    var values := map n | n in entries :: NamedValue(rt, env, rows, mask, n, entries[n]);
    forall n | n in values ensures values[n] == Some(r[n]) {
      var j := ComputedValue(rt, fields, cols, env, rows, mask, entries, todo, outs, n);
    }
    AssignAllValues(env, values, r);
  }

  lemma ComputedValue(rt: Runtime, fields: seq<Field>, cols: seq<Column>, env: Env, rows: nat, mask: Option<Column>,
      entries: map<string, Expr>, todo: seq<string>, outs: seq<Column>, n: string) returns (j: nat)
    requires Holds(fields, cols, env) && Visits(entries, todo) && |outs| == |todo| && n in entries
    requires ValuesSoFar(rt, env, rows, mask, entries, todo, fields, outs)
    requires NamedType(rt.patterns, TypesOf(env), entries[n]).Some?
    ensures j < |todo| && todo[j] == n
    ensures NamedValue(rt, env, rows, mask, n, entries[n]) ==
              Some(Named(CompiledType(rt.patterns, fields, entries[n]), outs[j]))
  {
    j :| 0 <= j < |todo| && todo[j] == n;
    AssignedEntry(rt, fields, cols, env, rows, mask, n, entries[n], outs[j]);
  }

  /** Applying a compiled compute operation is the named compute step. */
  lemma ComputeOpMeaning(rt: Runtime, fields: seq<Field>, cols: seq<Column>, env: Env, rows: nat, pk: seq<string>,
      entries: map<string, Expr>, where: Option<Expr>, todo: seq<string>)
    requires KernelsTyped(rt, rows) && Typed(fields, cols, rows) && Holds(fields, cols, env)
    requires StepAccepted(rt.patterns, TypesOf(env), pk, Compute(entries, where)) && Visits(entries, todo)
    requires entries != map[]
    ensures var changes := ChangesFor(rt.patterns, fields, entries, todo, |todo|);
            var op := ComputeOp(CompileWhere(rt.patterns, fields, where).0,
                                EntriesFor(rt.patterns, fields, entries, todo, |todo|));
            match ApplyOp(rt, op, cols, rows)
            case Panic => false
            case Err => NamedCompute(rt, env, rows, entries, where).None?
            case Ok(next) =>
              && NamedCompute(rt, env, rows, entries, where).Some?
              && Typed(ApplyChanges(fields, changes, 0), next, rows)
              && Holds(ApplyChanges(fields, changes, 0), next, NamedCompute(rt, env, rows, entries, where).value)
  {
    var es := EntriesFor(rt.patterns, fields, entries, todo, |todo|);
    MaskMeaning(rt, fields, cols, env, rows, where);
    var mask := EvalMask(rt, CompileWhere(rt.patterns, fields, where).0, cols, rows);
    if mask.Ok? {
      FailingEntry(rt, env, rows, entries, where, mask.value);
      EntriesMeaning(rt, fields, cols, env, rows, mask.value, pk, entries, todo, 0, []);
      var outs := EvalEntries(rt, es, 0, mask.value, cols, rows, []);
      if outs.Ok? { AssignedMeaning(rt, fields, cols, env, rows, pk, entries, where, mask.value, todo, outs.value); }
    }
  }

  lemma CollectedFit(rt: Runtime, env: Env, rows: nat, mask: Option<Column>, entries: map<string, Expr>,
      todo: seq<string>, fields: seq<Field>, outs: seq<Column>)
    requires Visits(entries, todo) && |outs| == |todo| && ValuesSoFar(rt, env, rows, mask, entries, todo, fields, outs)
    ensures var changes := ChangesFor(rt.patterns, fields, entries, todo, |todo|);
            && Targets(fields, todo, EntriesFor(rt.patterns, fields, entries, todo, |todo|), changes)
            && Fits(changes, outs, rows)
  {}

  lemma EntriesTyped(patterns: Patterns, types: Types, pk: seq<string>, entries: map<string, Expr>, where: Option<Expr>)
    requires StepAccepted(patterns, types, pk, Compute(entries, where))
    ensures forall n :: n in entries ==> NamedType(patterns, types, entries[n]).Some?
  {
    forall n | n in entries ensures NamedType(patterns, types, entries[n]).Some? {
      assert EntryAccepted(patterns, types, pk, where.Some?, n, entries[n]);
    }
  }

  lemma AssignedMeaning(rt: Runtime, fields: seq<Field>, cols: seq<Column>, env: Env, rows: nat, pk: seq<string>,
      entries: map<string, Expr>, where: Option<Expr>, mask: Option<Column>, todo: seq<string>, outs: seq<Column>)
    requires Typed(fields, cols, rows) && Holds(fields, cols, env) && entries != map[]
    requires StepAccepted(rt.patterns, TypesOf(env), pk, Compute(entries, where)) && Visits(entries, todo)
    requires |outs| == |todo|
    requires NamedMask(rt, env, rows, where) == Some(mask)
    requires ValuesSoFar(rt, env, rows, mask, entries, todo, fields, outs)
    ensures var changes := ChangesFor(rt.patterns, fields, entries, todo, |todo|);
            match Assign(cols, EntriesFor(rt.patterns, fields, entries, todo, |todo|), outs, 0)
            case Panic => false
            case Err => false
            case Ok(next) =>
              && NamedCompute(rt, env, rows, entries, where).Some?
              && Typed(ApplyChanges(fields, changes, 0), next, rows)
              && Holds(ApplyChanges(fields, changes, 0), next, NamedCompute(rt, env, rows, entries, where).value)
  {
    var es, changes := EntriesFor(rt.patterns, fields, entries, todo, |todo|),
                       ChangesFor(rt.patterns, fields, entries, todo, |todo|);
    CollectedFit(rt, env, rows, mask, entries, todo, fields, outs);
    AssignMeaning(fields, todo, es, changes, outs, 0, fields, cols, env, rows);
    EntriesTyped(rt.patterns, TypesOf(env), pk, entries, where);
    ComputedEnv(rt, fields, cols, env, rows, entries, where, mask, todo, outs);
  }

  lemma ComputeMeaning(rt: Runtime, w: Work, pk: seq<string>, entries: map<string, Expr>, where: Option<Expr>,
      start: seq<Column>, rows: nat, env: Env)
    requires KernelsTyped(rt, rows) && Related(rt, w, start, rows, Some(env))
    requires StepAccepted(rt.patterns, TypesOf(env), pk, Compute(entries, where))
    ensures Related(rt, ComputeStep(rt.patterns, w, pk, entries, where), start, rows,
                    NamedCompute(rt, env, rows, entries, where))
  {
    var cols := ApplyOps(rt, w.ops, start, rows).value;
    HoldsAgree(w.fields, cols, env);
    ComputeAcceptedExactly(rt.patterns, w, TypesOf(env), pk, entries, where);
    var todo := SortedKeys(entries.Keys);
    if todo == [] {
      assert forall n :: n !in entries;
      assert entries == map[];
    } else {
      assert todo[0] in entries;
      var op := ComputeOp(CompileWhere(rt.patterns, w.fields, where).0,
                          EntriesFor(rt.patterns, w.fields, entries, todo, |todo|));
      ApplyAppend(rt, w.ops, op, start, rows);
      ComputeOpMeaning(rt, w.fields, cols, env, rows, pk, entries, where, todo);
    }
  }
}
