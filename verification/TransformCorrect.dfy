/** The compiler accepts exactly the steps that are well formed by name, and its plans compute what they mean. */
module TransformCorrect {
  import opened RowModel
  import opened Order
  import opened TransformCatalog
  import opened TransformLiterals
  import opened TransformCompile
  import opened TransformExec
  import opened TransformMeaning

  // ---- issues only accumulate ----

  lemma {:induction false} RenameIssuesGrow(fields: seq<Field>, pk: seq<string>, names: map<string, string>,
      todo: seq<string>, k: nat, r: Renames)
    requires k <= |todo| && forall n :: n in todo ==> n in names
    ensures r.issues <= RenameScan(fields, pk, names, todo, k, r).issues
    decreases |todo| - k
  {
    if k < |todo| {
      RenameIssuesGrow(fields, pk, names, todo, k + 1, RenameEntry(fields, pk, todo[k], names[todo[k]], r));
    }
  }

  lemma {:induction false} DropIssuesGrow(w: Work, pk: seq<string>, columns: seq<string>)
    ensures w.issues <= DropStep(w, pk, columns).issues
    decreases |columns|
  {
    if columns != [] {
      var i := Index(w.fields, columns[0]);
      DropIssuesGrow(
        if i < 0 then w.(issues := w.issues + [UnknownColumn(columns[0])])
        else if columns[0] in pk then w.(issues := w.issues + [PrimaryKeyColumn(columns[0])])
        else w.(fields := w.fields[..i] + w.fields[i + 1..], ops := w.ops + [DropOp(i)]), pk, columns[1..]);
    }
  }

  lemma {:induction false} ComputeIssuesGrow(patterns: Patterns, fields: seq<Field>, pk: seq<string>,
      entries: map<string, Expr>, guarded: bool, todo: seq<string>, k: nat, p: Pending)
    requires k <= |todo| && forall n :: n in todo ==> n in entries
    ensures p.issues <= ComputeScan(patterns, fields, pk, entries, guarded, todo, k, p).issues
    decreases |todo| - k
  {
    if k < |todo| {
      ComputeIssuesGrow(patterns, fields, pk, entries, guarded, todo, k + 1,
                        ComputeEntry(patterns, fields, pk, entries, guarded, todo[k], p));
    }
  }

  lemma StepIssuesGrow(patterns: Patterns, w: Work, pk: seq<string>, step: Step)
    ensures w.issues <= CompileStep(patterns, w, pk, step).issues
  {
    match step
    case Rename(names) => RenameIssuesGrow(w.fields, pk, names, SortedKeys(names.Keys), 0, Renames(map[], w.issues));
    case Drop(columns) => DropIssuesGrow(w, pk, columns);
    case Compute(entries, where) =>
      ComputeIssuesGrow(patterns, w.fields, pk, entries, where.Some?, SortedKeys(entries.Keys), 0,
                        Pending([], [], w.issues));
  }

  lemma {:induction false} StepsIssuesGrow(patterns: Patterns, w: Work, pk: seq<string>, steps: seq<Step>)
    ensures w.issues <= CompileSteps(patterns, w, pk, steps).issues
    decreases |steps|
  {
    if steps != [] {
      StepIssuesGrow(patterns, w, pk, steps[0]);
      StepsIssuesGrow(patterns, CompileStep(patterns, w, pk, steps[0]), pk, steps[1..]);
    }
  }

  // ---- rename ----

  ghost predicate EntryOk(fields: seq<Field>, pk: seq<string>, names: map<string, string>, n: string)
    requires n in names
  {
    n in Names(fields) && n !in pk && names[n] !in Names(fields) && !IsReserved(names[n])
  }

  lemma IndexNames(fields: seq<Field>, n: string)
    ensures Index(fields, n) >= 0 <==> n in Names(fields)
  {}

  /** The visiting order: every name once. */
  ghost predicate Visits(names: map<string, string>, todo: seq<string>) {
    && (forall n :: n in todo <==> n in names)
    && (forall i, j :: 0 <= i < j < |todo| ==> todo[i] != todo[j])
  }

  ghost predicate EntryFine(fields: seq<Field>, pk: seq<string>, names: map<string, string>, todo: seq<string>, j: nat)
    requires Visits(names, todo) && j < |todo|
  {
    EntryOk(fields, pk, names, todo[j]) && forall i :: 0 <= i < j ==> names[todo[i]] != names[todo[j]]
  }

  ghost function Prefix(names: map<string, string>, todo: seq<string>, k: nat): (m: map<string, string>)
    requires Visits(names, todo) && k <= |todo|
  {
    map n | n in todo[..k] :: names[n]
  }

  lemma PrefixValues(names: map<string, string>, todo: seq<string>, k: nat, v: string)
    requires Visits(names, todo) && k <= |todo|
    ensures v in Prefix(names, todo, k).Values <==> exists i :: 0 <= i < k && names[todo[i]] == v
  {
    var m := Prefix(names, todo, k);
    if v in m.Values {
      var n :| n in m && m[n] == v;
      var i :| 0 <= i < k && todo[i] == n;
    }
    forall i | 0 <= i < k && names[todo[i]] == v ensures v in m.Values {
      assert todo[..k][i] in m && m[todo[i]] == v;
    }
  }

  lemma PrefixNext(names: map<string, string>, todo: seq<string>, k: nat)
    requires Visits(names, todo) && k < |todo|
    ensures Prefix(names, todo, k + 1) == Prefix(names, todo, k)[todo[k] := names[todo[k]]]
  {
    assert todo[..k + 1] == todo[..k] + [todo[k]];
  }

  lemma RenameEntryFine(fields: seq<Field>, pk: seq<string>, names: map<string, string>, todo: seq<string>, k: nat,
      r: Renames)
    requires Visits(names, todo) && k < |todo| && r.accepted == Prefix(names, todo, k)
    ensures var next := RenameEntry(fields, pk, todo[k], names[todo[k]], r);
            && (next.issues == r.issues <==> EntryFine(fields, pk, names, todo, k))
            && (next.issues == r.issues ==> next.accepted == Prefix(names, todo, k + 1))
            && |next.issues| >= |r.issues| && (next.issues != r.issues ==> |next.issues| > |r.issues|)
  {
    IndexNames(fields, todo[k]);
    IndexNames(fields, names[todo[k]]);
    PrefixValues(names, todo, k, names[todo[k]]);
    PrefixNext(names, todo, k);
  }

  /** The scan raises no issue exactly when every entry is fine, and then accepts them all. */
  lemma {:induction false} RenameScanAccepts(fields: seq<Field>, pk: seq<string>, names: map<string, string>,
      todo: seq<string>, k: nat, r: Renames)
    requires Visits(names, todo) && k <= |todo| && r.accepted == Prefix(names, todo, k)
    ensures var out := RenameScan(fields, pk, names, todo, k, r);
            && (out.issues == r.issues <==> forall j :: k <= j < |todo| ==> EntryFine(fields, pk, names, todo, j))
            && (out.issues == r.issues ==> out.accepted == Prefix(names, todo, |todo|))
    decreases |todo| - k
  {
    if k < |todo| {
      var next := RenameEntry(fields, pk, todo[k], names[todo[k]], r);
      RenameEntryFine(fields, pk, names, todo, k, r);
      if next.issues == r.issues {
        RenameScanAccepts(fields, pk, names, todo, k + 1, next);
      } else {
        RenameIssuesGrow(fields, pk, names, todo, k + 1, next);
      }
    }
  }

  lemma AllFine(fields: seq<Field>, pk: seq<string>, names: map<string, string>, todo: seq<string>)
    requires Visits(names, todo)
    ensures (forall j :: 0 <= j < |todo| ==> EntryFine(fields, pk, names, todo, j)) <==>
              RenameAccepted(Names(fields), pk, names)
  {
    if forall j :: 0 <= j < |todo| ==> EntryFine(fields, pk, names, todo, j) {
      forall n | n in names ensures EntryOk(fields, pk, names, n) {
        var i :| 0 <= i < |todo| && todo[i] == n;
        assert EntryFine(fields, pk, names, todo, i);
      }
      forall n, m | n in names && m in names && names[n] == names[m] ensures n == m {
        var i :| 0 <= i < |todo| && todo[i] == n;
        var j :| 0 <= j < |todo| && todo[j] == m;
        assert EntryFine(fields, pk, names, todo, i) && EntryFine(fields, pk, names, todo, j);
      }
    }
  }

  lemma RenameAcceptedExactly(w: Work, pk: seq<string>, names: map<string, string>)
    ensures RenameStep(w, pk, names).issues == w.issues <==> RenameAccepted(Names(w.fields), pk, names)
    ensures RenameAccepted(Names(w.fields), pk, names) ==> RenameStep(w, pk, names).fields == Relabeled(w.fields, names)
  {
    var todo := SortedKeys(names.Keys);
    SortedDistinct(todo);
    assert Visits(names, todo);
    RenameScanAccepts(w.fields, pk, names, todo, 0, Renames(map[], w.issues));
    AllFine(w.fields, pk, names, todo);
    assert Prefix(names, todo, |todo|) == names by { assert todo[..|todo|] == todo; }
  }

  lemma DistinctIndex(fields: seq<Field>, i: nat)
    requires DistinctNames(fields) && i < |fields|
    ensures Index(fields, fields[i].name) == i
  {}

  lemma RelabeledName(fields: seq<Field>, names: map<string, string>, i: nat)
    requires DistinctNames(fields) && i < |fields|
    ensures Relabeled(fields, names)[i] == fields[i].(name := NewName(names, fields[i].name))
    ensures fields[i].name in Names(fields)
  {
    DistinctIndex(fields, i);
  }

  lemma RelabeledDistinct(fields: seq<Field>, pk: seq<string>, names: map<string, string>)
    requires DistinctNames(fields) && RenameAccepted(Names(fields), pk, names)
    ensures DistinctNames(Relabeled(fields, names))
  {
    forall i, j | 0 <= i < j < |fields| ensures Relabeled(fields, names)[i].name != Relabeled(fields, names)[j].name {
      RelabeledName(fields, names, i);
      RelabeledName(fields, names, j);
    }
  }

  lemma RelabeledKeys(fields: seq<Field>, pk: seq<string>, names: map<string, string>, env: Env)
    requires DistinctNames(fields) && RenameAccepted(Names(fields), pk, names) && env.Keys == Names(fields)
    ensures RenameKeys(env, names).Keys == Names(Relabeled(fields, names))
  {
    var out, r := Relabeled(fields, names), RenameKeys(env, names);
    forall n | n in r ensures n in Names(out) {
      var k :| k in env && n == NewName(names, k);
      var i :| 0 <= i < |fields| && fields[i].name == k;
      RelabeledName(fields, names, i);
    }
    forall i | 0 <= i < |out| ensures out[i].name in r { RelabeledName(fields, names, i); }
  }

  lemma RenameMeaning(fields: seq<Field>, cols: seq<Column>, env: Env, pk: seq<string>, names: map<string, string>)
    requires Holds(fields, cols, env) && RenameAccepted(Names(fields), pk, names)
    ensures Holds(Relabeled(fields, names), cols, RenameKeys(env, names))
  {
    RelabeledDistinct(fields, pk, names);
    RelabeledKeys(fields, pk, names, env);
    forall i | 0 <= i < |fields|
      ensures RenameKeys(env, names)[Relabeled(fields, names)[i].name] ==
                Named(TypeOf(Relabeled(fields, names)[i]), cols[i])
    {
      RelabeledName(fields, names, i);
    }
  }

  // ---- drop ----

  lemma DropAcceptedFirst(keys: set<string>, pk: seq<string>, columns: seq<string>)
    requires columns != []
    ensures DropAccepted(keys, pk, columns) <==>
              columns[0] in keys && columns[0] !in pk && DropAccepted(keys - {columns[0]}, pk, columns[1..])
  {
    var rest := columns[1..];
    assert forall j :: 0 <= j < |rest| ==> rest[j] == columns[j + 1];
    assert forall j :: 1 <= j < |columns| ==> columns[j] == rest[j - 1];
  }

  lemma {:induction false} DropAcceptedExactly(w: Work, pk: seq<string>, columns: seq<string>)
    requires DistinctNames(w.fields)
    ensures DropStep(w, pk, columns).issues == w.issues <==> DropAccepted(Names(w.fields), pk, columns)
    decreases |columns|
  {
    if columns != [] {
      var c, i := columns[0], Index(w.fields, columns[0]);
      IndexNames(w.fields, c);
      DropAcceptedFirst(Names(w.fields), pk, columns);
      if i < 0 {
        DropIssuesGrow(w.(issues := w.issues + [UnknownColumn(c)]), pk, columns[1..]);
      } else if c in pk {
        DropIssuesGrow(w.(issues := w.issues + [PrimaryKeyColumn(c)]), pk, columns[1..]);
      } else {
        Removed(w.fields, i);
        DropAcceptedExactly(w.(fields := w.fields[..i] + w.fields[i + 1..], ops := w.ops + [DropOp(i)]), pk,
                            columns[1..]);
      }
    }
  }

  lemma Removed(fields: seq<Field>, i: nat)
    requires DistinctNames(fields) && i < |fields|
    ensures DistinctNames(fields[..i] + fields[i + 1..])
    ensures Names(fields[..i] + fields[i + 1..]) == Names(fields) - {fields[i].name}
  {
    var left := fields[..i] + fields[i + 1..];
    forall j | 0 <= j < |fields| && j != i ensures fields[j].name in Names(left) {
      assert left[if j < i then j else j - 1] == fields[j];
    }
    forall j | 0 <= j < |left| ensures left[j].name in Names(fields) - {fields[i].name} {
      assert left[j] == fields[if j < i then j else j + 1];
    }
  }

  lemma ApplyAppend(rt: Runtime, ops: seq<Op>, op: Op, cols: seq<Column>, rows: nat)
    ensures ApplyOps(rt, ops + [op], cols, rows) ==
              match ApplyOps(rt, ops, cols, rows)
              case Err => Err
              case Panic => Panic
              case Ok(next) => ApplyOp(rt, op, next, rows)
    decreases |ops|
  {
    if ops == [] {
      assert ops + [op] == [op];
    } else {
      assert (ops + [op])[1..] == ops[1..] + [op];
      if ApplyOp(rt, ops[0], cols, rows).Ok? {
        ApplyAppend(rt, ops[1..], op, ApplyOp(rt, ops[0], cols, rows).value, rows);
      }
    }
  }

  // ---- the relation a compiled prefix keeps with the named run ----

  /** After the same steps: both failed in a kernel, or the frame holds the environment at the layout's types. */
  ghost predicate Related(rt: Runtime, w: Work, start: seq<Column>, rows: nat, env: Option<Env>) {
    match ApplyOps(rt, w.ops, start, rows)
    case Panic => false
    case Err => env.None?
    case Ok(cols) => env.Some? && Typed(w.fields, cols, rows) && Holds(w.fields, cols, env.value)
  }

  lemma DropOne(fields: seq<Field>, cols: seq<Column>, env: Env, i: nat, rows: nat)
    requires Typed(fields, cols, rows) && Holds(fields, cols, env) && i < |fields|
    ensures Typed(fields[..i] + fields[i + 1..], cols[..i] + cols[i + 1..], rows)
    ensures Holds(fields[..i] + fields[i + 1..], cols[..i] + cols[i + 1..], env - {fields[i].name})
  {
    Removed(fields, i);
    var left, kept := fields[..i] + fields[i + 1..], cols[..i] + cols[i + 1..];
    forall j | 0 <= j < |left|
      ensures left[j] == fields[if j < i then j else j + 1] && kept[j] == cols[if j < i then j else j + 1]
    {}
  }

  function Without(w: Work, i: nat): Work
    requires i < |w.fields|
  {
    w.(fields := w.fields[..i] + w.fields[i + 1..], ops := w.ops + [DropOp(i)])
  }

  lemma DropOneRelated(rt: Runtime, w: Work, i: nat, start: seq<Column>, rows: nat, env: Env)
    requires Related(rt, w, start, rows, Some(env)) && i < |w.fields|
    ensures Related(rt, Without(w, i), start, rows, Some(env - {w.fields[i].name}))
    ensures Names(Without(w, i).fields) == Names(w.fields) - {w.fields[i].name}
  {
    ApplyAppend(rt, w.ops, DropOp(i), start, rows);
    DropOne(w.fields, ApplyOps(rt, w.ops, start, rows).value, env, i, rows);
    Removed(w.fields, i);
  }

  lemma DropRest<V>(keys: set<string>, pk: seq<string>, columns: seq<string>, env: map<string, V>)
    requires columns != [] && DropAccepted(keys, pk, columns)
    ensures columns[0] in keys && columns[0] !in pk && DropAccepted(keys - {columns[0]}, pk, columns[1..])
    ensures env - Listed(columns) == (env - {columns[0]}) - Listed(columns[1..])
  {
    var rest := columns[1..];
    DropAcceptedFirst(keys, pk, columns);
    assert Listed(columns) == {columns[0]} + Listed(rest) by { assert columns == [columns[0]] + rest; }
  }

  lemma {:induction false} DropMeaning(rt: Runtime, w: Work, pk: seq<string>, columns: seq<string>, start: seq<Column>,
      rows: nat, env: Env)
    requires Related(rt, w, start, rows, Some(env)) && DropAccepted(Names(w.fields), pk, columns)
    ensures Related(rt, DropStep(w, pk, columns), start, rows, Some(env - Listed(columns)))
    decreases |columns|
  {
    if columns == [] {
      assert env - Listed(columns) == env;
    } else {
      var i := Index(w.fields, columns[0]);
      IndexNames(w.fields, columns[0]);
      DropRest(Names(w.fields), pk, columns, env);
      DropOneRelated(rt, w, i, start, rows, env);
      DropMeaning(rt, Without(w, i), pk, columns[1..], start, rows, env - {columns[0]});
    }
  }
}
