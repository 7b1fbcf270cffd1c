/** Structural comparison of two layouts of one resource, the policies that admit a change, and message layouts over
    epochs. */
module SchemaEvolution {
  import opened RowModel

  datatype Kind =
    | AddField | DropField | ChangeType | ChangeNullability | ChangeKey | ChangeOrder | ChangeEngine | ChangeDestination
    | ChangeSemantics

  datatype Change = Change(kind: Kind, field: string, before: Option<Field>, after: Option<Field>)

  datatype Policy = Strict | NullableAdd | OtherPolicy(spelling: string)

  // ---- validation ----

  ghost predicate DistinctKeys(keys: seq<string>) { forall i, j :: 0 <= i < j < |keys| ==> keys[i] != keys[j] }

  /** Field names are nonempty and distinct; keys name fields, each once. */
  ghost predicate Valid(s: Schema) {
    && DistinctNames(s.fields) && (forall i :: 0 <= i < |s.fields| ==> s.fields[i].name != "")
    && DistinctKeys(s.primaryKey) && forall i :: 0 <= i < |s.primaryKey| ==> s.primaryKey[i] in Names(s.fields)
  }

  method Validate(s: Schema) returns (ok: bool)
    ensures ok == Valid(s)
  {
    var names: set<string> := {};
    for k := 0 to |s.fields|
      invariant names == Names(s.fields[..k])
      invariant DistinctNames(s.fields[..k]) && forall i :: 0 <= i < k ==> s.fields[i].name != ""
    {
      var f := s.fields[k];
      if f.name == "" { return false; }
      if f.name in names {
        var i :| 0 <= i < k && s.fields[..k][i].name == f.name;
        assert s.fields[i].name == s.fields[k].name;
        return false;
      }
      assert s.fields[..k + 1] == s.fields[..k] + [f];
      assert forall n :: n in Names(s.fields[..k + 1]) <==> n in names + {f.name} by {
        assert s.fields[..k + 1][k] == f;
        assert forall i :: 0 <= i < k ==> s.fields[..k + 1][i] == s.fields[..k][i];
      }
      names := names + {f.name};
    }
    assert s.fields[..|s.fields|] == s.fields;
    var keys: set<string> := {};
    for k := 0 to |s.primaryKey|
      invariant keys == set i | 0 <= i < k :: s.primaryKey[i]
      invariant forall i, j :: 0 <= i < j < k ==> s.primaryKey[i] != s.primaryKey[j]
      invariant forall i :: 0 <= i < k ==> s.primaryKey[i] in names
    {
      if s.primaryKey[k] !in names || s.primaryKey[k] in keys { return false; }
      keys := keys + {s.primaryKey[k]};
    }
    return true;
  }

  // ---- comparison ----

  function At(fields: seq<Field>, name: string): (f: Option<Field>)
    ensures f.Some? ==> f.value in fields && f.value.name == name
    ensures f.None? ==> name !in Names(fields)
  {
    if fields == [] then None
    else if fields[|fields| - 1].name == name then Some(fields[|fields| - 1])
    else
      var f := At(fields[..|fields| - 1], name);
      assert f.None? ==>
        forall i :: 0 <= i < |fields| - 1 ==>
          fields[i] == fields[..|fields| - 1][i] && fields[i].name in Names(fields[..|fields| - 1]);
      f
  }

  predicate SameType(f: Field, n: Field) {
    f.logical == n.logical && f.native == n.native && f.precision == n.precision && f.scale == n.scale
  }

  /** What the comparison reports for one old field. */
  function FieldChange(f: Field, after: seq<Field>): seq<Change> {
    var n := At(after, f.name);
    if n.None? then [Change(DropField, f.name, Some(f), None)] else
      (if SameType(f, n.value) then [] else [Change(ChangeType, f.name, Some(f), n)])
      + (if f.nullable == n.value.nullable then [] else [Change(ChangeNullability, f.name, Some(f), n)])
  }

  function FieldChanges(before: seq<Field>, after: seq<Field>): seq<Change> {
    if before == [] then [] else FieldChanges(before[..|before| - 1], after) + FieldChange(before[|before| - 1], after)
  }

  function Additions(known: set<string>, after: seq<Field>): seq<Change> {
    if after == [] then [] else
      var f := after[|after| - 1];
      Additions(known, after[..|after| - 1]) + if f.name in known then [] else [Change(AddField, f.name, None, Some(f))]
  }

  /** The fields whose names are in a set, in order. */
  function Restrict(fields: seq<Field>, names: set<string>): (r: seq<Field>)
    ensures forall f :: f in r ==> f in fields && f.name in names
  {
    if fields == [] then [] else
      var f := fields[|fields| - 1];
      Restrict(fields[..|fields| - 1], names) + if f.name in names then [f] else []
  }

  function Labels(fields: seq<Field>): (r: seq<string>)
    ensures |r| == |fields| && forall i :: 0 <= i < |r| ==> r[i] == fields[i].name
  {
    seq(|fields|, i requires 0 <= i < |fields| => fields[i].name)
  }

  predicate SameSemantics(a: Schema, b: Schema) {
    a.envelope == b.envelope && a.projectedEnvelope == b.projectedEnvelope
  }

  /** Differences in the order of the fields both layouts name, and in the resource-level settings. */
  function ResourceChanges(before: Schema, after: Schema, oldOrder: seq<string>, newOrder: seq<string>): seq<Change> {
    (if oldOrder == newOrder then [] else [Change(ChangeOrder, "", None, None)])
    + (if before.primaryKey == after.primaryKey then [] else [Change(ChangeKey, "", None, None)])
    + (if before.engine == after.engine then [] else [Change(ChangeEngine, "", None, None)])
    + (if before.destination == after.destination then [] else [Change(ChangeDestination, "", None, None)])
    + (if SameSemantics(before, after) then [] else [Change(ChangeSemantics, "", None, None)])
  }

  function SharedChanges(before: Schema, after: Schema): seq<Change> {
    ResourceChanges(before, after, Labels(Restrict(before.fields, Names(after.fields))),
                    Labels(Restrict(after.fields, Names(before.fields))))
  }

  function Diff(before: Schema, after: Schema): seq<Change> {
    FieldChanges(before.fields, after.fields) + Additions(Names(before.fields), after.fields)
      + SharedChanges(before, after)
  }

  lemma NamesAppend(fields: seq<Field>, f: Field)
    ensures Names(fields + [f]) == Names(fields) + {f.name}
  {
    assert forall i :: 0 <= i < |fields| ==> (fields + [f])[i] == fields[i];
    assert (fields + [f])[|fields|] == f;
  }

  lemma LabelsAppend(fields: seq<Field>, f: Field)
    ensures Labels(fields + [f]) == Labels(fields) + [f.name]
  {}

  method ByName(fields: seq<Field>) returns (m: map<string, Field>)
    ensures m.Keys == Names(fields) && forall n :: n in m ==> At(fields, n) == Some(m[n])
  {
    m := map[];
    for k := 0 to |fields|
      invariant m.Keys == Names(fields[..k]) && forall n :: n in m ==> At(fields[..k], n) == Some(m[n])
    {
      assert fields[..k + 1] == fields[..k] + [fields[k]] && fields[..k + 1][..k] == fields[..k];
      NamesAppend(fields[..k], fields[k]);
      m := m[fields[k].name := fields[k]];
    }
    assert fields[..|fields|] == fields;
  }

  lemma FieldStep(before: seq<Field>, after: seq<Field>, k: nat)
    requires k < |before|
    ensures FieldChanges(before[..k + 1], after) == FieldChanges(before[..k], after) + FieldChange(before[k], after)
  {
    assert before[..k + 1][..k] == before[..k];
  }

  lemma AdditionStep(known: set<string>, after: seq<Field>, k: nat)
    requires k < |after|
    ensures Additions(known, after[..k + 1])
            == Additions(known, after[..k]) + if after[k].name in known then []
              else [Change(AddField, after[k].name, None, Some(after[k]))]
  {
    assert after[..k + 1][..k] == after[..k];
  }

  lemma OrderStep(fields: seq<Field>, names: set<string>, k: nat)
    requires k < |fields|
    ensures Labels(Restrict(fields[..k + 1], names)) ==
              Labels(Restrict(fields[..k], names)) + if fields[k].name in names then [fields[k].name] else []
  {
    assert fields[..k + 1][..k] == fields[..k];
    var kept := Restrict(fields[..k], names);
    LabelsAppend(kept, fields[k]);
    assert kept + [] == kept && Labels(kept) + [] == Labels(kept);
  }

  /** The pass over the old fields. */
  method CompareFields(before: seq<Field>, after: seq<Field>) returns (changes: seq<Change>, order: seq<string>)
    ensures changes == FieldChanges(before, after) && order == Labels(Restrict(before, Names(after)))
  {
    var next := ByName(after);
    changes, order := [], [];
    for k := 0 to |before|
      invariant changes == FieldChanges(before[..k], after) && order == Labels(Restrict(before[..k], Names(after)))
    {
      var f := before[k];
      FieldStep(before, after, k);
      OrderStep(before, Names(after), k);
      if f.name !in next {
        changes := changes + [Change(DropField, f.name, Some(f), None)];
      } else {
        var n := next[f.name];
        order := order + [f.name];
        var found := if SameType(f, n) then [] else [Change(ChangeType, f.name, Some(f), Some(n))];
        changes := changes + (found + if f.nullable == n.nullable then []
                              else [Change(ChangeNullability, f.name, Some(f), Some(n))]);
      }
    }
    assert before[..|before|] == before;
  }

  /** The pass over the new fields. */
  method CompareAdditions(before: seq<Field>, after: seq<Field>) returns (changes: seq<Change>, order: seq<string>)
    ensures changes == Additions(Names(before), after) && order == Labels(Restrict(after, Names(before)))
  {
    var known := ByName(before);
    changes, order := [], [];
    for k := 0 to |after|
      invariant changes == Additions(Names(before), after[..k]) && order == Labels(Restrict(after[..k], Names(before)))
    {
      var f := after[k];
      AdditionStep(Names(before), after, k);
      OrderStep(after, Names(before), k);
      if f.name !in known {
        changes := changes + [Change(AddField, f.name, None, Some(f))];
      } else {
        order := order + [f.name];
      }
    }
    assert after[..|after|] == after;
  }

  /** Compare: none when a layout is invalid or the resources differ, otherwise every difference in order. */
  method Compare(before: Schema, after: Schema) returns (r: Option<seq<Change>>)
    ensures r.Some? <==> Valid(before) && Valid(after) && before.resource == after.resource
    ensures r.Some? ==> r.value == Diff(before, after)
  {
    var ok1 := Validate(before);
    var ok2 := Validate(after);
    if !ok1 || !ok2 || before.resource != after.resource { return None; }
    var changed, oldOrder := CompareFields(before.fields, after.fields);
    var added, newOrder := CompareAdditions(before.fields, after.fields);
    return Some(changed + added + ResourceChanges(before, after, oldOrder, newOrder));
  }

  // ---- policies ----

  predicate Allowed(p: Policy, c: Change) {
    p.NullableAdd? && c.kind.AddField? && c.after.Some? && c.after.value.nullable && !c.after.value.logical.Unknown?
  }

  ghost predicate Accepts(p: Policy, changes: seq<Change>) {
    !p.OtherPolicy? && forall i :: 0 <= i < |changes| ==> Allowed(p, changes[i])
  }

  /** Policy.Check: accepted, or the changes that stand in the way, in order. */
  method Check(p: Policy, changes: seq<Change>) returns (accepted: bool, reasons: seq<Change>)
    ensures accepted == Accepts(p, changes)
    ensures !p.OtherPolicy? ==> (accepted <==> reasons == [])
    ensures forall c :: c in reasons ==> c in changes && !Allowed(p, c)
    ensures !p.OtherPolicy? ==> forall c :: c in changes && !Allowed(p, c) ==> c in reasons
  {
    reasons := [];
    if p.OtherPolicy? { return false, []; }
    for k := 0 to |changes|
      invariant forall c :: c in reasons ==> c in changes && !Allowed(p, c)
      invariant forall i :: 0 <= i < k && !Allowed(p, changes[i]) ==> changes[i] in reasons
    {
      if !Allowed(p, changes[k]) { reasons := reasons + [changes[k]]; }
    }
    assert reasons != [] ==> reasons[0] in changes && !Allowed(p, reasons[0]);
    accepted := reasons == [];
  }

  predicate SameSettings(a: Schema, b: Schema) {
    a.primaryKey == b.primaryKey && a.engine == b.engine && a.destination == b.destination && SameSemantics(a, b)
  }

  ghost predicate AddedWell(known: set<string>, after: seq<Field>) {
    forall i :: 0 <= i < |after| && after[i].name !in known ==> after[i].nullable && !after[i].logical.Unknown?
  }

  /** The old fields survive unchanged and in order; every other field is new, nullable and of a known type. */
  ghost predicate Extends(before: Schema, after: Schema) {
    && Restrict(after.fields, Names(before.fields)) == before.fields
    && AddedWell(Names(before.fields), after.fields) && SameSettings(before, after)
  }

  // ---- what an accepted comparison means ----

  lemma AtDistinct(fields: seq<Field>, f: Field)
    requires DistinctNames(fields) && f in fields
    ensures At(fields, f.name) == Some(f)
  {
    var i :| 0 <= i < |fields| && fields[i] == f;
    assert f.name in Names(fields);
  }

  lemma {:induction false} FieldChangesNone(before: seq<Field>, after: seq<Field>)
    requires DistinctNames(after)
    ensures FieldChanges(before, after) == [] <==> AllIn(before, after)
    ensures forall i :: 0 <= i < |FieldChanges(before, after)| ==> !FieldChanges(before, after)[i].kind.AddField?
  {
    if before != [] {
      var front, f := before[..|before| - 1], before[|before| - 1];
      FieldChangesNone(front, after);
      assert FieldChange(f, after) == [] <==> f in after by {
        if f in after { AtDistinct(after, f); }
      }
      assert AllIn(before, after) <==> AllIn(front, after) && f in after;
    }
  }

  lemma {:induction false} AdditionsAllowed(known: set<string>, after: seq<Field>, p: Policy)
    requires !p.OtherPolicy?
    ensures Additions(known, after) == [] <==> forall i :: 0 <= i < |after| ==> after[i].name in known
    ensures Accepts(p, Additions(known, after)) <==>
              if p.NullableAdd? then AddedWell(known, after) else Additions(known, after) == []
  {
    if after != [] {
      var front, f := after[..|after| - 1], after[|after| - 1];
      AdditionsAllowed(known, front, p);
      assert after == front + [f];
      assert AddedWell(known, after) <==>
        AddedWell(known, front) && (f.name !in known ==> f.nullable && !f.logical.Unknown?);
      var head := Additions(known, front);
      if f.name !in known {
        var added := Change(AddField, f.name, None, Some(f));
        assert Additions(known, after) == head + [added];
        AcceptsAppend(p, head, [added]);
        assert [added][0] == added;
      } else {
        assert Additions(known, after) == head;
      }
    }
  }

  lemma AcceptsAppend(p: Policy, a: seq<Change>, b: seq<Change>)
    ensures Accepts(p, a + b) <==> Accepts(p, a) && Accepts(p, b)
  {
    if Accepts(p, a + b) {
      assert forall i :: 0 <= i < |a| ==> a[i] == (a + b)[i];
      assert forall i :: 0 <= i < |b| ==> b[i] == (a + b)[|a| + i];
    }
  }

  lemma AcceptsNonAdd(p: Policy, a: seq<Change>)
    requires !p.OtherPolicy? && forall i :: 0 <= i < |a| ==> !a[i].kind.AddField?
    ensures Accepts(p, a) <==> a == []
  {
    if a != [] { assert !Allowed(p, a[0]); }
  }

  lemma {:induction false} RestrictAll(fields: seq<Field>, names: set<string>)
    requires forall i :: 0 <= i < |fields| ==> fields[i].name in names
    ensures Restrict(fields, names) == fields
  {
    if fields != [] {
      var front, f := fields[..|fields| - 1], fields[|fields| - 1];
      assert f.name in names;
      RestrictAll(front, names);
      assert fields == front + [f] == Restrict(front, names) + [f];
    }
  }

  /** Fields with the names of the known ones, each found in a layout that holds the known ones, are the known ones. */
  lemma SameFields(known: seq<Field>, kept: seq<Field>, after: seq<Field>)
    requires DistinctNames(after) && Labels(kept) == Labels(known)
    requires forall i :: 0 <= i < |known| ==> known[i] in after
    requires forall f :: f in kept ==> f in after
    ensures kept == known
  {
    forall i | 0 <= i < |known| ensures kept[i] == known[i] {
      assert kept[i] in kept && Labels(kept)[i] == Labels(known)[i];
      AtDistinct(after, kept[i]);
      AtDistinct(after, known[i]);
    }
  }

  ghost predicate AllIn(fields: seq<Field>, all: seq<Field>) { forall i :: 0 <= i < |fields| ==> fields[i] in all }

  predicate SameOrder(before: Schema, after: Schema) {
    Labels(Restrict(before.fields, Names(after.fields))) == Labels(Restrict(after.fields, Names(before.fields)))
  }

  ghost predicate Kept(before: Schema, after: Schema) { Restrict(after.fields, Names(before.fields)) == before.fields }

  /** Keeping every old field and their order is keeping the old fields as a subsequence. */
  lemma KeptExactly(before: Schema, after: Schema)
    requires Valid(before) && Valid(after)
    ensures AllIn(before.fields, after.fields) && SameOrder(before, after) <==> Kept(before, after)
  {
    var kept := Restrict(after.fields, Names(before.fields));
    if AllIn(before.fields, after.fields) {
      InNames(before.fields, after.fields);
      RestrictAll(before.fields, Names(after.fields));
      if Labels(before.fields) == Labels(kept) { SameFields(before.fields, kept, after.fields); }
    }
    assert kept == before.fields ==> AllIn(kept, after.fields);
  }

  lemma InNames(fields: seq<Field>, all: seq<Field>)
    requires forall i :: 0 <= i < |fields| ==> fields[i] in all
    ensures forall i :: 0 <= i < |fields| ==> fields[i].name in Names(all)
  {
    forall i | 0 <= i < |fields| ensures fields[i].name in Names(all) {
      var j :| 0 <= j < |all| && all[j] == fields[i];
    }
  }

  lemma SharedNone(before: Schema, after: Schema)
    ensures SharedChanges(before, after) == [] <==> SameOrder(before, after) && SameSettings(before, after)
    ensures forall i :: 0 <= i < |SharedChanges(before, after)| ==> !SharedChanges(before, after)[i].kind.AddField?
  {}

  /** The parts of a comparison, each accepted on its own. */
  lemma AcceptsParts(p: Policy, before: Schema, after: Schema)
    requires Valid(before) && Valid(after) && !p.OtherPolicy?
    ensures Accepts(p, Diff(before, after)) <==>
              && Kept(before, after) && SameSettings(before, after)
              && Accepts(p, Additions(Names(before.fields), after.fields))
  {
    var fields, added, shared := FieldChanges(before.fields, after.fields),
      Additions(Names(before.fields), after.fields), SharedChanges(before, after);
    AcceptsAppend(p, fields + added, shared);
    AcceptsAppend(p, fields, added);
    FieldChangesNone(before.fields, after.fields);
    SharedNone(before, after);
    AcceptsNonAdd(p, fields);
    AcceptsNonAdd(p, shared);
    KeptExactly(before, after);
  }

  /** A comparison is accepted exactly when nothing changed, or, under nullable addition, when the new layout extends
      the old one. */
  lemma AcceptedExactly(p: Policy, before: Schema, after: Schema)
    requires Valid(before) && Valid(after) && before.resource == after.resource
    ensures Accepts(p, Diff(before, after)) <==> match p
                                                 case Strict => before == after
                                                 case NullableAdd => Extends(before, after)
                                                 case OtherPolicy(_) => false
  {
    if !p.OtherPolicy? {
      AcceptsParts(p, before, after);
      AdditionsAllowed(Names(before.fields), after.fields, p);
      if p.Strict? { UnchangedFields(before, after); }
    }
  }

  lemma UnchangedFields(before: Schema, after: Schema)
    ensures Kept(before, after) && Additions(Names(before.fields), after.fields) == [] <==>
              before.fields == after.fields
  {
    AdditionsAllowed(Names(before.fields), after.fields, Strict);
    if before.fields == after.fields {
      assert forall i :: 0 <= i < |after.fields| ==> after.fields[i].name in Names(after.fields);
    }
    if forall i :: 0 <= i < |after.fields| ==> after.fields[i].name in Names(before.fields) {
      RestrictAll(after.fields, Names(before.fields));
    }
  }

  /** No change is reported exactly when the layouts are equal. */
  lemma NoChangeExactly(before: Schema, after: Schema)
    requires Valid(before) && Valid(after) && before.resource == after.resource
    ensures Diff(before, after) == [] <==> before == after
  {
    AcceptedExactly(Strict, before, after);
    var d := Diff(before, after);
    if d != [] { assert !Allowed(Strict, d[0]); }
  }

  // ---- chains ----

  lemma {:induction false} RestrictTwice(fields: seq<Field>, small: set<string>, large: set<string>)
    requires small <= large
    ensures Restrict(Restrict(fields, large), small) == Restrict(fields, small)
  {
    if fields != [] {
      var front, f := fields[..|fields| - 1], fields[|fields| - 1];
      RestrictTwice(front, small, large);
      var kept := Restrict(front, large);
      assert (kept + [f])[..|kept|] == kept;
      assert kept + [] == kept && Restrict(front, small) + [] == Restrict(front, small);
    }
  }

  lemma ExtendsTransitive(a: Schema, b: Schema, c: Schema)
    requires Extends(a, b) && Extends(b, c)
    ensures Extends(a, c)
  {
    assert forall i :: 0 <= i < |a.fields| ==> a.fields[i] in b.fields by {
      assert forall i :: 0 <= i < |a.fields| ==> a.fields[i] in Restrict(b.fields, Names(a.fields));
    }
    InNames(a.fields, b.fields);
    assert Names(a.fields) <= Names(b.fields);
    RestrictTwice(c.fields, Names(a.fields), Names(b.fields));
    forall i | 0 <= i < |c.fields| && c.fields[i].name !in Names(a.fields)
      ensures c.fields[i].nullable && !c.fields[i].logical.Unknown?
    {
      if c.fields[i].name in Names(b.fields) {
        RestrictKeeps(c.fields, Names(b.fields), i);
        var j :| 0 <= j < |b.fields| && b.fields[j] == c.fields[i];
      }
    }
  }

  lemma {:induction false} RestrictKeeps(fields: seq<Field>, names: set<string>, i: nat)
    requires i < |fields| && fields[i].name in names
    ensures fields[i] in Restrict(fields, names)
  {
    if i < |fields| - 1 { RestrictKeeps(fields[..|fields| - 1], names, i); }
  }

  // ---- message layouts ----

  datatype MessageLayout = MessageLayout(raw: bool, fields: seq<Field>)

  type Layouts = map<string, MessageLayout>

  function Payload(resource: string, m: MessageLayout): Schema { Schema(resource, "", m.fields, [], "", false, false) }

  predicate MessageField(raw: bool, f: Field) {
    && !IsReserved(f.name) && f.nullable && f.native == "" && f.precision == 0 && f.scale == 0
    && if raw then f.name == "payload" && f.logical.Bytes? else f.logical.String? || f.logical.Bool? || f.logical.JSON?
  }

  ghost predicate ValidLayout(m: MessageLayout) {
    && Valid(Payload("", m))
    && (forall i :: 0 <= i < |m.fields| ==> MessageField(m.raw, m.fields[i]))
    && (forall i, j :: 0 <= i < j < |m.fields| ==> Lower(m.fields[i].name) != Lower(m.fields[j].name))
    && (m.raw ==> |m.fields| == 1)
  }

  method ValidateLayout(m: MessageLayout) returns (ok: bool)
    ensures ok == ValidLayout(m)
  {
    var valid := Validate(Payload("", m));
    if !valid { return false; }
    var seen: set<string> := {};
    for k := 0 to |m.fields|
      invariant seen == set i | 0 <= i < k :: Lower(m.fields[i].name)
      invariant forall i :: 0 <= i < k ==> MessageField(m.raw, m.fields[i]) && (m.raw ==> |m.fields| == 1)
      invariant forall i, j :: 0 <= i < j < k ==> Lower(m.fields[i].name) != Lower(m.fields[j].name)
    {
      var name := Lower(m.fields[k].name);
      if name in seen || !MessageField(m.raw, m.fields[k]) || (m.raw && |m.fields| != 1) { return false; }
      seen := seen + {name};
    }
    return !m.raw || |m.fields| == 1;
  }

  /** CheckMessageChange. */
  ghost predicate MessageChangeOk(resource: string, before: MessageLayout, after: MessageLayout, p: Policy) {
    && ValidLayout(before) && ValidLayout(after) && before.raw == after.raw
    && Accepts(p, Diff(Payload(resource, before), Payload(resource, after)))
  }

  method CheckMessageChange(resource: string, before: MessageLayout, after: MessageLayout, p: Policy) returns (ok: bool)
    ensures ok == MessageChangeOk(resource, before, after, p)
  {
    var ok1 := ValidateLayout(before);
    var ok2 := ValidateLayout(after);
    if !ok1 || !ok2 || before.raw != after.raw { return false; }
    var changes := Compare(Payload(resource, before), Payload(resource, after));
    var accepted, _ := Check(p, changes.value);
    return accepted;
  }

  ghost predicate AllValid(layouts: Layouts) { forall r :: r in layouts ==> r != "" && ValidLayout(layouts[r]) }

  ghost predicate Carries(before: Layouts, after: Layouts, r: string)
    requires r in before
  {
    r in after && MessageChangeOk(r, before[r], after[r], NullableAdd)
  }

  /** What CheckMessageLayouts accepts. */
  ghost predicate LayoutsOk(before: Layouts, after: Layouts) {
    AllValid(after) && forall r :: r in before ==> Carries(before, after, r)
  }

  method ValidateAll(layouts: Layouts) returns (ok: bool)
    ensures ok == AllValid(layouts)
  {
    var todo := layouts.Keys;
    while todo != {}
      invariant todo <= layouts.Keys && forall r :: r in layouts && r !in todo ==> r != "" && ValidLayout(layouts[r])
      decreases |todo|
    {
      var r :| r in todo;
      todo := todo - {r};
      var valid := ValidateLayout(layouts[r]);
      if r == "" || !valid { return false; }
    }
    return true;
  }

  /** CheckMessageLayouts: the order in which the two maps are visited does not matter. */
  method CheckMessageLayouts(before: Layouts, after: Layouts) returns (ok: bool)
    ensures ok == LayoutsOk(before, after)
  {
    var valid := ValidateAll(after);
    if !valid { return false; }
    var todo := before.Keys;
    while todo != {}
      invariant todo <= before.Keys && forall r :: r in before && r !in todo ==> Carries(before, after, r)
      decreases |todo|
    {
      var r :| r in todo;
      todo := todo - {r};
      if r !in after { return false; }
      var compatible := CheckMessageChange(r, before[r], after[r], NullableAdd);
      if !compatible { return false; }
    }
    return true;
  }

  /** A resource is still there, in the same representation, its fields unchanged and in order. */
  ghost predicate SurvivesAt(first: Layouts, last: Layouts, r: string)
    requires r in first
  {
    r in last && first[r].raw == last[r].raw && Extends(Payload(r, first[r]), Payload(r, last[r]))
  }

  ghost predicate Survives(first: Layouts, last: Layouts) { forall r :: r in first ==> SurvivesAt(first, last, r) }

  lemma CarriesExactly(before: Layouts, after: Layouts, r: string)
    requires r in before
    ensures Carries(before, after, r) <==>
              r in after && ValidLayout(before[r]) && ValidLayout(after[r]) && SurvivesAt(before, after, r)
  {
    if r in after && ValidLayout(before[r]) && ValidLayout(after[r]) {
      AcceptedExactly(NullableAdd, Payload(r, before[r]), Payload(r, after[r]));
    }
  }

  lemma CarriesTransitive(a: Layouts, b: Layouts, c: Layouts, r: string)
    requires r in a && Carries(a, b, r) && Carries(b, c, r)
    ensures Carries(a, c, r)
  {
    CarriesExactly(a, b, r);
    CarriesExactly(b, c, r);
    ExtendsTransitive(Payload(r, a[r]), Payload(r, b[r]), Payload(r, c[r]));
    CarriesExactly(a, c, r);
  }

  /** Each epoch's layouts were checked against the ones before. */
  ghost predicate Chain(epochs: seq<Layouts>) {
    forall i {:trigger epochs[i]} :: 0 < i < |epochs| ==> LayoutsOk(epochs[i - 1], epochs[i])
  }

  lemma {:induction false} ChainOk(epochs: seq<Layouts>, n: nat)
    requires Chain(epochs) && 0 < n < |epochs|
    ensures LayoutsOk(epochs[0], epochs[n])
  {
    assert LayoutsOk(epochs[n - 1], epochs[n]);
    if n > 1 {
      ChainOk(epochs, n - 1);
      forall r | r in epochs[0] ensures Carries(epochs[0], epochs[n], r) {
        CarriesTransitive(epochs[0], epochs[n - 1], epochs[n], r);
      }
    }
  }

  /** Across any chain of accepted epochs the first layouts survive in every later one, and the direct check accepts the
      pair. */
  lemma ChainSurvives(epochs: seq<Layouts>, n: nat)
    requires Chain(epochs) && 0 < n < |epochs|
    ensures LayoutsOk(epochs[0], epochs[n]) && Survives(epochs[0], epochs[n])
  {
    ChainOk(epochs, n);
    forall r | r in epochs[0] ensures SurvivesAt(epochs[0], epochs[n], r) {
      CarriesExactly(epochs[0], epochs[n], r);
    }
  }
}
