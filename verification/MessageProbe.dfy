/** Inferring and extending a message layout from a whole batch of payloads before any row is encoded. */
module MessageProbe {
  import opened RowModel
  import opened Order
  import opened SchemaEvolution

  /** A decoded member value; numbers, arrays and objects are kept as JSON text. */
  datatype Value = NullValue | StringValue | BoolValue | OtherValue

  /** A message body: absent, not a JSON object, an object, or an object that repeats a member name. */
  datatype Payload = Absent | Opaque | Object(members: map<string, Value>) | Duplicated

  function MessageType(v: Value): Logical {
    match v
    case NullValue => JSON
    case StringValue => String
    case BoolValue => Bool
    case OtherValue => JSON
  }

  function MessageColumn(name: string, t: Logical): Field { Field(name, true, t, "", 0, 0) }

  // ---- observed types ----

  ghost function Observed(payloads: seq<Payload>, name: string): set<Logical> {
    set i | 0 <= i < |payloads| && payloads[i].Object? && name in payloads[i].members ::
      MessageType(payloads[i].members[name])
  }

  /** The least type that holds all the given ones: a type on its own, JSON above any two. */
  ghost function Least(types: set<Logical>): Logical {
    if exists t :: types == {t} then var t :| types == {t}; t else JSON
  }

  predicate Below(a: Logical, b: Logical) { a == b || b.JSON? }

  /** Least is an upper bound, and below every other upper bound. */
  lemma LeastUpperBound(types: set<Logical>, other: Logical)
    requires types != {}
    ensures forall t :: t in types ==> Below(t, Least(types))
    ensures (forall t :: t in types ==> Below(t, other)) ==> Below(Least(types), other)
  {
    var a :| a in types;
    if types == {a} {
      assert Least(types) == a;
    } else {
      assert exists b :: b in types && b != a;
      var b :| b in types && b != a;
      assert forall t :: types == {t} ==> a in {t} && b in {t};
    }
  }

  lemma LeastOne(t: Logical)
    ensures Least({t}) == t
  {
    assert forall u :: {t} == {u} ==> t in {u};
  }

  lemma LeastAdd(types: set<Logical>, t: Logical)
    requires types != {}
    ensures Least(types + {t}) == if Least(types) == t then t else JSON
  {
    var a :| a in types;
    if types == {a} {
      LeastOne(a);
      if a == t {
        assert types + {t} == types;
      } else {
        assert forall u :: types + {t} == {u} ==> a in {u} && t in {u};
      }
    } else {
      assert exists b :: b in types && b != a;
      var b :| b in types && b != a;
      assert forall u :: types + {t} == {u} ==> a in {u} && b in {u};
      assert forall u :: types == {u} ==> a in {u} && b in {u};
    }
  }

  // ---- encoding a payload ----

  ghost predicate FieldFits(f: Field, members: map<string, Value>) {
    f.name in members && !members[f.name].NullValue? ==> f.logical.JSON? || MessageType(members[f.name]) == f.logical
  }

  /** Prepare succeeds: raw layouts take anything but objects; decoded ones take tombstones, and objects whose members
      are all columns and, unless null, of the column's type. */
  ghost predicate Encodes(m: MessageLayout, p: Payload) {
    if m.raw then p.Absent? || p.Opaque?
    else
      || p.Absent?
      || (p.Object? && (forall i :: 0 <= i < |m.fields| ==> FieldFits(m.fields[i], p.members))
          && p.members.Keys <= Names(m.fields))
  }

  method Prepare(m: MessageLayout, p: Payload) returns (ok: bool)
    ensures ok == Encodes(m, p)
  {
    if p.Duplicated? { return false; }
    if m.raw { return !p.Object?; }
    if p.Opaque? { return false; }
    if p.Absent? { return true; }
    var known: set<string> := {};
    for k := 0 to |m.fields|
      invariant known == Names(m.fields[..k])
      invariant forall i :: 0 <= i < k ==> FieldFits(m.fields[i], p.members)
    {
      var f := m.fields[k];
      NamesAppend(m.fields[..k], f);
      assert m.fields[..k + 1] == m.fields[..k] + [f];
      known := known + {f.name};
      if f.name in p.members && !p.members[f.name].NullValue? && !f.logical.JSON?
        && MessageType(p.members[f.name]) != f.logical {
        return false;
      }
    }
    assert m.fields[..|m.fields|] == m.fields;
    return p.members.Keys <= known;
  }

  // ---- restoring and inferring layouts ----

  function LowerNames(fields: seq<Field>): set<string> { set i | 0 <= i < |fields| :: Lower(fields[i].name) }

  ghost predicate NoReserved(fields: seq<Field>) { forall i :: 0 <= i < |fields| ==> !IsReserved(fields[i].name) }

  /** RestoreMessageColumns succeeds: a valid layout, no collision with the transport's columns, room for event
      metadata. */
  ghost predicate Restorable(base: Schema, m: MessageLayout) {
    && ValidLayout(m) && !base.envelope && !base.projectedEnvelope && NoReserved(base.fields)
    && forall i :: 0 <= i < |m.fields| ==> Lower(m.fields[i].name) !in LowerNames(base.fields)
  }

  method Restore(base: Schema, m: MessageLayout) returns (ok: bool)
    ensures ok == Restorable(base, m)
  {
    var valid := ValidateLayout(m);
    if !valid { return false; }
    var occupied := LowerNames(base.fields);
    for k := 0 to |m.fields|
      invariant forall i :: 0 <= i < k ==> Lower(m.fields[i].name) !in occupied
    {
      if Lower(m.fields[k].name) in occupied { return false; }
    }
    ok := TakesMetadata(base);
  }

  /** Whether event metadata columns may follow the transport's and the message's own. */
  method TakesMetadata(base: Schema) returns (ok: bool)
    ensures ok == (!base.envelope && !base.projectedEnvelope && NoReserved(base.fields))
  {
    if base.envelope || base.projectedEnvelope { return false; }
    for k := 0 to |base.fields|
      invariant forall i :: 0 <= i < k ==> !IsReserved(base.fields[i].name)
    {
      if IsReserved(base.fields[k].name) { return false; }
    }
    return true;
  }

  function Inferred(names: seq<string>, members: map<string, Value>): (r: seq<Field>)
    requires forall n :: n in names ==> n in members
    ensures |r| == |names|
  {
    seq(|names|, i requires 0 <= i < |names| => MessageColumn(names[i], MessageType(members[names[i]])))
  }

  /** What the first payload of a resource suggests; whether it is usable is decided by restoring it. */
  function Suggested(p: Payload): MessageLayout {
    if p.Object? then
      assert forall n :: n in SortedKeys(p.members.Keys) ==> n in p.members;
      MessageLayout(false, Inferred(SortedKeys(p.members.Keys), p.members))
    else MessageLayout(true, [MessageColumn("payload", Bytes)])
  }

  // ---- additions ----

  ghost function NewNames(payloads: seq<Payload>, known: set<string>): set<string> {
    set i, n | 0 <= i < |payloads| && payloads[i].Object? && n in payloads[i].members && n !in known :: n
  }

  /** The fields observed beyond the known ones, by name, each of the least type that holds what was observed. */
  ghost function AdditionsOf(payloads: seq<Payload>, known: set<string>): (r: seq<Field>) {
    var names := SortedKeys(NewNames(payloads, known));
    seq(|names|, i requires 0 <= i < |names| => MessageColumn(names[i], Least(Observed(payloads, names[i]))))
  }

  ghost predicate Gathered(payloads: seq<Payload>, known: set<string>, found: map<string, Logical>) {
    found.Keys == NewNames(payloads, known) && forall n :: n in found ==> found[n] == Least(Observed(payloads, n))
  }

  /** The types found so far with one more object's members. */
  ghost predicate Joined(found: map<string, Logical>, known: set<string>, members: map<string, Value>,
      more: map<string, Logical>)
  {
    && (forall n :: n in more <==> n in found || (n in members && n !in known))
    && (forall n :: n in more && n !in members ==> n in found && more[n] == found[n])
    && (forall n :: n in members && n !in known ==>
          more[n] == if n in found && found[n] != MessageType(members[n]) then JSON else MessageType(members[n]))
  }

  /** Visits the members in any order. */
  method Merge(found: map<string, Logical>, known: set<string>, members: map<string, Value>)
    returns (more: map<string, Logical>)
    requires forall n :: n in found ==> n !in known
    ensures Joined(found, known, members, more)
  {
    more := found;
    var todo := members.Keys;
    while todo != {}
      invariant todo <= members.Keys
      invariant forall n :: n in more <==> n in found || (n in members && n !in todo && n !in known)
      invariant forall n :: n in more && (n !in members || n in todo) ==> n in found && more[n] == found[n]
      invariant forall n :: n in members && n !in todo && n !in known ==>
                  more[n] == if n in found && found[n] != MessageType(members[n]) then JSON else MessageType(members[n])
      decreases |todo|
    {
      var n :| n in todo;
      todo := todo - {n};
      if n !in known {
        var t := MessageType(members[n]);
        if n in more && more[n] != t { t := JSON; }
        more := more[n := t];
      }
    }
  }

  lemma ObservedMore(payloads: seq<Payload>, p: Payload, n: string)
    ensures Observed(payloads + [p], n) ==
              Observed(payloads, n) + if p.Object? && n in p.members then {MessageType(p.members[n])} else {}
  {
    var more := payloads + [p];
    assert more[|payloads|] == p && forall i :: 0 <= i < |payloads| ==> more[i] == payloads[i];
  }

  lemma NewNamesMore(payloads: seq<Payload>, p: Payload, known: set<string>)
    ensures NewNames(payloads + [p], known) ==
              NewNames(payloads, known) + if p.Object? then p.members.Keys - known else {}
  {
    var more := payloads + [p];
    assert more[|payloads|] == p && forall i :: 0 <= i < |payloads| ==> more[i] == payloads[i];
  }

  lemma SeenObserved(payloads: seq<Payload>, known: set<string>, n: string)
    requires n !in known
    ensures n in NewNames(payloads, known) <==> Observed(payloads, n) != {}
  {
    if n in NewNames(payloads, known) {
      var i :| 0 <= i < |payloads| && payloads[i].Object? && n in payloads[i].members;
      assert MessageType(payloads[i].members[n]) in Observed(payloads, n);
    }
    if Observed(payloads, n) != {} { var t :| t in Observed(payloads, n); }
  }

  lemma GatheredMore(payloads: seq<Payload>, p: Payload, known: set<string>, found: map<string, Logical>,
      more: map<string, Logical>)
    requires Gathered(payloads, known, found)
    requires if p.Object? then Joined(found, known, p.members, more) else more == found
    ensures Gathered(payloads + [p], known, more)
  {
    NewNamesMore(payloads, p, known);
    assert forall n :: n in NewNames(payloads, known) ==> n !in known;
    forall n | n in more ensures more[n] == Least(Observed(payloads + [p], n)) {
      ObservedMore(payloads, p, n);
      SeenObserved(payloads, known, n);
      if p.Object? && n in p.members {
        var t := MessageType(p.members[n]);
        if n in found {
          LeastAdd(Observed(payloads, n), t);
        } else {
          assert Observed(payloads, n) + {t} == {t};
          LeastOne(t);
        }
      }
    }
  }

  /** The loop over the batch; none when a payload repeats a member name. */
  method Gather(payloads: seq<Payload>, known: set<string>, raw: bool) returns (found: Option<map<string, Logical>>)
    ensures found.Some? <==> NoDuplicates(payloads)
    ensures found.Some? && !raw ==> Gathered(payloads, known, found.value)
    ensures found.Some? && raw ==> found.value == map[]
  {
    var all: map<string, Logical> := map[];
    for k := 0 to |payloads|
      invariant forall i :: 0 <= i < k ==> !payloads[i].Duplicated?
      invariant if raw then all == map[] else Gathered(payloads[..k], known, all)
    {
      var p := payloads[k];
      if p.Duplicated? { return None; }
      assert payloads[..k + 1] == payloads[..k] + [p];
      if !raw {
        var more := all;
        if p.Object? { more := Merge(all, known, p.members); }
        GatheredMore(payloads[..k], p, known, all, more);
        all := more;
      }
    }
    assert payloads[..|payloads|] == payloads;
    return Some(all);
  }

  // ---- the probe ----

  function Start(accepted: Option<MessageLayout>, first: Payload): MessageLayout {
    if accepted.Some? then accepted.value else Suggested(first)
  }

  /** The layout a successful probe returns. */
  ghost function Candidate(start: MessageLayout, payloads: seq<Payload>): MessageLayout {
    if start.raw then start else start.(fields := start.fields + AdditionsOf(payloads, Names(start.fields)))
  }

  ghost predicate NoDuplicates(payloads: seq<Payload>) { forall i :: 0 <= i < |payloads| ==> !payloads[i].Duplicated? }

  ghost predicate AllEncode(m: MessageLayout, payloads: seq<Payload>) {
    forall i :: 0 <= i < |payloads| ==> Encodes(m, payloads[i])
  }

  /** When a probe succeeds. */
  ghost predicate Accepted(base: Schema, accepted: Option<MessageLayout>, payloads: seq<Payload>, policy: Policy) {
    && !policy.OtherPolicy? && payloads != [] && NoDuplicates(payloads)
    && var candidate := Candidate(Start(accepted, payloads[0]), payloads);
       && Restorable(base, candidate) && AllEncode(candidate, payloads)
       && (accepted.Some? ==> MessageChangeOk(base.resource, accepted.value, candidate, policy))
  }

  /** What a layout starts with is a layout, and restorable if the whole is. */
  lemma RestorablePrefix(base: Schema, start: MessageLayout, payloads: seq<Payload>)
    requires Restorable(base, Candidate(start, payloads))
    ensures Restorable(base, start)
  {
    var m := Candidate(start, payloads);
    if !start.raw { assert forall i :: 0 <= i < |start.fields| ==> start.fields[i] == m.fields[i]; }
  }

  /** The fields, then the found ones by name. */
  ghost predicate Appended(fields: seq<Field>, found: map<string, Logical>, r: seq<Field>) {
    var names := SortedKeys(found.Keys);
    && |r| == |fields| + |names| && r[..|fields|] == fields
    && forall i :: 0 <= i < |names| ==> names[i] in found && r[|fields| + i] == MessageColumn(names[i], found[names[i]])
  }

  method AppendFields(fields: seq<Field>, found: map<string, Logical>) returns (r: seq<Field>)
    ensures Appended(fields, found, r)
  {
    var names := SortedKeys(found.Keys);
    r := fields;
    for k := 0 to |names|
      invariant |r| == |fields| + k && r[..|fields|] == fields
      invariant forall i :: 0 <= i < k ==>
                  names[i] in found && r[|fields| + i] == MessageColumn(names[i], found[names[i]])
    {
      assert names[k] in names;
      r := r + [MessageColumn(names[k], found[names[k]])];
    }
  }

  lemma CandidateFields(start: MessageLayout, payloads: seq<Payload>, found: map<string, Logical>, fields: seq<Field>)
    requires !start.raw && Gathered(payloads, Names(start.fields), found) && Appended(start.fields, found, fields)
    ensures Candidate(start, payloads) == start.(fields := fields)
  {
    var added := AdditionsOf(payloads, Names(start.fields));
    forall i | 0 <= i < |added| ensures added[i] == fields[|start.fields| + i] {}
    assert fields == fields[..|start.fields|] + fields[|start.fields|..];
    assert fields[|start.fields|..] == added;
  }

  method PrepareAll(m: MessageLayout, payloads: seq<Payload>) returns (ok: bool)
    ensures ok == AllEncode(m, payloads)
  {
    for k := 0 to |payloads|
      invariant forall i :: 0 <= i < k ==> Encodes(m, payloads[i])
    {
      var one := Prepare(m, payloads[k]);
      if !one { return false; }
    }
    return true;
  }

  /** The first payload's layout, checked as NewMessageColumns does; what it leaves to a later check is left there. */
  method Infer(base: Schema, p: Payload) returns (m: Option<MessageLayout>)
    ensures m.Some? ==> m.value == Suggested(p) && !p.Duplicated?
    ensures !p.Duplicated? && Restorable(base, Suggested(p)) ==> m.Some?
  {
    if p.Duplicated? { return None; }
    var suggested := Suggested(p);
    var occupied := LowerNames(base.fields);
    if p.Object? {
      for k := 0 to |suggested.fields|
        invariant occupied == LowerNames(base.fields) + set i | 0 <= i < k :: Lower(suggested.fields[i].name)
      {
        var lower := Lower(suggested.fields[k].name);
        if suggested.fields[k].name == "" || IsReserved(suggested.fields[k].name) || lower in occupied { return None; }
        occupied := occupied + {lower};
      }
    }
    var takes := TakesMetadata(base);
    return if takes then Some(suggested) else None;
  }

  /** The starting layout: the accepted one restored, or one inferred from the first payload. */
  method FirstLayout(base: Schema, accepted: Option<MessageLayout>, p: Payload) returns (ok: bool)
    ensures accepted.Some? ==> ok == Restorable(base, accepted.value)
    ensures Restorable(base, Start(accepted, p)) && !p.Duplicated? ==> ok
  {
    if accepted.Some? {
      ok := Restore(base, accepted.value);
    } else {
      var inferred := Infer(base, p);
      ok := inferred.Some?;
    }
  }

  method Extend(start: MessageLayout, payloads: seq<Payload>) returns (m: Option<MessageLayout>)
    ensures m.Some? <==> NoDuplicates(payloads)
    ensures m.Some? ==> m.value == Candidate(start, payloads)
  {
    var found := Gather(payloads, Names(start.fields), start.raw);
    if found.None? { return None; }
    if start.raw { return Some(start); }
    var fields := AppendFields(start.fields, found.value);
    CandidateFields(start, payloads, found.value, fields);
    return Some(start.(fields := fields));
  }

  /** ProbeMessageBatch: succeeds exactly when the batch is acceptable, with the candidate layout. */
  method ProbeMessageBatch(base: Schema, accepted: Option<MessageLayout>, payloads: seq<Payload>, policy: Policy)
    returns (r: Option<MessageLayout>)
    ensures r.Some? <==> Accepted(base, accepted, payloads, policy)
    ensures r.Some? ==> r.value == Candidate(Start(accepted, payloads[0]), payloads)
  {
    if policy.OtherPolicy? || payloads == [] { return None; }
    var start := Start(accepted, payloads[0]);
    var ready := FirstLayout(base, accepted, payloads[0]);
    if !ready {
      if Restorable(base, Candidate(start, payloads)) { RestorablePrefix(base, start, payloads); }
      return None;
    }
    var candidate := Extend(start, payloads);
    if candidate.None? { return None; }
    var restored := Restore(base, candidate.value);
    if !restored { return None; }
    if accepted.Some? {
      var compatible := CheckMessageChange(base.resource, accepted.value, candidate.value, policy);
      if !compatible { return None; }
    }
    var encodes := PrepareAll(candidate.value, payloads);
    return if encodes then candidate else None;
  }

  // ---- what a successful probe promises ----

  /** A payload the starting layout does not refuse by itself: no object where it is raw, no opaque body where it is
      decoded, and no member of another type than the column already known for it. */
  ghost predicate FitsKnown(start: MessageLayout, p: Payload) {
    if start.raw then p.Absent? || p.Opaque?
    else p.Absent? || (p.Object? && forall i :: 0 <= i < |start.fields| ==> FieldFits(start.fields[i], p.members))
  }

  lemma AddedNames(start: MessageLayout, payloads: seq<Payload>, i: nat)
    requires !start.raw && i < |payloads| && payloads[i].Object?
    ensures payloads[i].members.Keys <= Names(Candidate(start, payloads).fields)
  {
    var known, fields := Names(start.fields), Candidate(start, payloads).fields;
    var names := SortedKeys(NewNames(payloads, known));
    forall n | n in payloads[i].members ensures n in Names(fields) {
      if n in known {
        var j :| 0 <= j < |start.fields| && start.fields[j].name == n;
        assert fields[j] == start.fields[j];
      } else {
        assert n in NewNames(payloads, known) && n in names;
        var j :| 0 <= j < |names| && names[j] == n;
        assert fields[|start.fields| + j] == AdditionsOf(payloads, known)[j];
      }
    }
  }

  lemma AddedFits(start: MessageLayout, payloads: seq<Payload>, i: nat, j: nat)
    requires !start.raw && i < |payloads| && payloads[i].Object?
    requires |start.fields| <= j < |Candidate(start, payloads).fields|
    ensures FieldFits(Candidate(start, payloads).fields[j], payloads[i].members)
  {
    var f := Candidate(start, payloads).fields[j];
    AddedLeast(start, payloads, j, JSON);
    if f.name in payloads[i].members { assert MessageType(payloads[i].members[f.name]) in Observed(payloads, f.name); }
  }

  /** What is added always encodes: a payload of the batch is refused by the candidate exactly when the starting layout
      refuses it. */
  lemma AdditionsEncode(start: MessageLayout, payloads: seq<Payload>, i: nat)
    requires i < |payloads|
    ensures Encodes(Candidate(start, payloads), payloads[i]) <==> FitsKnown(start, payloads[i])
  {
    var m, p := Candidate(start, payloads), payloads[i];
    if !start.raw && p.Object? {
      assert forall j :: 0 <= j < |start.fields| ==> m.fields[j] == start.fields[j];
      forall j | |start.fields| <= j < |m.fields| ensures FieldFits(m.fields[j], p.members) {
        AddedFits(start, payloads, i, j);
      }
      AddedNames(start, payloads, i);
    }
  }

  /** A probe succeeds exactly when the candidate can be restored and is an allowed change, and the starting layout
      refuses no payload; nothing that was added is ever a reason to refuse. */
  lemma AcceptedExactly(base: Schema, accepted: Option<MessageLayout>, payloads: seq<Payload>, policy: Policy)
    ensures Accepted(base, accepted, payloads, policy) <==>
              && !policy.OtherPolicy? && payloads != [] && NoDuplicates(payloads)
              && var start := Start(accepted, payloads[0]);
                 && Restorable(base, Candidate(start, payloads))
                 && (forall i :: 0 <= i < |payloads| ==> FitsKnown(start, payloads[i]))
                 && (accepted.Some? ==> MessageChangeOk(base.resource, accepted.value, Candidate(start, payloads),
                                                        policy))
  {
    if payloads != [] {
      var start := Start(accepted, payloads[0]);
      forall i | 0 <= i < |payloads|
        ensures Encodes(Candidate(start, payloads), payloads[i]) <==> FitsKnown(start, payloads[i])
      {
        AdditionsEncode(start, payloads, i);
      }
    }
  }

  /** Every payload can be encoded, every member of every object is a column, and an accepted layout is a prefix. */
  lemma ProbeCovers(base: Schema, accepted: Option<MessageLayout>, payloads: seq<Payload>, policy: Policy)
    requires Accepted(base, accepted, payloads, policy)
    ensures var m := Candidate(Start(accepted, payloads[0]), payloads);
            && AllEncode(m, payloads)
            && (forall i, n :: 0 <= i < |payloads| && payloads[i].Object? && n in payloads[i].members ==>
                n in Names(m.fields))
            && (accepted.Some? ==> accepted.value.raw == m.raw && accepted.value.fields <= m.fields)
  {
    var m := Candidate(Start(accepted, payloads[0]), payloads);
    forall i, n | 0 <= i < |payloads| && payloads[i].Object? && n in payloads[i].members ensures n in Names(m.fields) {
      assert Encodes(m, payloads[i]);
    }
  }

  /** A field that was added has the least upper bound of the types observed for it in the batch. */
  lemma AddedLeast(start: MessageLayout, payloads: seq<Payload>, j: nat, other: Logical)
    requires !start.raw && |start.fields| <= j < |Candidate(start, payloads).fields|
    ensures var f := Candidate(start, payloads).fields[j];
            && f.nullable && f.name !in Names(start.fields) && Observed(payloads, f.name) != {}
            && (forall t :: t in Observed(payloads, f.name) ==> Below(t, f.logical))
            && ((forall t :: t in Observed(payloads, f.name) ==> Below(t, other)) ==> Below(f.logical, other))
  {
    var known := Names(start.fields);
    var names := SortedKeys(NewNames(payloads, known));
    var f := Candidate(start, payloads).fields[j];
    assert f == AdditionsOf(payloads, known)[j - |start.fields|];
    assert f.name == names[j - |start.fields|] && f.name in names;
    SeenObserved(payloads, known, f.name);
    LeastUpperBound(Observed(payloads, f.name), other);
  }

  /** Given an accepted layout, the order of the payloads, and how often one occurs, changes nothing. */
  lemma OrderIndependent(start: MessageLayout, a: seq<Payload>, b: seq<Payload>)
    requires forall p :: p in a <==> p in b
    ensures Candidate(start, a) == Candidate(start, b)
  {
    var known := Names(start.fields);
    forall n ensures Observed(a, n) == Observed(b, n) {
      SameObserved(a, b, n);
      SameObserved(b, a, n);
    }
    SameNewNames(a, b, known);
    SameNewNames(b, a, known);
    assert NewNames(a, known) == NewNames(b, known);
    var x, y := AdditionsOf(a, known), AdditionsOf(b, known);
    assert forall i :: 0 <= i < |x| ==> x[i] == y[i];
  }

  lemma SameObserved(a: seq<Payload>, b: seq<Payload>, n: string)
    requires forall p :: p in a ==> p in b
    ensures Observed(a, n) <= Observed(b, n)
  {
    forall t | t in Observed(a, n) ensures t in Observed(b, n) {
      var i :| 0 <= i < |a| && a[i].Object? && n in a[i].members && MessageType(a[i].members[n]) == t;
      assert a[i] in b;
      var j :| 0 <= j < |b| && b[j] == a[i];
    }
  }

  lemma SameNewNames(a: seq<Payload>, b: seq<Payload>, known: set<string>)
    requires forall p :: p in a ==> p in b
    ensures NewNames(a, known) <= NewNames(b, known)
  {
    forall n | n in NewNames(a, known) ensures n in NewNames(b, known) {
      var i :| 0 <= i < |a| && a[i].Object? && n in a[i].members && n !in known;
      assert a[i] in b;
      var j :| 0 <= j < |b| && b[j] == a[i];
    }
  }
}
