/**
  The destination sessions of a continuous run. A sink instance is a number; every call on one is an event, and an
  observer that knows nothing of the session's fields judges the list of events.
 */
module SinkSession {
  import opened RowModel
  import opened Epochs
  import opened Certificates
  import opened EpochCommit
  import EpochPipeline

  /** A report that a batch was written, tagged with the epoch of the batch. */
  datatype Fact = Fact(ref: EpochRef, batch: EpochPipeline.Applied)

  datatype Event =
    | Created(instance: nat)
    | OpenCall(instance: nat, ok: bool)
    | EnsureCall(instance: nat, name: string, model: Schema, ok: bool)
    | BeginCall(instance: nat, ok: bool)
    | CommitCall(instance: nat, ok: bool)
    | AbortCall(instance: nat, ok: bool)
    | CloseCall(instance: nat, ok: bool)
    | SchemaEnsured(name: string, model: Schema)
    | EpochBegun(ref: EpochRef)
    | Sealed(completion: EpochPipeline.Completion)
    | Validated(commit: Commit)
    | EpochCommitted(ref: EpochRef)
    | EpochAborted(ref: EpochRef)
    | Certified(own: Certificate, stored: Certificate)
    | Published(fact: Fact)
    | CheckpointSaved(ref: EpochRef, resource: Resource)
    | Renewed(ok: bool)
    | Acknowledged(ref: EpochRef, coverage: Coverage)

  // ---- the observer ----

  datatype Instance = Instance(wasOpened: bool, closed: bool, begins: nat, writing: bool, schemas: map<string, Schema>)

  datatype Watched = Watched(instances: map<nat, Instance>, ensured: map<string, Schema>, closeFailed: bool)

  ghost predicate Covers(schemas: map<string, Schema>, ensured: map<string, Schema>) {
    forall n :: n in ensured ==> n in schemas && schemas[n] == ensured[n]
  }

  predicate Live(w: Watched, i: nat) { i in w.instances && w.instances[i].wasOpened && !w.instances[i].closed }

  function With(w: Watched, i: nat, x: Instance): Watched { w.(instances := w.instances[i := x]) }

  /**
    The calls a sink may see. An instance is opened once and closed once, and not in the middle of a write. A write
    begins only on a live instance that has every schema ensured so far, never after a close error, and at most once
    per instance unless sessions are reusable. A write ends with one successful Commit or one Abort.
   */
  ghost predicate Permitted(reusable: bool, w: Watched, e: Event) {
    match e
    case Created(i) => i !in w.instances
    case OpenCall(i, _) => i in w.instances && !w.instances[i].wasOpened && !w.instances[i].closed
    case EnsureCall(i, _, _, _) => Live(w, i)
    case BeginCall(i, _) =>
      && Live(w, i) && !w.instances[i].writing && (reusable || w.instances[i].begins == 0)
      && !w.closeFailed && Covers(w.instances[i].schemas, w.ensured)
    case CommitCall(i, _) => Live(w, i) && w.instances[i].writing
    case AbortCall(i, _) => Live(w, i) && w.instances[i].writing
    case CloseCall(i, _) => i in w.instances && !w.instances[i].closed && !w.instances[i].writing
    case _ => true
  }

  predicate IsCall(e: Event) {
    e.Created? || e.OpenCall? || e.EnsureCall? || e.BeginCall? || e.CommitCall? || e.AbortCall? || e.CloseCall?
  }

  function Before(w: Watched, i: nat): Instance {
    if i in w.instances then w.instances[i] else Instance(false, false, 0, false, map[])
  }

  /** What a call does to the instance it is made on. */
  function Changed(x: Instance, e: Event): Instance {
    match e
    case OpenCall(_, _) => x.(wasOpened := true)
    case EnsureCall(_, n, model, true) => WithSchema(x, n, model)
    case BeginCall(_, ok) => x.(begins := x.begins + 1, writing := ok)
    case CommitCall(_, ok) => x.(writing := x.writing && !ok)
    case AbortCall(_, _) => x.(writing := false)
    case CloseCall(_, _) => x.(closed := true)
    case _ => x
  }

  function WithSchema(x: Instance, n: string, model: Schema): Instance { x.(schemas := x.schemas[n := model]) }

  function Noted(w: Watched, e: Event): Watched {
    Watched(if IsCall(e) then w.instances[e.instance := Changed(Before(w, e.instance), e)] else w.instances,
            if e.SchemaEnsured? then w.ensured[e.name := e.model] else w.ensured,
            w.closeFailed || (e.CloseCall? && !e.ok))
  }

  /** What the observer knows after the first n events. */
  function WatchTo(log: seq<Event>, n: nat): Watched
    requires n <= |log|
  {
    if n == 0 then Watched(map[], map[], false) else Noted(WatchTo(log, n - 1), log[n - 1])
  }

  function Watch(log: seq<Event>): Watched { WatchTo(log, |log|) }

  /** Every event was permitted when it happened; so was every event of every prefix. */
  ghost predicate Proper(reusable: bool, log: seq<Event>) {
    forall i {:trigger WatchTo(log, i)} :: 0 <= i < |log| ==> Permitted(reusable, WatchTo(log, i), log[i])
  }

  lemma {:induction false} WatchPrefix(log: seq<Event>, more: seq<Event>, n: nat)
    requires log <= more && n <= |log|
    ensures WatchTo(more, n) == WatchTo(log, n)
  {
    if n > 0 { WatchPrefix(log, more, n - 1); }
  }

  lemma ProperAppend(reusable: bool, log: seq<Event>, e: Event)
    requires Proper(reusable, log) && Permitted(reusable, Watch(log), e)
    ensures Proper(reusable, log + [e]) && Watch(log + [e]) == Noted(Watch(log), e)
  {
    var more := log + [e];
    WatchPrefix(log, more, |log|);
    forall i | 0 <= i < |more| ensures Permitted(reusable, WatchTo(more, i), more[i]) {
      if i < |log| { WatchPrefix(log, more, i); }
    }
  }

  predicate IsSinkEvent(e: Event) {
    IsCall(e) || e.SchemaEnsured?
  }

  ghost predicate SinkEvents(log: seq<Event>) { forall i :: 0 <= i < |log| ==> IsSinkEvent(log[i]) }

  /** log continues before with calls on sinks only. */
  ghost predicate Continues(before: seq<Event>, log: seq<Event>) { before <= log && SinkEvents(log[|before|..]) }

  /** A call that neither begins nor ends a write. */
  predicate IsSideCall(e: Event) { IsSinkEvent(e) && !e.BeginCall? && !e.CommitCall? && !e.AbortCall? && !e.CloseCall? }

  /** log continues before with schema calls only. */
  ghost predicate Aside(before: seq<Event>, log: seq<Event>) {
    before <= log && forall i :: |before| <= i < |log| ==> IsSideCall(log[i])
  }

  // ---- what proper calls mean ----

  lemma NotedKeeps(reusable: bool, w: Watched, e: Event, x: nat)
    requires Permitted(reusable, w, e) && x in w.instances
    ensures x in Noted(w, e).instances && (w.instances[x].closed ==> Noted(w, e).instances[x].closed)
    ensures w.instances[x].begins <= Noted(w, e).instances[x].begins
  {}

  /** What never goes back: being closed, and the number of writes begun. */
  lemma {:induction false} Sticks(reusable: bool, log: seq<Event>, x: nat, i: nat, j: nat)
    requires Proper(reusable, log) && i <= j <= |log| && x in WatchTo(log, i).instances
    ensures x in WatchTo(log, j).instances
    ensures WatchTo(log, i).instances[x].closed ==> WatchTo(log, j).instances[x].closed
    ensures WatchTo(log, i).instances[x].begins <= WatchTo(log, j).instances[x].begins
    decreases j
  {
    if i < j {
      Sticks(reusable, log, x, i, j - 1);
      NotedKeeps(reusable, WatchTo(log, j - 1), log[j - 1], x);
    }
  }

  /** No instance is closed twice. */
  lemma ClosedOnce(reusable: bool, log: seq<Event>, i: nat, j: nat)
    requires Proper(reusable, log) && i < j < |log| && log[i].CloseCall? && log[j].CloseCall?
    ensures log[i].instance != log[j].instance
  {
    assert Permitted(reusable, WatchTo(log, i), log[i]);
    Sticks(reusable, log, log[i].instance, i + 1, j);
    assert Permitted(reusable, WatchTo(log, j), log[j]);
  }

  /** A sink without reusable sessions sees one Begin per instance. */
  lemma BegunOnce(log: seq<Event>, i: nat, j: nat)
    requires Proper(false, log) && i < j < |log| && log[i].BeginCall? && log[j].BeginCall?
    ensures log[i].instance != log[j].instance
  {
    assert Permitted(false, WatchTo(log, i), log[i]);
    Sticks(false, log, log[i].instance, i + 1, j);
    assert Permitted(false, WatchTo(log, j), log[j]);
  }

  ghost predicate NoCommit(log: seq<Event>, x: nat, i: nat, j: nat) {
    forall k :: i < k < j <= |log| ==> Leaves(log[k], x)
  }

  predicate InWrite(w: Watched, x: nat) { x in w.instances && w.instances[x].writing }

  /** A successful Begin, with no successful Commit and no Abort since. */
  ghost predicate BegunSince(log: seq<Event>, x: nat, n: nat) {
    exists i :: 0 <= i < n <= |log| && log[i] == BeginCall(x, true) && NoCommit(log, x, i, n)
  }

  predicate Leaves(e: Event, x: nat) { e != CommitCall(x, true) && !(e.AbortCall? && e.instance == x) }

  lemma WritingBefore(w: Watched, e: Event, x: nat)
    requires InWrite(Noted(w, e), x)
    ensures e == BeginCall(x, true) || (InWrite(w, x) && Leaves(e, x))
  {}

  lemma SinceMore(log: seq<Event>, x: nat, n: nat)
    requires n < |log| && (log[n] == BeginCall(x, true) || (BegunSince(log, x, n) && Leaves(log[n], x)))
    ensures BegunSince(log, x, n + 1)
  {
    if log[n] == BeginCall(x, true) {
      assert NoCommit(log, x, n, n + 1);
    } else {
      var i :| 0 <= i < n <= |log| && log[i] == BeginCall(x, true) && NoCommit(log, x, i, n);
      assert NoCommit(log, x, i, n + 1);
    }
  }

  lemma {:induction false} WritingSince(log: seq<Event>, x: nat, n: nat)
    requires n <= |log| && InWrite(WatchTo(log, n), x)
    ensures BegunSince(log, x, n)
  {
    if n > 0 {
      WritingBefore(WatchTo(log, n - 1), log[n - 1], x);
      if log[n - 1] != BeginCall(x, true) { WritingSince(log, x, n - 1); }
      SinceMore(log, x, n - 1);
    }
  }

  /** No instance is told to abort a write whose Commit succeeded, whatever came after. */
  lemma AbortedUncommitted(reusable: bool, log: seq<Event>, j: nat)
    requires Proper(reusable, log) && j < |log| && log[j].AbortCall?
    ensures BegunSince(log, log[j].instance, j)
  {
    assert Permitted(reusable, WatchTo(log, j), log[j]);
    WritingSince(log, log[j].instance, j);
  }

  /** The call at j ends the write begun at i on x, and no other call up to n does. */
  ghost predicate OnlyEndCall(log: seq<Event>, x: nat, i: nat, j: nat, n: nat) {
    i < j < n <= |log| && !Leaves(log[j], x) && NoCommit(log, x, i, j) && NoCommit(log, x, j, n)
  }

  predicate BeginsOn(e: Event, x: nat) { e.BeginCall? && e.instance == x }

  /** Until the next Begin a write goes on until a call ends it, and a write that is over sees no such call. */
  lemma NotedWrite(reusable: bool, w: Watched, e: Event, x: nat)
    requires Permitted(reusable, w, e) && x in w.instances && !BeginsOn(e, x)
    ensures x in Noted(w, e).instances && (InWrite(Noted(w, e), x) <==> InWrite(w, x) && Leaves(e, x))
    ensures !InWrite(w, x) ==> Leaves(e, x)
  {}

  ghost predicate StillWriting(log: seq<Event>, x: nat, i: nat, n: nat)
    requires n <= |log|
  {
    InWrite(WatchTo(log, n), x) && NoCommit(log, x, i, n)
  }

  ghost predicate EndedWrite(log: seq<Event>, x: nat, i: nat, n: nat)
    requires n <= |log|
  {
    x in WatchTo(log, n).instances && !InWrite(WatchTo(log, n), x) && exists j :: OnlyEndCall(log, x, i, j, n)
  }

  lemma WriteStep(reusable: bool, log: seq<Event>, x: nat, i: nat, n: nat)
    requires Proper(reusable, log) && i < n < |log| && !BeginsOn(log[n], x)
    requires StillWriting(log, x, i, n) || EndedWrite(log, x, i, n)
    ensures StillWriting(log, x, i, n + 1) || EndedWrite(log, x, i, n + 1)
  {
    NotedWrite(reusable, WatchTo(log, n), log[n], x);
    if !StillWriting(log, x, i, n) {
      var j :| OnlyEndCall(log, x, i, j, n);
      LaterEnd(log, x, i, j, n);
    } else if !Leaves(log[n], x) {
      assert OnlyEndCall(log, x, i, n, n + 1);
    }
  }

  lemma LaterEnd(log: seq<Event>, x: nat, i: nat, j: nat, n: nat)
    requires n < |log| && OnlyEndCall(log, x, i, j, n) && Leaves(log[n], x)
    ensures OnlyEndCall(log, x, i, j, n + 1)
  {}

  lemma WriteStarts(log: seq<Event>, i: nat)
    requires i < |log| && log[i].BeginCall? && log[i].ok
    ensures StillWriting(log, log[i].instance, i, i + 1)
  {}

  /** What holds at first and at each next place holds at every later one. */
  lemma {:induction false} UpTo(p: nat -> bool, first: nat, n: nat)
    requires first <= n && p(first) && forall k {:trigger p(k)} :: first <= k < n && p(k) ==> p(k + 1)
    ensures p(n)
  {
    if first < n { UpTo(p, first, n - 1); }
  }

  lemma WriteEnds(reusable: bool, log: seq<Event>, i: nat, n: nat)
    requires Proper(reusable, log) && i < n <= |log| && log[i].BeginCall? && log[i].ok
    requires forall k :: i < k < n ==> !BeginsOn(log[k], log[i].instance)
    ensures StillWriting(log, log[i].instance, i, n) || EndedWrite(log, log[i].instance, i, n)
  {
    var x := log[i].instance;
    ghost var p := (k: nat) => k <= |log| && (StillWriting(log, x, i, k) || EndedWrite(log, x, i, k));
    WriteStarts(log, i);
    forall k: nat | i + 1 <= k < n && p(k) ensures p(k + 1) { WriteStep(reusable, log, x, i, k); }
    UpTo(p, i + 1, n);
  }

  /** Every successful Begin on an instance, before its next Begin or once no write is open, is followed by exactly one
      successful Commit or Abort of that instance. */
  lemma WriteEndsOnce(reusable: bool, log: seq<Event>, i: nat, n: nat)
    requires Proper(reusable, log) && i < n <= |log| && log[i].BeginCall? && log[i].ok
    requires forall k :: i < k < n ==> !BeginsOn(log[k], log[i].instance)
    requires if n < |log| then BeginsOn(log[n], log[i].instance) else !InWrite(Watch(log), log[i].instance)
    ensures exists j :: OnlyEndCall(log, log[i].instance, i, j, n)
  {
    WriteEnds(reusable, log, i, n);
    if n < |log| { assert Permitted(reusable, WatchTo(log, n), log[n]); }
  }

  // ---- the session ----

  /** Every instance but the current one is finished with: closed if it was ever opened, and not in a write. */
  ghost predicate OthersDone(w: Watched, current: Option<nat>) {
    forall i :: i in w.instances && Some(i) != current ==>
      !w.instances[i].writing && (w.instances[i].wasOpened ==> w.instances[i].closed)
  }

  ghost predicate CurrentAgrees(w: Watched, i: nat, isOpen: bool) {
    && i in w.instances && !w.instances[i].closed && w.instances[i].wasOpened == isOpen
    && (!isOpen ==> !w.instances[i].writing && w.instances[i].begins == 0)
  }

  /** An instance may serve its next write, or is serving one. */
  ghost predicate Serves(reusable: bool, w: Watched, x: Instance) {
    x.wasOpened && Covers(x.schemas, w.ensured) && (reusable || x.begins == if x.writing then 1 else 0)
  }

  /** An instance may serve once the named schema is settled. */
  ghost predicate ServesBut(reusable: bool, w: Watched, x: Instance, n: string) {
    x.wasOpened && CoversBut(x.schemas, w.ensured, {n}) && (reusable || x.begins == if x.writing then 1 else 0)
  }

  predicate EndsWith(log: seq<Event>, e: Event) { log != [] && log[|log| - 1] == e }

  /** The instance committed, and was closed at most. */
  ghost predicate Committed(before: seq<Event>, x: nat, log: seq<Event>) {
    log == before + [CommitCall(x, true)] || CommittedAndClosed(before, x, log)
  }

  ghost predicate CommittedAndClosed(before: seq<Event>, x: nat, log: seq<Event>) {
    exists answer :: log == before + [CommitCall(x, true)] + [CloseCall(x, answer)]
  }

  class BoundarySink {
    const reusable: bool
    const schematized: bool
    var current: Option<nat>
    var created: nat
    var isOpen: bool
    var closeErr: bool
    var schemas: map<string, Schema>
    ghost var log: seq<Event>
    ghost var w: Watched

    /** The observer, w, agrees with the fields. */
    ghost predicate Valid()
      reads this
    {
      && w == Watch(log) && Proper(reusable, log) && (forall i :: i in w.instances ==> i < created)
      && closeErr == w.closeFailed && schemas == w.ensured && (!schematized ==> schemas == map[])
      && (if current.None? then !isOpen else CurrentAgrees(w, current.value, isOpen)) && OthersDone(w, current)
    }

    ghost predicate Writing()
      reads this
    {
      current.Some? && current.value in w.instances && w.instances[current.value].writing
    }

    ghost predicate Settled()
      reads this
    {
      current.Some? ==> current.value in w.instances && Serves(reusable, w, w.instances[current.value])
    }

    /** Every instance that was opened has been closed, and no write is left open. */
    ghost predicate AllClosed()
      reads this
    {
      OthersDone(Watch(log), None)
    }

    constructor (reusable: bool, schematized: bool)
      ensures Valid() && current == Some(0) && !isOpen && !closeErr && schemas == map[]
      ensures this.reusable == reusable && this.schematized == schematized && SinkEvents(log)
    {
      this.reusable, this.schematized := reusable, schematized;
      current, created, isOpen, closeErr, schemas := Some(0), 1, false, false, map[];
      log, w := [Created(0)], Noted(Watch([]), Created(0));
      new;
      ProperAppend(reusable, [], Created(0));
      assert [] + [Created(0)] == [Created(0)];
    }

    /** Appends one permitted event. */
    ghost method Record(e: Event)
      requires w == Watch(log) && Proper(reusable, log) && Permitted(reusable, w, e)
      modifies this`log, this`w
      ensures log == old(log) + [e] && Proper(reusable, log) && w == Watch(log) == Noted(old(w), e)
      ensures IsSinkEvent(e) ==> Continues(old(log), log)
      ensures IsSideCall(e) ==> Aside(old(log), log)
    {
      ProperAppend(reusable, log, e);
      log, w := log + [e], Noted(w, e);
    }

    method OpenCurrent() returns (ok: bool)
      requires Valid() && current.Some? && !isOpen
      modifies this`isOpen, this`log, this`w
      ensures Valid() && isOpen && !Writing() && Continues(old(log), log)
      ensures w == With(old(w), current.value, old(w).instances[current.value].(wasOpened := true))
    {
      isOpen := true;
      ok := *;
      Record(OpenCall(current.value, ok));
    }

    method Open() returns (ok: bool)
      requires Valid() && current.Some? && !isOpen && schemas == map[]
      modifies this`isOpen, this`log, this`w
      ensures Valid() && isOpen && !Writing() && Settled() && Continues(old(log), log)
    {
      ok := OpenCurrent();
    }

    /** EnsureSchema on the current instance. */
    method EnsureOn(n: string, model: Schema) returns (ok: bool)
      requires Valid() && current.Some? && isOpen
      modifies this`log, this`w
      ensures Valid() && Continues(old(log), log) && Aside(old(log), log)
      ensures w == if ok then With(old(w), current.value, WithSchema(old(w).instances[current.value], n, model))
                   else old(w)
      ensures Writing() == old(Writing())
    {
      ok := *;
      Record(EnsureCall(current.value, n, model, ok));
    }

    /** Gives every remembered schema to a fresh instance, in any order. */
    method Replay() returns (ok: bool)
      requires Valid() && current.Some? && isOpen && !Writing() && w.instances[current.value].begins == 0
      modifies this`log, this`w
      ensures Valid() && !Writing() && Continues(old(log), log)
      ensures ok ==> Settled()
    {
      var todo := schemas.Keys;
      while todo != {}
        invariant Valid() && !Writing() && todo <= schemas.Keys && Continues(old(log), log)
        invariant w.instances[current.value].begins == 0
        invariant CoversBut(w.instances[current.value].schemas, schemas, todo)
        decreases |todo|
      {
        var n :| n in todo;
        todo := todo - {n};
        ghost var before := log;
        ok := EnsureOn(n, schemas[n]);
        ContinuesThrough(old(log), before, log);
        if !ok { return false; }
      }
      return true;
    }

    /** A fresh instance, opened and given the remembered schemas. The factory may fail after making an instance. */
    method Renew() returns (ok: bool)
      requires Valid() && current.None?
      modifies this`current, this`created, this`isOpen, this`log, this`w
      ensures Valid() && !Writing() && Continues(old(log), log)
      ensures ok ==> current.Some? && Settled()
    {
      var made, factoryOk: bool := *, *;
      if !made { return false; }
      current, created := Some(created), created + 1;
      Record(Created(current.value));
      if !factoryOk { return false; }
      ghost var before := log;
      var openOk := OpenCurrent();
      ContinuesThrough(old(log), before, log);
      if !openOk { return false; }
      if !schematized { return true; }
      before := log;
      ok := Replay();
      ContinuesThrough(old(log), before, log);
    }

    /** Begin: refused after a close error; between writes a single-write sink gets a fresh instance first. */
    method Begin() returns (ok: bool)
      requires Valid() && Settled() && !Writing()
      modifies this`current, this`created, this`isOpen, this`log, this`w
      ensures Valid() && Continues(old(log), log)
      ensures ok ==> Settled() && Writing() && !closeErr && EndsWith(log, BeginCall(current.value, true))
      ensures !ok ==> !Writing()
    {
      if closeErr { return false; }
      if current.None? {
        var renewed := Renew();
        if !renewed { return false; }
      }
      ghost var before := log;
      ok := BeginCurrent();
      ContinuesThrough(old(log), before, log);
    }

    method BeginCurrent() returns (ok: bool)
      requires Valid() && Settled() && !Writing() && current.Some? && !closeErr
      modifies this`log, this`w
      ensures Valid() && Continues(old(log), log)
      ensures if ok then Settled() && Writing() else !Writing()
      ensures log == old(log) + [BeginCall(current.value, ok)]
    {
      ok := *;
      Record(BeginCall(current.value, ok));
    }

    /** Commit: a single-write instance is closed at once, and a close error is the caller's error. The instance's own
        answer is the first event; success means it committed. */
    method Commit() returns (ok: bool)
      requires Valid() && Settled() && Writing()
      modifies this`current, this`isOpen, this`closeErr, this`log, this`w
      ensures Valid() && Continues(old(log), log)
      ensures ok ==> Settled() && !Writing() && Committed(old(log), old(current.value), log)
      ensures !ok ==> if current.None? then CommittedAndClosed(old(log), old(current.value), log)
                      else Writing() && current == old(current) && log == old(log) + [CommitCall(current.value, false)]
    {
      ok := *;
      Record(CommitCall(current.value, ok));
      if ok && !reusable {
        ghost var before := log;
        ok := Close();
        ContinuesThrough(old(log), before, log);
      }
    }

    method Abort() returns (ok: bool)
      requires Valid() && (current.Some? ==> Writing())
      modifies this`log, this`w
      ensures Valid() && !Writing() && Continues(old(log), log)
      ensures log == if current.Some? then old(log) + [AbortCall(current.value, ok)] else old(log)
    {
      if current.None? { return true; }
      ok := *;
      Record(AbortCall(current.value, ok));
    }

    /** Close: an instance that was opened is closed once, and forgotten even when closing failed. */
    method Close() returns (ok: bool)
      requires Valid() && !Writing()
      modifies this`current, this`isOpen, this`closeErr, this`log, this`w
      ensures Valid() && !isOpen && ok == !closeErr && Continues(old(log), log)
      ensures AllClosed() && (old(isOpen) ==> current.None?) && !Writing()
      ensures old(isOpen) ==> exists answer :: log == old(log) + [CloseCall(old(current.value), answer)]
      ensures !old(isOpen) ==> log == old(log) && current == old(current)
    {
      if isOpen {
        var closed: bool := *;
        Record(CloseCall(current.value, closed));
        closeErr, isOpen, current := closeErr || !closed, false, None;
      }
      return !closeErr;
    }

    /** The connector closed before it was ever opened, when preparing the run failed first. */
    method CloseUnopened() returns (ok: bool)
      requires Valid() && current.Some? && !isOpen
      modifies this`current, this`closeErr, this`log, this`w
      ensures Valid() && AllClosed() && current.None? && Continues(old(log), log)
    {
      ok := *;
      Record(CloseCall(current.value, ok));
      closeErr, current := closeErr || !ok, None;
    }

    /** EnsureSchema: passed to a live instance, and remembered for the next one unless that failed. */
    method EnsureSchema(n: string, model: Schema) returns (ok: bool)
      requires Valid() && Settled() && schematized
      modifies this`schemas, this`log, this`w
      ensures Valid() && Settled() && Writing() == old(Writing()) && Continues(old(log), log) && Aside(old(log), log)
      ensures schemas == if ok then old(schemas)[n := model] else old(schemas)
    {
      var canceled: bool := *;
      if canceled { return false; }
      if current.Some? {
        ok := EnsureLive(n, model);
        if !ok { return; }
      }
      ghost var before := log;
      Remember(n, model);
      ContinuesThrough(old(log), before, log);
      ok := true;
    }

    method EnsureLive(n: string, model: Schema) returns (ok: bool)
      requires Valid() && Settled() && current.Some? && schematized
      modifies this`log, this`w
      ensures Valid() && Writing() == old(Writing()) && Continues(old(log), log) && Aside(old(log), log)
      ensures !ok ==> Settled()
      ensures ok ==>
                && current.value in w.instances && n in w.instances[current.value].schemas
                && w.instances[current.value].schemas[n] == model
      ensures ok ==> ServesBut(reusable, w, w.instances[current.value], n)
    {
      ok := EnsureOn(n, model);
    }

    method Remember(n: string, model: Schema)
      requires Valid() && schematized
      requires current.Some? ==>
                 n in w.instances[current.value].schemas && w.instances[current.value].schemas[n] == model
      requires current.Some? ==> ServesBut(reusable, w, w.instances[current.value], n)
      modifies this`schemas, this`log, this`w
      ensures Valid() && Settled() && Writing() == old(Writing()) && Continues(old(log), log) && Aside(old(log), log)
      ensures schemas == old(schemas)[n := model]
    {
      Record(SchemaEnsured(n, model));
      schemas := schemas[n := model];
    }
  }

  ghost predicate CoversBut(schemas: map<string, Schema>, ensured: map<string, Schema>, todo: set<string>) {
    forall n :: n in ensured && n !in todo ==> n in schemas && schemas[n] == ensured[n]
  }

  lemma ContinuesThrough(a: seq<Event>, b: seq<Event>, c: seq<Event>)
    requires Continues(a, b) && Continues(b, c)
    ensures Continues(a, c)
  {
    assert c[|a|..] == b[|a|..] + c[|b|..];
  }
}
