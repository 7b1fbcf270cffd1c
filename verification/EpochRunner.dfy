/**
  The continuous runner: Begin, Read, Seal, sink Commit, certificate, lease renewal, Acknowledge, and the cleanup after
  any failure, beside a pipeline whose goroutines take any steps between the runner's own. Every answer of the source,
  the sink and the store is arbitrary; a process may also stop anywhere, so what is proved of the log holds of every
  prefix of it.
 */
module EpochRunner {
  import opened RowModel
  import opened Progress
  import opened Epochs
  import opened Certificates
  import opened EpochCommit
  import opened SinkSession
  import opened EpochFrame
  import opened EpochLog
  import SchemaEvolution
  import P = EpochPipeline
  import I = EpochInvariant
  import T = EpochTheorem

  // ---- the pipeline beside the runner ----

  /** The runner itself only binds and seals; every other step belongs to the source's calls and to the goroutines. */
  predicate OwnStep(a: P.Action) { a.BindAction? || a.SealAction? }

  /** The bound epoch, whether it is sealed, and the batches applied in it. */
  datatype Bound = Bound(ref: Option<EpochRef>, sealed: bool, applied: seq<P.Applied>)

  function BoundIn(s: P.State): Bound { Bound(s.epoch.ref, s.epoch.sealed, s.log.applied) }

  /** What the writer holds belongs to the bound epoch, and it holds no rows of a sealed one. */
  lemma HeldBound(cfg: P.Config, s: P.State)
    requires I.Inv(cfg, s) && s.lanes.wHand.Some? && s.lanes.wHand.value.Data?
    ensures s.lanes.wHand.value.epoch == s.epoch.ref && !s.epoch.sealed
  {
    assert s.lanes.wHand.value in I.Flight(s.lanes);
  }

  /** A batch the writer finishes counts in the epoch it is tagged with, which is the bound one; none is finished once
      sealed. */
  lemma FinishKeeps(cfg: P.Config, s: P.State, r: P.WriteResult)
    requires I.Inv(cfg, s)
    ensures var t := P.WriterFinish(cfg, s, r);
            && t.epoch.ref == s.epoch.ref && t.epoch.sealed == s.epoch.sealed && s.log.applied <= t.log.applied
            && |t.log.applied| <= |s.log.applied| + 1
            && (|t.log.applied| > |s.log.applied| ==>
                  && !s.epoch.sealed && s.lanes.wHand.Some? && s.lanes.wHand.value.Data?
                  && s.lanes.wHand.value.epoch == s.epoch.ref)
  {
    if s.lanes.wHand.Some? && s.lanes.wHand.value.Data? { HeldBound(cfg, s); }
  }

  lemma OtherKeeps(cfg: P.Config, s: P.State, a: P.Action)
    requires !OwnStep(a) && !a.WriteFinish?
    ensures BoundIn(P.Step(cfg, s, a)) == BoundIn(s)
  {
    if I.Concurrent(a) { ConcurrentKeeps(cfg, s, a); }
    if a.ContinueAction? { AdvanceKeeps(cfg, s, a.sent); }
    if IsBuilderCall(a) { BuilderKeeps(cfg, s, a); }
  }

  lemma SealStep(cfg: P.Config, s: P.State)
    requires T.Reachable(cfg, s) && s.inlet.pc.Idle? && P.Seals(s)
    ensures var t := P.Step(cfg, s, P.SealAction);
            && |t.log.seals| == |s.log.seals| + 1 && IssuedIn(cfg, s, t.log.seals[|s.log.seals|])
            && T.Reachable(cfg, t) && BoundIn(t) == BoundIn(s).(sealed := true)
            && s.epoch.ref == Some(t.log.seals[|s.log.seals|].ref) && Int64Completion(t.log.seals[|s.log.seals|])
  {
    T.ReachableInv(cfg, s);
    T.ReachStep(cfg, s, P.SealAction);
    var t := P.Step(cfg, s, P.SealAction);
    assert t.log.seals == s.log.seals + [t.log.seals[|s.log.seals|]];
  }

  lemma BindStep(cfg: P.Config, s: P.State, ref: EpochRef)
    requires T.Reachable(cfg, s) && s.inlet.pc.Idle? && P.Binds(s, ref)
    ensures T.Reachable(cfg, P.Step(cfg, s, P.BindAction(ref)))
    ensures BoundIn(P.Step(cfg, s, P.BindAction(ref))) == Bound(Some(ref), false, [])
  {
    T.ReachStep(cfg, s, P.BindAction(ref));
  }

  /** One fact for each batch written. */
  function Facts(ref: EpochRef, applied: seq<P.Applied>): seq<Fact> {
    seq(|applied|, i requires 0 <= i < |applied| => Fact(ref, applied[i]))
  }

  // ---- the store ----

  /** Certificates are immutable once stored. A commit may take effect and still be reported as failed. */
  class Store {
    var certs: map<EpochKey, Certificate>

    method CommitEpoch(rules: Rules, c: Certificate) returns (ok: bool)
      modifies this
      ensures Grows(old(certs), certs)
      ensures ok ==> Key(c.ref) in certs && SameCertificate(rules, c, certs[Key(c.ref)])
    {
      var takes, answers: bool := *, *;
      if takes && Key(c.ref) !in certs { certs := certs[Key(c.ref) := c]; }
      if !answers || Key(c.ref) !in certs { return false; }
      var mine := EncodeCanonical(rules.resolver, rules.encoding, c);
      var theirs := EncodeCanonical(rules.resolver, rules.encoding, certs[Key(c.ref)]);
      return mine.Some? && mine == theirs;
    }

    method GetEpoch(key: EpochKey) returns (c: Option<Certificate>)
      ensures c.Some? ==> key in certs && certs[key] == c.value
    {
      var answers: bool := *;
      return if answers && key in certs then Some(certs[key]) else None;
    }

    /** Other attempts certify epochs of their own. */
    method Others()
      modifies this
      ensures Grows(old(certs), certs)
    {
      var more: map<EpochKey, Certificate> := *;
      certs := more + certs;
    }
  }

  // ---- the run ----

  datatype Settings = Settings(
    rules: Rules, tenant: string, pipeline: string, attempt: Attempt, maxEpochs: nat, messages: bool, emits: bool)

  /** What the loop does next: go on, return with or without an error, or nothing at all because the process stopped. */
  datatype Outcome = Continue | Return(failed: bool) | Stopped

  class ContinuousRun {
    const cfg: Settings
    const sink: BoundarySink
    const store: Store
    var pipe: P.State
    var active: Option<EpochRef>
    var pending: seq<Fact>

    /** The log so far is in order, and the pipeline got where it is by its own steps. */
    ghost predicate Sound()
      reads this, sink, store
    {
      sink.Valid() && Upheld(cfg.rules, store.certs, sink.log) && T.Reachable(cfg.rules.pipeline, pipe)
    }

    /** The open epoch's write is the current instance's, or it was committed and the instance closed. */
    ghost predicate Agrees()
      reads this, sink
    {
      var w := EpochWrite(sink.log);
      match active
      case None => !sink.Writing()
      case Some(ref) =>
        if sink.current.Some? then sink.Writing() && w.Underway? && w.ref == ref && w.instance == sink.current.value
        else w.Saved? && w.ref == ref && w.closed
    }

    ghost predicate Valid()
      reads this, sink, store
    {
      Sound() && OpenEpoch(sink.log) == active && Agrees()
    }

    /** The facts held back are those of the batches applied in the epoch, in order. */
    ghost predicate Pending(ref: EpochRef)
      reads this
    {
      pipe.epoch.ref == Some(ref) && pending == if cfg.emits then Facts(ref, pipe.log.applied) else []
    }

    constructor (cfg: Settings, sink: BoundarySink, store: Store)
      requires sink.Valid() && SinkEvents(sink.log) && !sink.isOpen
      ensures Valid() && active.None? && pending == [] && this.cfg == cfg && this.sink == sink && this.store == store
      ensures NextEpoch(cfg.rules.first, sink.log) == cfg.rules.first
    {
      this.cfg, this.sink, this.store := cfg, sink, store;
      pipe, active, pending := P.Start, None, [];
      new;
      assert P.Run(cfg.rules.pipeline, P.Start, []) == P.Start;
      assert sink.log[0..] == sink.log;
      OrderlyContinues(cfg.rules, [], sink.log, store.certs);
    }

    /** Logs one fitting event of the runner's own. */
    ghost method Log(e: Event)
      requires Sound() && Fit(cfg.rules, store.certs, sink.log, e)
      modifies sink`log, sink`w
      ensures Sound() && sink.log == old(sink.log) + [e] && sink.w == old(sink.w)
    {
      UpheldAppend(cfg.rules, store.certs, sink.log, e);
      sink.Record(e);
    }

    /** Logs an event that neither begins nor ends an epoch. */
    ghost method LogQuiet(e: Event)
      requires Valid() && Fit(cfg.rules, store.certs, sink.log, e)
      requires !e.EpochBegun? && !e.EpochCommitted? && !e.EpochAborted?
      modifies sink`log, sink`w
      ensures Valid() && sink.log == old(sink.log) + [e] && sink.w == old(sink.w)
      ensures NextEpoch(cfg.rules.first, sink.log) == NextEpoch(cfg.rules.first, old(sink.log))
      ensures LastSealed(sink.log) == if e.Sealed? then Some(e.completion) else LastSealed(old(sink.log))
      ensures EpochWrite(sink.log) == if e.Validated? then Rechecked(EpochWrite(old(sink.log)), e.commit)
                                      else EpochWrite(old(sink.log))
    {
      OpenAppend(cfg.rules.first, sink.log, e);
      WriteAppend(sink.log, e);
      Log(e);
    }

    /** The open epoch and its log, once its write is over. */
    ghost predicate Ending()
      reads this, sink, store
    {
      Sound() && !sink.Writing() && active.Some? && OpenEpoch(sink.log) == active
    }

    method MarkCommitted(ghost cert: Certificate)
      requires Ending() && active == Some(cert.ref) && EpochWrite(sink.log).Saved? && Checks(EpochWrite(sink.log), cert)
      modifies this`active, sink`log, sink`w
      ensures Valid() && active.None? && sink.log == old(sink.log) + [EpochCommitted(cert.ref)] && sink.w == old(sink.w)
      ensures NextEpoch(cfg.rules.first, sink.log) == NextEpoch(cfg.rules.first, old(sink.log))
      ensures EpochWrite(sink.log).Confirmed? && Checks(EpochWrite(sink.log), cert)
    {
      OpenAppend(cfg.rules.first, sink.log, EpochCommitted(active.value));
      WriteConfirmed(sink.log, cert);
      Log(EpochCommitted(active.value));
      active := None;
    }

    method MarkAborted()
      requires Ending()
      requires EpochWrite(sink.log).Discarded? || (EpochWrite(sink.log).Saved? && EpochWrite(sink.log).closed)
      requires EpochWrite(sink.log).ref == active.value
      modifies this`active, sink`log, sink`w
      ensures Valid() && active.None? && sink.log == old(sink.log) + [EpochAborted(old(active.value))]
      ensures sink.w == old(sink.w)
    {
      OpenAppend(cfg.rules.first, sink.log, EpochAborted(active.value));
      Log(EpochAborted(active.value));
      active := None;
    }

    /** After calls on the sink alone. */
    ghost method Resume(before: seq<Event>)
      requires Upheld(cfg.rules, store.certs, before) && Continues(before, sink.log)
      ensures Upheld(cfg.rules, store.certs, sink.log)
      ensures OpenEpoch(sink.log) == OpenEpoch(before)
      ensures NextEpoch(cfg.rules.first, sink.log) == NextEpoch(cfg.rules.first, before)
      ensures before <= sink.log
    {
      OrderlyContinues(cfg.rules, before, sink.log, store.certs);
    }

    method PrepareSchema()
      requires Valid() && sink.Settled() && sink.schematized
      modifies sink
      ensures Valid() && sink.Settled() && sink.current == old(sink.current)
      ensures EpochWrite(sink.log) == EpochWrite(old(sink.log))
      ensures old(sink.log) <= sink.log
      ensures NextEpoch(cfg.rules.first, sink.log) == NextEpoch(cfg.rules.first, old(sink.log))
    {
      var name, model := *, *;
      var ok := sink.EnsureSchema(name, model);
      Resume(old(sink.log));
      WriteAside(old(sink.log), sink.log);
    }

    /** Schemas prepared on the sink, any number of them. */
    method PrepareSchemas()
      requires Valid() && sink.Settled()
      modifies sink
      ensures Valid() && sink.Settled() && sink.current == old(sink.current)
      ensures EpochWrite(sink.log) == EpochWrite(old(sink.log))
      ensures old(sink.log) <= sink.log
      ensures NextEpoch(cfg.rules.first, sink.log) == NextEpoch(cfg.rules.first, old(sink.log))
    {
      var n: nat :| n >= 0;
      for i := 0 to n
        invariant Valid() && sink.Settled() && sink.current == old(sink.current)
        invariant EpochWrite(sink.log) == EpochWrite(old(sink.log))
        invariant old(sink.log) <= sink.log
        invariant NextEpoch(cfg.rules.first, sink.log) == NextEpoch(cfg.rules.first, old(sink.log))
      {
        if sink.schematized { PrepareSchema(); }
      }
    }

    /** The writer finishes a batch. A written batch is reported with the epoch it is tagged with, and the report is
        held back. */
    method WriterStep(result: P.WriteResult, ghost ref: EpochRef)
      requires T.Reachable(cfg.rules.pipeline, pipe) && pipe.epoch.ref == Some(ref)
      modifies this`pipe, this`pending
      ensures T.Reachable(cfg.rules.pipeline, pipe) && pipe.epoch.ref == Some(ref)
      ensures pipe.epoch.sealed == old(pipe.epoch.sealed)
      ensures old(Pending(ref)) ==> Pending(ref)
      ensures pipe.epoch.sealed ==> pending == old(pending) && pipe.log.applied == old(pipe.log.applied)
    {
      T.ReachableInv(cfg.rules.pipeline, pipe);
      T.ReachStep(cfg.rules.pipeline, pipe, P.WriteFinish(result));
      FinishKeeps(cfg.rules.pipeline, pipe, result);
      var next := P.WriterFinish(cfg.rules.pipeline, pipe, result);
      if cfg.emits && |next.log.applied| > |pipe.log.applied| {
        pending := pending + [Fact(pipe.lanes.wHand.value.epoch.value, next.log.applied[|pipe.log.applied|])];
      }
      pipe := next;
    }

    /** Any other step of the pipeline's goroutines, or of the source's calls. */
    method OtherStep(a: P.Action)
      requires T.Reachable(cfg.rules.pipeline, pipe) && !OwnStep(a) && !a.WriteFinish?
      modifies this`pipe
      ensures T.Reachable(cfg.rules.pipeline, pipe) && BoundIn(pipe) == old(BoundIn(pipe))
    {
      T.ReachStep(cfg.rules.pipeline, pipe, a);
      OtherKeeps(cfg.rules.pipeline, pipe, a);
      pipe := P.Step(cfg.rules.pipeline, pipe, a);
    }

    method PipelineStep(ghost ref: EpochRef)
      requires T.Reachable(cfg.rules.pipeline, pipe) && pipe.epoch.ref == Some(ref)
      modifies this`pipe, this`pending
      ensures T.Reachable(cfg.rules.pipeline, pipe) && pipe.epoch.ref == Some(ref)
      ensures pipe.epoch.sealed == old(pipe.epoch.sealed)
      ensures old(Pending(ref)) ==> Pending(ref)
      ensures pipe.epoch.sealed ==> pending == old(pending) && pipe.log.applied == old(pipe.log.applied)
    {
      var a: P.Action := *;
      if a.WriteFinish? {
        WriterStep(a.result, ref);
      } else if !OwnStep(a) {
        OtherStep(a);
      }
    }

    /** Any steps of the pipeline while the epoch is bound, with schemas prepared on the sink along the way. Once the
        epoch is sealed none of them writes a batch or reports one. */
    method Activity(ref: EpochRef)
      requires Valid() && sink.Settled() && pipe.epoch.ref == Some(ref)
      modifies this`pipe, this`pending, sink
      ensures Valid() && sink.Settled() && sink.current == old(sink.current)
      ensures EpochWrite(sink.log) == EpochWrite(old(sink.log))
      ensures old(sink.log) <= sink.log
      ensures NextEpoch(cfg.rules.first, sink.log) == NextEpoch(cfg.rules.first, old(sink.log))
      ensures pipe.epoch.ref == Some(ref) && pipe.epoch.sealed == old(pipe.epoch.sealed)
      ensures old(Pending(ref)) ==> Pending(ref)
      ensures pipe.epoch.sealed ==> pending == old(pending) && pipe.log.applied == old(pipe.log.applied)
    {
      var n: nat :| n >= 0;
      for i := 0 to n
        invariant Valid() && sink.Settled() && sink.current == old(sink.current)
        invariant EpochWrite(sink.log) == EpochWrite(old(sink.log))
        invariant old(sink.log) <= sink.log
        invariant NextEpoch(cfg.rules.first, sink.log) == NextEpoch(cfg.rules.first, old(sink.log))
        invariant pipe.epoch.ref == Some(ref) && pipe.epoch.sealed == old(pipe.epoch.sealed)
        invariant old(Pending(ref)) ==> Pending(ref)
        invariant pipe.epoch.sealed ==> pending == old(pending) && pipe.log.applied == old(pipe.log.applied)
      {
        PrepareSchemas();
        PipelineStep(ref);
      }
    }

    method BindPipeline(ref: EpochRef) returns (ok: bool)
      requires T.Reachable(cfg.rules.pipeline, pipe)
      modifies this`pipe
      ensures T.Reachable(cfg.rules.pipeline, pipe)
      ensures if ok then BoundIn(pipe) == Bound(Some(ref), false, []) else pipe == old(pipe)
    {
      ok := pipe.inlet.pc.Idle? && P.Binds(pipe, ref);
      if ok {
        BindStep(cfg.rules.pipeline, pipe, ref);
        pipe := P.Step(cfg.rules.pipeline, pipe, P.BindAction(ref));
      }
    }

    /** BindEpoch and Begin. */
    method BeginEpoch(ref: EpochRef) returns (ok: bool)
      requires Valid() && sink.Settled() && active.None? && pending == []
      requires ref.epoch == NextEpoch(cfg.rules.first, sink.log)
      modifies this`pipe, this`active, sink
      ensures Valid() && pending == []
      ensures ok ==> sink.Settled() && active == Some(ref) && NextEpoch(cfg.rules.first, sink.log) == ref.epoch + 1
      ensures ok ==> sink.Writing() && Pending(ref) && !pipe.epoch.sealed
      ensures !ok ==> active.None?
    {
      ok := BindPipeline(ref);
      if !ok { return false; }
      ok := BeginSession();
      if ok { MarkBegun(ref); }
    }

    method MarkBegun(ref: EpochRef)
      requires Sound() && active.None? && OpenEpoch(sink.log).None? && ref.epoch == NextEpoch(cfg.rules.first, sink.log)
      requires sink.Writing() && EndsWith(sink.log, BeginCall(sink.current.value, true))
      modifies this`active, sink`log, sink`w
      ensures Valid() && active == Some(ref) && sink.w == old(sink.w)
      ensures NextEpoch(cfg.rules.first, sink.log) == ref.epoch + 1
    {
      OpenAppend(cfg.rules.first, sink.log, EpochBegun(ref));
      WriteBegins(sink.log, ref, sink.current.value);
      Log(EpochBegun(ref));
      active := Some(ref);
    }

    method BeginSession() returns (ok: bool)
      requires Valid() && sink.Settled() && active.None?
      modifies sink
      ensures Sound() && OpenEpoch(sink.log).None?
      ensures NextEpoch(cfg.rules.first, sink.log) == NextEpoch(cfg.rules.first, old(sink.log))
      ensures if ok then sink.Settled() && sink.Writing() && EndsWith(sink.log, BeginCall(sink.current.value, true))
              else !sink.Writing()
    {
      ok := sink.Begin();
      Resume(old(sink.log));
    }

    /** Reads until the source reports positions. Claims are refused; a stopping run may leave with nothing read. */
    method ReadEpoch(ref: EpochRef) returns (outcome: Outcome, coverage: Coverage)
      requires Valid() && sink.Settled() && active == Some(ref) && Pending(ref) && sink.Writing()
      modifies this`pipe, this`pending, sink
      ensures Valid() && sink.Settled() && Pending(ref) && active == Some(ref) && sink.Writing()
      ensures NextEpoch(cfg.rules.first, sink.log) == NextEpoch(cfg.rules.first, old(sink.log))
      ensures outcome.Continue? ==> coverage.positions != map[] && coverage.claims == []
    {
      coverage := Coverage(map[], [], []);
      var attempts: nat :| attempts >= 0;
      while coverage.positions == map[]
        invariant Valid() && sink.Settled() && Pending(ref) && active == Some(ref) && sink.Writing()
        invariant NextEpoch(cfg.rules.first, sink.log) == NextEpoch(cfg.rules.first, old(sink.log))
        invariant coverage.claims == []
        decreases attempts
      {
        if attempts == 0 { return Stopped, coverage; }
        attempts := attempts - 1;
        Activity(ref);
        var failed, stopping: bool := *, *;
        if failed { return Return(true), coverage; }
        coverage := *;
        if coverage.claims != [] { return Return(true), coverage; }
        if stopping && coverage.positions == map[] { return Return(false), coverage; }
      }
      return Continue, coverage;
    }

    /** Pipeline.SealEpoch: the evidence is what the pipeline appends. */
    method SealPipeline() returns (r: Option<P.Completion>)
      requires T.Reachable(cfg.rules.pipeline, pipe)
      modifies this`pipe
      ensures T.Reachable(cfg.rules.pipeline, pipe)
      ensures r.None? ==> pipe == old(pipe)
      ensures r.Some? ==> IssuedIn(cfg.rules.pipeline, old(pipe), r.value) && old(pipe).epoch.ref == Some(r.value.ref)
      ensures r.Some? ==> Int64Completion(r.value) && BoundIn(pipe) == BoundIn(old(pipe)).(sealed := true)
    {
      if !pipe.inlet.pc.Idle? || !P.Seals(pipe) { return None; }
      SealStep(cfg.rules.pipeline, pipe);
      var next := P.Step(cfg.rules.pipeline, pipe, P.SealAction);
      r := Some(next.log.seals[|pipe.log.seals|]);
      pipe := next;
    }

    method Seal(ref: EpochRef) returns (r: Option<P.Completion>)
      requires Valid() && sink.Settled() && active == Some(ref) && sink.Writing() && Pending(ref)
      modifies this`pipe, sink`log, sink`w
      ensures Valid() && sink.Settled() && sink.Writing() && Pending(ref)
      ensures NextEpoch(cfg.rules.first, sink.log) == NextEpoch(cfg.rules.first, old(sink.log))
      ensures r.Some? ==>
                pipe.epoch.sealed && r.value.ref == ref && Int64Completion(r.value) && LastSealed(sink.log) == r
      ensures r.Some? ==> Issued(cfg.rules.pipeline, r.value)
    {
      r := SealPipeline();
      if r.Some? {
        assert Issued(cfg.rules.pipeline, r.value);
        LogQuiet(Sealed(r.value));
      }
    }

    /** The certificate for the evidence, and the evidence it is checked against. */
    method Draft(coverage: Coverage, completion: P.Completion) returns (commit: Commit)
      ensures commit.certificate.ref == completion.ref && commit.certificate.coverage == coverage
      ensures commit.completion == completion && IsDerived(commit.certificate.receipts, completion.resources)
    {
      var layouts: Option<SchemaEvolution.Layouts> := *;
      var receipts := DeriveReceipts(completion.resources);
      var format, kept := if cfg.messages then FORMAT_V2 else FORMAT_V1, if cfg.messages then layouts else None;
      var cert := Certificate(format, cfg.tenant, completion.ref, cfg.pipeline, coverage, receipts,
                              completion.total.rows,
                              completion.total.bytes, kept);
      return Commit(cert, completion, layouts);
    }

    /** SealEpoch, then the certificate the runner will stand for, checked against the evidence the pipeline sealed. */
    method SealEpoch(ref: EpochRef, coverage: Coverage) returns (r: Option<Certificate>)
      requires Valid() && sink.Settled() && active == Some(ref) && sink.Writing() && Pending(ref)
      modifies this`pipe, sink`log, sink`w
      ensures Valid() && sink.Settled() && sink.Writing() && Pending(ref)
      ensures NextEpoch(cfg.rules.first, sink.log) == NextEpoch(cfg.rules.first, old(sink.log))
      ensures r.Some? ==>
                && r.value.ref == ref && r.value.coverage == coverage && Checks(EpochWrite(sink.log), r.value)
                && pipe.epoch.sealed
    {
      var completion := Seal(ref);
      if completion.None? { return None; }
      var commit := Draft(coverage, completion.value);
      r := Validate(commit);
    }

    method Validate(commit: Commit) returns (r: Option<Certificate>)
      requires Valid() && sink.Settled() && active == Some(commit.certificate.ref) && sink.Writing()
      requires LastSealed(sink.log) == Some(commit.completion)
      requires Int64Completion(commit.completion) && IsDerived(commit.certificate.receipts, commit.completion.resources)
      modifies sink`log, sink`w
      ensures Valid() && sink.Settled() && sink.Writing()
      ensures NextEpoch(cfg.rules.first, sink.log) == NextEpoch(cfg.rules.first, old(sink.log))
      ensures r.Some? ==> r.value == commit.certificate && Checks(EpochWrite(sink.log), r.value)
    {
      DerivedFit(commit.certificate.receipts, commit.completion);
      var valid := ValidateCompletion(cfg.rules.resolver, commit);
      if !valid { return None; }
      FitValidated(cfg.rules, store.certs, sink.log, commit);
      LogQuiet(Validated(commit));
      return Some(commit.certificate);
    }

    method CommitSession(ghost cert: Certificate) returns (ok: bool)
      requires Valid() && sink.Settled() && active == Some(cert.ref) && sink.Writing()
      requires Checks(EpochWrite(sink.log), cert)
      modifies sink
      ensures NextEpoch(cfg.rules.first, sink.log) == NextEpoch(cfg.rules.first, old(sink.log))
      ensures ok ==> Ending() && sink.Settled() && EpochWrite(sink.log).Saved? && Checks(EpochWrite(sink.log), cert)
      ensures ok ==> Committed(old(sink.log), old(sink.current.value), sink.log)
      ensures !ok ==> Valid()
    {
      ok := sink.Commit();
      Resume(old(sink.log));
      if ok || sink.current.None? {
        WriteCommitted(old(sink.log), old(sink.current.value), sink.log);
      } else {
        WriteRefused(old(sink.log), sink.current.value, sink.log);
      }
    }

    /** The epoch is over once the instance that began its write answered Commit with success. */
    method CommitSink(ghost cert: Certificate) returns (ok: bool)
      requires Valid() && sink.Settled() && active == Some(cert.ref) && sink.Writing()
      requires Checks(EpochWrite(sink.log), cert)
      modifies this`active, sink
      ensures Valid() && pending == old(pending)
      ensures NextEpoch(cfg.rules.first, sink.log) == NextEpoch(cfg.rules.first, old(sink.log))
      ensures ok ==>
                |old(sink.log)| < |sink.log| && sink.log[|old(sink.log)|] == CommitCall(old(sink.current.value), true)
      ensures ok ==>
                sink.Settled() && active.None? && EpochWrite(sink.log).Confirmed? && Checks(EpochWrite(sink.log), cert)
    {
      ok := CommitSession(cert);
      if ok {
        MarkCommitted(cert);
      }
    }

    /** CommitEpoch; after an error, a stored certificate with the same canonical bytes is the same outcome. */
    method StoreCertificate(cert: Certificate) returns (ok: bool)
      modifies store
      ensures Grows(old(store.certs), store.certs)
      ensures ok ==> Key(cert.ref) in store.certs && SameCertificate(cfg.rules, cert, store.certs[Key(cert.ref)])
    {
      store.Others();
      ok := store.CommitEpoch(cfg.rules, cert);
      if !ok {
        var historical := store.GetEpoch(Key(cert.ref));
        if historical.None? { return false; }
        var expected := EncodeCanonical(cfg.rules.resolver, cfg.rules.encoding, cert);
        var actual := EncodeCanonical(cfg.rules.resolver, cfg.rules.encoding, historical.value);
        ok := expected.Some? && actual.Some? && expected == actual;
      }
    }

    method Certify(cert: Certificate) returns (ok: bool)
      requires Valid() && sink.Settled() && active.None? && EpochWrite(sink.log).Confirmed?
      requires Checks(EpochWrite(sink.log), cert)
      modifies store, sink
      ensures Valid() && sink.Settled() && active.None?
      ensures NextEpoch(cfg.rules.first, sink.log) == NextEpoch(cfg.rules.first, old(sink.log))
      ensures ok ==> HasCertificate(sink.log, cert.ref, cert.coverage)
    {
      ok := StoreCertificate(cert);
      StoreGrows(cfg.rules, old(store.certs), store.certs, sink.log);
      if ok { LogCertificate(cert); }
    }

    ghost method LogCertificate(cert: Certificate)
      requires Valid() && sink.Settled() && active.None? && EpochWrite(sink.log).Confirmed?
      requires Checks(EpochWrite(sink.log), cert)
      requires Key(cert.ref) in store.certs && SameCertificate(cfg.rules, cert, store.certs[Key(cert.ref)])
      modifies sink`log, sink`w
      ensures Valid() && sink.Settled() && active.None?
      ensures NextEpoch(cfg.rules.first, sink.log) == NextEpoch(cfg.rules.first, old(sink.log))
      ensures HasCertificate(sink.log, cert.ref, cert.coverage)
    {
      ghost var before, stored := sink.log, store.certs[Key(cert.ref)];
      FitCertified(cfg.rules, store.certs, before, cert);
      LogQuiet(Certified(cert, stored));
      CertificateAdded(before, cert, stored);
    }

    /** Publishes what was held back, in order. */
    method PublishWrites(ref: EpochRef, coverage: Coverage)
      requires Valid() && sink.Settled() && active.None? && Pending(ref) && HasCertificate(sink.log, ref, coverage)
      modifies this`pending, sink
      ensures Valid() && sink.Settled() && active.None? && pending == []
      ensures NextEpoch(cfg.rules.first, sink.log) == NextEpoch(cfg.rules.first, old(sink.log))
      ensures HasCertificate(sink.log, ref, coverage)
      ensures sink.log == old(sink.log) + Publications(old(pending))
    {
      PublishedMore(sink.log, pending, 0);
      for i := 0 to |pending|
        invariant Valid() && sink.Settled() && active.None? && pending == old(pending)
        invariant HasCertificate(sink.log, ref, coverage)
        invariant sink.log == old(sink.log) + Publications(pending[..i])
        invariant NextEpoch(cfg.rules.first, sink.log) == NextEpoch(cfg.rules.first, old(sink.log))
      {
        LogCertified(Published(pending[i]), ref, coverage);
        PublishedMore(old(sink.log), pending, i);
      }
      assert pending[..|pending|] == pending;
      pending := [];
    }

    /** An event that only needs its epoch to be certified. */
    ghost method LogCertified(e: Event, ref: EpochRef, coverage: Coverage)
      requires Valid() && sink.Settled() && HasCertificate(sink.log, ref, coverage)
      requires e == CheckpointSaved(ref, if e.CheckpointSaved? then e.resource else Resource(""))
                 || (e.Published? && e.fact.ref == ref)
      modifies sink`log, sink`w
      ensures Valid() && sink.Settled() && HasCertificate(sink.log, ref, coverage) && sink.log == old(sink.log) + [e]
      ensures NextEpoch(cfg.rules.first, sink.log) == NextEpoch(cfg.rules.first, old(sink.log))
    {
      ghost var before := sink.log;
      assert CertifiedRef(before, ref);
      LogQuiet(e);
      HasMore(before, sink.log, ref, coverage);
    }

    /** The held-back facts, then a checkpoint per receipt. */
    method Publish(cert: Certificate)
      requires Valid() && sink.Settled() && active.None? && Pending(cert.ref)
      requires HasCertificate(sink.log, cert.ref, cert.coverage)
      modifies this`pending, sink
      ensures Valid() && sink.Settled() && active.None? && pending == []
      ensures NextEpoch(cfg.rules.first, sink.log) == NextEpoch(cfg.rules.first, old(sink.log))
      ensures HasCertificate(sink.log, cert.ref, cert.coverage)
    {
      PublishWrites(cert.ref, cert.coverage);
      for i := 0 to |cert.receipts|
        invariant Valid() && sink.Settled() && active.None? && pending == []
        invariant HasCertificate(sink.log, cert.ref, cert.coverage)
        invariant NextEpoch(cfg.rules.first, sink.log) == NextEpoch(cfg.rules.first, old(sink.log))
      {
        LogCertified(CheckpointSaved(cert.ref, cert.receipts[i].resource), cert.ref, cert.coverage);
      }
    }

    /** RenewLease: a certificate found in the store is not yet the right to acknowledge. */
    method RenewLease(ghost ref: EpochRef, ghost coverage: Coverage) returns (ok: bool)
      requires Valid() && sink.Settled() && active.None? && HasCertificate(sink.log, ref, coverage)
      modifies sink`log, sink`w
      ensures Valid() && sink.Settled() && active.None?
      ensures NextEpoch(cfg.rules.first, sink.log) == NextEpoch(cfg.rules.first, old(sink.log))
      ensures ok ==> HasRenewal(sink.log, ref, coverage)
    {
      ok := *;
      if ok { RenewalAdded(sink.log, ref, coverage); }
      LogQuiet(Renewed(ok));
    }

    /** Lease renewal, then acknowledgement. */
    method Acknowledge(ref: EpochRef, coverage: Coverage) returns (ok: bool)
      requires Valid() && sink.Settled() && active.None? && HasCertificate(sink.log, ref, coverage)
      modifies sink`log, sink`w
      ensures Valid() && sink.Settled() && active.None?
      ensures NextEpoch(cfg.rules.first, sink.log) == NextEpoch(cfg.rules.first, old(sink.log))
    {
      var renewed := RenewLease(ref, coverage);
      if !renewed { return false; }
      LogQuiet(Acknowledged(ref, coverage));
      ok := *;
    }

    /** The held-back facts and the acknowledgement, with the pipeline free to run before and after. */
    method Settle(cert: Certificate) returns (ok: bool)
      requires Valid() && sink.Settled() && active.None? && HasCertificate(sink.log, cert.ref, cert.coverage)
      requires Pending(cert.ref) && pipe.epoch.sealed
      modifies this`pipe, this`pending, sink
      ensures Valid() && active.None? && sink.Settled() && pending == [] && pipe.epoch.ref == Some(cert.ref)
      ensures pipe.epoch.sealed
      ensures NextEpoch(cfg.rules.first, sink.log) == NextEpoch(cfg.rules.first, old(sink.log))
    {
      Activity(cert.ref);
      HasMore(old(sink.log), sink.log, cert.ref, cert.coverage);
      if cfg.emits { Publish(cert); }
      ok := Acknowledge(cert.ref, cert.coverage);
      Activity(cert.ref);
    }

    /** The commit of a sealed epoch; the pipeline may still run, but it writes nothing more. */
    method CommitSealed(cert: Certificate) returns (ok: bool)
      requires Valid() && sink.Settled() && active == Some(cert.ref) && sink.Writing()
      requires Checks(EpochWrite(sink.log), cert)
      requires Pending(cert.ref) && pipe.epoch.sealed
      modifies this`pipe, this`active, this`pending, sink
      ensures Valid() && NextEpoch(cfg.rules.first, sink.log) == NextEpoch(cfg.rules.first, old(sink.log))
      ensures ok ==> sink.Settled() && active.None? && Pending(cert.ref) && pipe.epoch.sealed
      ensures ok ==> EpochWrite(sink.log).Confirmed? && Checks(EpochWrite(sink.log), cert)
    {
      Activity(cert.ref);
      ok := CommitSink(cert);
    }

    /** From the sealed and checked epoch to its acknowledgement. */
    method ConcludeEpoch(cert: Certificate) returns (ok: bool)
      requires Valid() && sink.Settled() && active == Some(cert.ref) && sink.Writing()
      requires Checks(EpochWrite(sink.log), cert)
      requires Pending(cert.ref) && pipe.epoch.sealed
      modifies this`pipe, this`active, this`pending, sink, store
      ensures Valid() && NextEpoch(cfg.rules.first, sink.log) == NextEpoch(cfg.rules.first, old(sink.log))
      ensures ok ==> sink.Settled() && active.None? && pending == []
    {
      ok := CommitSealed(cert);
      if !ok { return false; }
      ok := Certify(cert);
      if !ok { return false; }
      ok := Settle(cert);
    }

    /** One turn of the loop after Begin. */
    method FinishEpoch(ref: EpochRef) returns (outcome: Outcome, activated: bool)
      requires Valid() && sink.Settled() && active == Some(ref) && Pending(ref) && sink.Writing()
      modifies this`pipe, this`active, this`pending, sink, store
      ensures Valid()
      ensures outcome.Continue? ==> sink.Settled() && active.None? && pending == []
      ensures outcome.Continue? ==> NextEpoch(cfg.rules.first, sink.log) == NextEpoch(cfg.rules.first, old(sink.log))
    {
      var read, coverage := ReadEpoch(ref);
      activated := coverage.activated != [];
      if !read.Continue? { return read, activated; }
      Activity(ref);
      var cert := SealEpoch(ref, coverage);
      if cert.None? { return Return(true), activated; }
      var concluded := ConcludeEpoch(cert.value);
      return if concluded then Continue else Return(true), activated;
    }

    /** runEpochs: epoch numbers are counted by the runner, starting after the last certified one. */
    method RunEpochs(revision: int) returns (outcome: Outcome)
      requires Valid() && sink.Settled() && active.None? && pending == []
      requires NextEpoch(cfg.rules.first, sink.log) == cfg.rules.first
      modifies this`pipe, this`active, this`pending, sink, store
      ensures Valid()
    {
      var epoch, count, membership := cfg.rules.first, 0, revision;
      var turns: nat :| turns >= 0;
      while cfg.maxEpochs == 0 || count < cfg.maxEpochs
        invariant Valid() && sink.Settled() && active.None? && pending == []
        invariant epoch == NextEpoch(cfg.rules.first, sink.log)
        decreases turns
      {
        if turns == 0 { return Stopped; }
        turns := turns - 1;
        var stopping, canceled: bool := *, *;
        if stopping { return Return(false); }
        if canceled { return Return(true); }
        var ref := EpochRef(cfg.attempt, epoch, membership);
        var begun := BeginEpoch(ref);
        if !begun { return Return(true); }
        var turn, activated := FinishEpoch(ref);
        if !turn.Continue? { return turn; }
        if activated {
          var reloaded: bool := *;
          if !reloaded { return Return(true); }
          membership := *;
        }
        epoch, count := epoch + 1, count + 1;
      }
      return Return(false);
    }

    /** The deferred cleanup: an open epoch is aborted, unless its instance already committed and closed, and the
        session is closed. */
    method Cleanup()
      requires Valid()
      modifies this`active, sink
      ensures Valid() && active.None? && sink.AllClosed()
    {
      if active.Some? { AbortEpoch(); }
      CloseSession();
    }

    method AbortEpoch()
      requires Valid() && active.Some?
      modifies this`active, sink
      ensures Valid() && active.None?
    {
      ghost var before := sink.log;
      var aborted := sink.Abort();
      Resume(before);
      if sink.current.Some? { WriteAborted(before, sink.current.value, aborted, sink.log); }
      MarkAborted();
    }

    method CloseSession()
      requires Valid() && active.None?
      modifies sink
      ensures Valid() && sink.AllClosed()
    {
      ghost var before := sink.log;
      var closed := sink.Close();
      Resume(before);
    }

    /**
      RunContinuous. Whatever the environment answers, the log is orderly and the calls on every sink instance are
      proper, in every prefix; and unless the process stopped, every epoch begun was ended and every instance opened was
      closed.
     */
    method RunContinuous(revision: int) returns (outcome: Outcome)
      requires Valid() && active.None? && pending == [] && sink.current.Some? && !sink.isOpen && sink.schemas == map[]
      requires NextEpoch(cfg.rules.first, sink.log) == cfg.rules.first
      modifies this`pipe, this`active, this`pending, sink, store
      ensures Orderly(cfg.rules, sink.log) && Proper(sink.reusable, sink.log)
      ensures Backed(cfg.rules, store.certs, sink.log)
      ensures !outcome.Stopped? ==> OpenEpoch(sink.log).None? && sink.AllClosed()
    {
      var configured: bool := *;
      ghost var before := sink.log;
      if !configured {
        var closed := sink.CloseUnopened();
        Resume(before);
        return Return(true);
      }
      var ready := sink.Open();
      Resume(before);
      if !ready {
        Cleanup();
        return Return(true);
      }
      PrepareSchemas();
      var prepared: bool := *;
      outcome := Return(true);
      if prepared { outcome := RunEpochs(revision); }
      if !outcome.Stopped? { Cleanup(); }
    }
  }

  function Publications(facts: seq<Fact>): seq<Event> {
    seq(|facts|, i requires 0 <= i < |facts| => Published(facts[i]))
  }

  lemma PublishedMore(log: seq<Event>, facts: seq<Fact>, i: nat)
    requires i <= |facts|
    ensures log + Publications(facts[..0]) == log
    ensures i < |facts| ==> log + Publications(facts[..i + 1]) == log + Publications(facts[..i]) + [Published(facts[i])]
  {
    assert Publications(facts[..0]) == [];
    if i < |facts| { assert Publications(facts[..i + 1]) == Publications(facts[..i]) + [Published(facts[i])]; }
  }

  lemma DerivedFit(receipts: seq<Receipt>, c: P.Completion)
    requires Int64Completion(c) && IsDerived(receipts, c.resources)
    ensures FieldsFit(receipts)
  {}

  predicate Int64Completion(c: P.Completion) {
    && IsInt64(c.total.rows) && IsInt64(c.total.bytes)
    && forall r :: r in c.resources ==> IsInt64(c.resources[r].rows) && IsInt64(c.resources[r].bytes)
  }
}
