/** What a sealed epoch proves, and what global strict ordering delivers, in every run. */
module EpochTheorem {
  import opened RowModel
  import opened Progress
  import opened Epochs
  import opened EpochPipeline
  import opened EpochInvariant

  /** A state some interleaving reaches from a new pipeline. */
  ghost predicate Reachable(cfg: Config, s: State) { exists actions :: Run(cfg, Start, actions) == s }

  lemma ReachableInv(cfg: Config, s: State)
    requires Reachable(cfg, s)
    ensures Inv(cfg, s)
  {
    var actions :| Run(cfg, Start, actions) == s;
    StartInv(cfg);
    RunInv(cfg, Start, actions);
  }

  /** The completion evidence matches the batches the writer applied since BindEpoch. */
  ghost predicate Evidence(c: Completion, s: State) {
    && s.epoch.ref == Some(c.ref) && c.positions == s.epoch.completed && c.positions != map[]
    && c.total == TotalsOf(s.log.applied)
    && (forall r :: r in c.resources <==> Of(s.log.applied, r) != [])
    && (forall r :: r in c.resources ==> c.resources[r] == TotalsOf(Of(s.log.applied, r)))
  }

  /**
    When SealEpoch succeeds, in any interleaving: nothing is buffered, queued or held by a consumer; no
    transaction is open; resource by resource the rows ended since BindEpoch are exactly the rows of batches
    whose Apply receipts matched, in order; those batches hold only rows of this epoch; and the sealed totals
    are the sums over them.
   */
  lemma SealedEpoch(cfg: Config, s: State)
    requires Reachable(cfg, s) && Step(cfg, s, SealAction).log.seals != s.log.seals
    ensures Flight(s.lanes) == [] && Empty(s.inlet.writers) && s.inlet.transactions == map[]
    ensures forall r :: For(s.log.sinceBind, r) == For(AppliedRows(s.log.applied), r)
    ensures s.epoch.ref.Some? && AppliedPure(s)
    ensures var seals := Step(cfg, s, SealAction).log.seals;
            |seals| > 0 && Evidence(seals[|seals| - 1], s)
  {
    ReachableInv(cfg, s);
    assert Seals(s) && Quiet(s);
    NothingInFlight(Flight(s.lanes));
    forall r ensures For(s.log.sinceBind, r) == For(AppliedRows(s.log.applied), r) {
      QuietOutstanding(s, r);
    }
  }

  lemma NothingInFlight(items: seq<Item>)
    requires AllData(items) && NoData(items)
    ensures items == []
  {
    HasMember(items);
  }

  lemma HasMember(items: seq<Item>)
    ensures items != [] ==> exists x :: x in items
  {
    if items != [] { assert items[0] in items; }
  }

  /** Every single row ended since BindEpoch is in an applied batch of its own resource. */
  lemma SealedRow(cfg: Config, s: State, row: Row)
    requires Reachable(cfg, s) && Step(cfg, s, SealAction).log.seals != s.log.seals && row in s.log.sinceBind
    ensures exists i ::
              0 <= i < |s.log.applied| && row in s.log.applied[i].rows && s.log.applied[i].resource == row.resource
  {
    SealedEpoch(cfg, s);
    ForMember(s.log.sinceBind, row);
    ForMember(AppliedRows(s.log.applied), row);
    AppliedMember(s.log.applied, row);
    var i :| 0 <= i < |s.log.applied| && row in s.log.applied[i].rows;
  }

  lemma {:induction false} ForMember(rows: seq<Row>, row: Row)
    ensures row in rows <==> row in For(rows, row.resource)
  {
    if rows != [] {
      assert rows == [rows[0]] + rows[1..];
      ForMember(rows[1..], row);
      ForSubset(rows[1..], row.resource);
    }
  }

  lemma {:induction false} ForSubset(rows: seq<Row>, r: Resource)
    ensures forall x :: x in For(rows, r) ==> x in rows
  {
    if rows != [] { ForSubset(rows[1..], r); }
  }

  lemma {:induction false} AppliedMember(applied: seq<Applied>, row: Row)
    requires row in AppliedRows(applied)
    ensures exists i :: 0 <= i < |applied| && row in applied[i].rows
  {
    var front := applied[..|applied| - 1];
    if row in AppliedRows(front) {
      AppliedMember(front, row);
      var i :| 0 <= i < |front| && row in front[i].rows;
      assert applied[i] == front[i];
    }
  }

  // ---- global strict ordering ----

  function ActiveRows(inlet: Inlet): seq<Row> {
    if inlet.active.Some? then BufferOf(inlet.writers, inlet.active.value) else []
  }

  /** No resource passes through the transformer: there is no transform, or it names no resource. */
  predicate NoPlans(cfg: Config) { !cfg.transform || cfg.planned == {} }

  /** At most one writer holds rows, the active one; the sink has received a prefix of the rows in ending order; and
      rows are lost only by a pipeline that failed. */
  ghost predicate StrictInv(s: State) {
    && (s.log.lost ==> s.err)
    && (forall j :: 0 <= j < |s.inlet.writers| && s.inlet.writers[j].buffered != [] ==>
        s.inlet.active == Some(s.inlet.writers[j].resource))
    && (!s.log.lost ==> s.log.ended == s.log.delivered + RowsIn(Flight(s.lanes)) + ActiveRows(s.inlet))
    && s.log.delivered + RowsIn(Held(s.lanes.wHand)) <= s.log.ended
  }

  /** The state changed in nothing that ordering depends on. */
  lemma StrictSame(s: State, t: State)
    requires StrictInv(s) && t.lanes == s.lanes && t.log.ended == s.log.ended && t.log.delivered == s.log.delivered
    requires t.log.lost == s.log.lost && (s.err ==> t.err)
    requires t.inlet.writers == s.inlet.writers && t.inlet.active == s.inlet.active
    ensures StrictInv(t)
  {}

  /** Distinct writers of pure rows; only controls are on the way to the transformer. */
  ghost predicate OneLane(s: State) { WritersOk(s.inlet.writers, s.epoch.ref) && NoData(Back(s.lanes)) }

  /** Then the rows in flight are those on the way to the writer. */
  lemma FrontRows(l: Lanes)
    requires NoData(Back(l))
    ensures RowsIn(Flight(l)) == RowsIn(Front(l))
  {
    RowsInAppend(Front(l), Back(l));
    NoRowsIn(Back(l));
    EmptyRight(RowsIn(Front(l)));
  }

  lemma FrontPut(l: Lanes, item: Item)
    requires NoData(Back(l))
    ensures RowsIn(Flight(l.(batchCh := l.batchCh + [item]))) == RowsIn(Flight(l)) + RowsIn([item])
  {
    var m := l.(batchCh := l.batchCh + [item]);
    FrontRows(l);
    FrontRows(m);
    Associative(Held(l.wHand), l.batchCh, [item]);
    RowsInAppend(Front(l), [item]);
  }

  lemma InvOneLane(cfg: Config, s: State)
    requires Inv(cfg, s) && NoPlans(cfg)
    ensures OneLane(s)
  {}

  /** Which rows the active writer holds after one writer changed. */
  lemma ActiveRowsUpdate(inlet: Inlet, next: Inlet, i: nat, w: Writer, e: Option<EpochRef>)
    requires WritersOk(inlet.writers, e) && i < |inlet.writers| && w.resource == inlet.writers[i].resource
    requires next.writers == inlet.writers[i := w] && next.active == inlet.active
    ensures ActiveRows(next) == if inlet.active == Some(w.resource) then w.buffered else ActiveRows(inlet)
    ensures inlet.active == Some(w.resource) ==> ActiveRows(inlet) == inlet.writers[i].buffered
  {
    if inlet.active.Some? { BufferOfUpdate(inlet.writers, i, w, inlet.active.value); }
  }

  lemma StrictSendChunk(cfg: Config, s: State, i: nat, sent: bool)
    requires NoPlans(cfg) && OneLane(s) && StrictInv(s) && i < |s.inlet.writers| && SendChunk(cfg, s, i, sent).Finished?
    ensures StrictInv(SendChunk(cfg, s, i, sent).s)
    ensures SendChunk(cfg, s, i, sent).s.inlet.active == s.inlet.active
  {
    var w, t := s.inlet.writers[i], SendChunk(cfg, s, i, sent).s;
    if w.buffered != [] {
      ActiveRowsUpdate(s.inlet, t.inlet, i, w.(buffered := []), s.epoch.ref);
      if sent {
        var item := Data(w.resource, w.buffered, s.epoch.ref);
        FrontPut(s.lanes, item);
        assert RowsIn([item]) == w.buffered;
        Associative(s.log.delivered, RowsIn(Flight(s.lanes)), w.buffered);
      }
    }
  }

  lemma StrictFlush(cfg: Config, s: State, i: nat, sent: bool)
    requires NoPlans(cfg) && OneLane(s) && StrictInv(s) && i < |s.inlet.writers|
    requires FlushWriter(cfg, s, i, sent).Finished?
    ensures StrictInv(FlushWriter(cfg, s, i, sent).s)
    ensures FlushWriter(cfg, s, i, sent).s.inlet.active == s.inlet.active
  {
    if !s.err && !s.inlet.writers[i].closed && !s.inlet.writers[i].inRow { StrictSendChunk(cfg, s, i, sent); }
  }

  /** Making a writer active when no other one holds rows. */
  lemma StrictOpenRow(s: State, i: nat)
    requires OneLane(s) && StrictInv(s) && i < |s.inlet.writers|
    requires s.inlet.active == Some(s.inlet.writers[i].resource) || Empty(s.inlet.writers)
    ensures StrictInv(OpenRow(s, i))
  {
    var w := s.inlet.writers[i];
    var same := s.inlet.(active := Some(w.resource));
    ActiveRowsUpdate(same, OpenRow(s, i).inlet, i, w.(inRow := true), s.epoch.ref);
    if s.inlet.active != Some(w.resource) {
      NoBuffers(s.inlet.writers, w.resource);
      if s.inlet.active.Some? { NoBuffers(s.inlet.writers, s.inlet.active.value); }
    }
  }

  /** Rows held by nobody but a writer that is not there, or was just flushed, are held by nobody. */
  lemma OnlyActive(s: State)
    requires StrictInv(s)
    requires s.inlet.active.Some? ==>
               forall j :: 0 <= j < |s.inlet.writers| && s.inlet.writers[j].resource == s.inlet.active.value ==>
                 s.inlet.writers[j].buffered == []
    ensures Empty(s.inlet.writers)
  {}

  lemma StrictBeforeWrite(cfg: Config, s: State, i: nat, sent: bool)
    requires cfg.strict && NoPlans(cfg) && Inv(cfg, s) && StrictInv(s) && i < |s.inlet.writers| && s.inlet.pc.Idle?
    requires BeforeWrite(cfg, s, i, sent).Finished?
    ensures var o := BeforeWrite(cfg, s, i, sent);
            StrictInv(o.s) && (o.ok ==> o.s.inlet.active == Some(o.s.inlet.writers[i].resource))
  {
    if !s.epoch.sealed && Ready(s) && !s.inlet.writers[i].closed {
      TouchInv(cfg, s);
      StrictSame(s, Touch(s));
      StrictSwitch(cfg, Touch(s), i, sent);
    }
  }

  lemma StrictSwitch(cfg: Config, s: State, i: nat, sent: bool)
    requires cfg.strict && NoPlans(cfg) && Inv(cfg, s) && StrictInv(s) && i < |s.inlet.writers| && s.inlet.pc.Idle?
    ensures var other := Switched(cfg, s.inlet, s.inlet.writers[i].resource);
            && (other < 0 ==> StrictInv(OpenRow(s, i)))
            && (other >= 0 ==> var f := FlushWriter(cfg, s, other, sent);
                  f.Finished? ==> StrictInv(f.s) && (f.ok ==> StrictInv(OpenRow(f.s, i))))
  {
    InvOneLane(cfg, s);
    var other := Switched(cfg, s.inlet, s.inlet.writers[i].resource);
    if other < 0 {
      if s.inlet.active != Some(s.inlet.writers[i].resource) { OnlyActive(s); }
      StrictOpenRow(s, i);
    } else {
      var f := FlushWriter(cfg, s, other, sent);
      if f.Finished? {
        StrictFlush(cfg, s, other, sent);
        FlushWriterInv(cfg, s, other, sent);
        if f.ok {
          FlushedOne(cfg, f.s, other);
          StrictOpenRow(f.s, i);
        }
      }
    }
  }

  lemma FlushedOne(cfg: Config, s: State, other: nat)
    requires Inv(cfg, s) && NoPlans(cfg) && StrictInv(s) && other < |s.inlet.writers|
    requires s.inlet.writers[other].buffered == []
    requires s.inlet.active == Some(s.inlet.writers[other].resource)
    ensures OneLane(s) && Empty(s.inlet.writers)
  {
    OnlyActive(s);
  }

  lemma StrictAddRow(s: State, i: nat, value: int)
    requires OneLane(s) && StrictInv(s) && i < |s.inlet.writers| && s.inlet.active == Some(s.inlet.writers[i].resource)
    ensures StrictInv(AddRow(s, i, value))
  {
    var t := AddRow(s, i, value);
    ActiveRowsUpdate(s.inlet, t.inlet, i, t.inlet.writers[i], s.epoch.ref);
  }

  lemma StrictClosed(s: State, i: nat)
    requires OneLane(s) && StrictInv(s) && i < |s.inlet.writers| && (s.inlet.writers[i].buffered != [] ==> s.err)
    ensures StrictInv(Closed(s, i))
  {
    var w, t := s.inlet.writers[i], Closed(s, i);
    ActiveRowsUpdate(s.inlet, t.inlet.(active := s.inlet.active), i, t.inlet.writers[i], s.epoch.ref);
  }

  lemma StrictClose(cfg: Config, s: State, i: nat, sent: bool)
    requires NoPlans(cfg) && Inv(cfg, s) && StrictInv(s) && i < |s.inlet.writers| && s.inlet.pc.Idle?
    requires CloseWriter(cfg, s, i, sent).Finished?
    ensures StrictInv(CloseWriter(cfg, s, i, sent).s)
  {
    if !s.inlet.writers[i].closed {
      InvOneLane(cfg, s);
      StrictFlush(cfg, s, i, sent);
      FlushWriterInv(cfg, s, i, sent);
      InvOneLane(cfg, FlushWriter(cfg, s, i, sent).s);
      StrictClosed(FlushWriter(cfg, s, i, sent).s, i);
    }
  }

  lemma StrictOpen(s: State, r: Resource)
    requires StrictInv(s)
    ensures StrictInv(OpenBuilder(s, r))
  {
    if s.inlet.active.Some? {
      BufferOfAppend(s.inlet.writers, [Writer(r, [], false, false)], s.inlet.active.value);
      assert BufferOf([Writer(r, [], false, false)], s.inlet.active.value) == [];
    }
  }

  lemma StrictWithout(s: State, i: nat)
    requires StrictInv(s) && i < |s.inlet.writers| && s.inlet.writers[i].buffered == []
    ensures StrictInv(WithoutWriter(s, i))
  {
    var ws, t := s.inlet.writers, WithoutWriter(s, i);
    if s.inlet.active.Some? { BufferOfWithout(ws, i, s.inlet.active.value); }
    assert forall j :: 0 <= j < |t.inlet.writers| ==> t.inlet.writers[j] == ws[Kept(i, j)];
  }

  lemma StrictMessage(cfg: Config, s: State, r: Resource, same: bool, sent: bool)
    requires cfg.strict && NoPlans(cfg) && Inv(cfg, s) && StrictInv(s) && s.inlet.pc.Idle?
    ensures StrictInv(MessageBuilder(cfg, s, r, same, sent))
  {
    var i := Find(s.inlet.writers, r);
    StrictOpen(s, r);
    if i >= 0 {
      var c := CloseWriter(cfg, s, i, sent);
      if c.Finished? {
        StrictClose(cfg, s, i, sent);
        CloseWriterInv(cfg, s, i, sent);
        if c.ok {
          StrictWithout(c.s, i);
          StrictOpen(WithoutWriter(c.s, i), r);
        }
      }
    }
  }

  lemma StrictEndRow(cfg: Config, s: State, i: nat, value: int, complete: bool, full: bool, switched: bool, sent: bool)
    requires cfg.strict && NoPlans(cfg) && Inv(cfg, s) && StrictInv(s) && i < |s.inlet.writers| && s.inlet.pc.Idle?
    ensures StrictInv(Unblocked(s, EndRow(cfg, s, i, value, complete, full, switched, sent)))
  {
    var b := BeforeWrite(cfg, s, i, switched);
    if b.Finished? {
      StrictBeforeWrite(cfg, s, i, switched);
      BeforeWriteInv(cfg, s, i, switched);
      if b.ok && complete { StrictRowAdded(cfg, b.s, i, value, sent); }
    }
  }

  lemma StrictRowAdded(cfg: Config, s: State, i: nat, value: int, sent: bool)
    requires NoPlans(cfg) && Inv(cfg, s) && StrictInv(s) && i < |s.inlet.writers|
    requires s.inlet.active == Some(s.inlet.writers[i].resource)
    requires s.inlet.pc.Idle? && !s.inlet.writers[i].closed && !s.epoch.sealed && s.epoch.touched
    requires s.epoch.completed == map[]
    ensures StrictInv(AddRow(s, i, value))
    ensures SendChunk(cfg, AddRow(s, i, value), i, sent).Finished? ==>
              StrictInv(SendChunk(cfg, AddRow(s, i, value), i, sent).s)
  {
    InvOneLane(cfg, s);
    StrictAddRow(s, i, value);
    AddRowInv(cfg, s, i, value);
    InvOneLane(cfg, AddRow(s, i, value));
    if SendChunk(cfg, AddRow(s, i, value), i, sent).Finished? { StrictSendChunk(cfg, AddRow(s, i, value), i, sent); }
  }

  lemma StrictAppendCall(cfg: Config, s: State, i: nat, sent: bool)
    requires cfg.strict && NoPlans(cfg) && Inv(cfg, s) && StrictInv(s) && s.inlet.pc.Idle? && i < |s.inlet.writers|
    ensures StrictInv(Unblocked(s, BeforeWrite(cfg, s, i, sent)))
  {
    if BeforeWrite(cfg, s, i, sent).Finished? { StrictBeforeWrite(cfg, s, i, sent); }
  }

  lemma StrictFlushCall(cfg: Config, s: State, i: nat, sent: bool)
    requires NoPlans(cfg) && Inv(cfg, s) && StrictInv(s) && i < |s.inlet.writers|
    ensures StrictInv(Unblocked(s, FlushWriter(cfg, s, i, sent)))
  {
    InvOneLane(cfg, s);
    if FlushWriter(cfg, s, i, sent).Finished? { StrictFlush(cfg, s, i, sent); }
  }

  lemma StrictCloseCall(cfg: Config, s: State, i: nat, sent: bool)
    requires NoPlans(cfg) && Inv(cfg, s) && StrictInv(s) && s.inlet.pc.Idle? && i < |s.inlet.writers|
    ensures StrictInv(Unblocked(s, CloseWriter(cfg, s, i, sent)))
  {
    if CloseWriter(cfg, s, i, sent).Finished? { StrictClose(cfg, s, i, sent); }
  }

  /** The calls on one resource's writer. */
  lemma StrictWriterCall(cfg: Config, s: State, a: Action)
    requires cfg.strict && NoPlans(cfg) && Inv(cfg, s) && StrictInv(s) && s.inlet.pc.Idle?
    requires a.AppendAction? || a.EndRowAction? || a.FlushAction? || a.CloseAction?
    ensures StrictInv(ProducerCall(cfg, s, a))
  {
    var i := Find(s.inlet.writers, a.resource);
    if i >= 0 {
      match a
      case AppendAction(r, sent) => StrictAppendCall(cfg, s, i, sent);
      case EndRowAction(r, value, complete, full, switched, sent) =>
        StrictEndRow(cfg, s, i, value, complete, full, switched, sent);
      case FlushAction(r, sent) => StrictFlushCall(cfg, s, i, sent);
      case CloseAction(r, sent) => StrictCloseCall(cfg, s, i, sent);
    }
  }

  /** The calls that leave rows, lanes and writers alone. */
  lemma StrictQuietCall(cfg: Config, s: State, a: Action)
    requires StrictInv(s) && (a.BarrierAction? || a.BindAction? || a.SealAction? || a.CloseIngestAction?)
    ensures StrictInv(ProducerCall(cfg, s, a))
  {
    StrictSame(s, ProducerCall(cfg, s, a));
  }

  lemma StrictProducerCall(cfg: Config, s: State, a: Action)
    requires cfg.strict && NoPlans(cfg) && Inv(cfg, s) && StrictInv(s) && s.inlet.pc.Idle?
    ensures StrictInv(ProducerCall(cfg, s, a))
  {
    if a.OpenAction? {
      StrictOpen(s, a.resource);
    } else if a.MessageAction? {
      StrictMessage(cfg, s, a.resource, a.sameModel, a.sent);
    } else if a.BarrierAction? || a.BindAction? || a.SealAction? || a.CloseIngestAction? {
      StrictQuietCall(cfg, s, a);
    } else if a.AppendAction? || a.EndRowAction? || a.FlushAction? || a.CloseAction? {
      StrictWriterCall(cfg, s, a);
    }
  }

  lemma StrictFlushNext(cfg: Config, s: State, next: nat, sent: bool, pc: Producer)
    requires NoPlans(cfg) && OneLane(s) && StrictInv(s)
    ensures StrictInv(Advance(s, FlushNext(cfg, s, next, sent), pc))
  {
    var f := FlushNext(cfg, s, next, sent);
    if next < |s.inlet.writers| && !s.inlet.writers[next].closed && f.Finished? { StrictFlush(cfg, s, next, sent); }
    if f.Finished? {
      StrictSame(f.s, if f.ok then At(f.s, pc) else At(Fail(f.s), Idle));
    }
  }

  lemma StrictMarker(cfg: Config, s: State, c: Control, sent: bool)
    requires OneLane(s) && StrictInv(s)
    ensures StrictInv(SendMarker(cfg, s, c, sent))
  {
    var m := Marker(c, s.inlet.sequence + 1);
    var rows := RowsIn(Flight(s.lanes));
    assert RowsIn([m]) == [];
    EmptyRight(rows);
    if cfg.transform {
      PutTransform(s.lanes, m);
      RowsInAppend(Flight(s.lanes), [m]);
    } else {
      FrontPut(s.lanes, m);
    }
  }

  lemma StrictWaiting(cfg: Config, s: State, sent: bool)
    requires StrictInv(s) && s.inlet.pc.Waiting?
    ensures StrictInv(ProducerAdvance(cfg, s, sent))
  {
    StrictSame(s, ProducerAdvance(cfg, s, sent));
  }

  lemma StrictFlushing(cfg: Config, s: State, sent: bool)
    requires NoPlans(cfg) && OneLane(s) && StrictInv(s) && (s.inlet.pc.Flushing? || s.inlet.pc.Draining?)
    ensures StrictInv(ProducerAdvance(cfg, s, sent))
  {
    var next := s.inlet.pc.next;
    var pc := if s.inlet.pc.Flushing? then Flushing(s.inlet.pc.control, next + 1) else Draining(next + 1);
    StrictFlushNext(cfg, s, next, sent, pc);
    StrictSame(s, At(s, if s.inlet.pc.Flushing? then Sending(s.inlet.pc.control) else Idle));
  }

  lemma StrictAdvance(cfg: Config, s: State, sent: bool)
    requires NoPlans(cfg) && OneLane(s) && StrictInv(s)
    ensures StrictInv(ProducerAdvance(cfg, s, sent))
  {
    if s.inlet.pc.Flushing? || s.inlet.pc.Draining? {
      StrictFlushing(cfg, s, sent);
    } else if s.inlet.pc.Sending? {
      StrictMarker(cfg, s, s.inlet.pc.control, sent);
    } else if s.inlet.pc.Waiting? {
      StrictWaiting(cfg, s, sent);
    }
  }

  lemma StrictMarkerTaken(s: State, t: State, item: Item, back: seq<Item>)
    requires StrictInv(s) && s.lanes.wHand.None? && t.lanes.wHand.None? && item.Marker?
    requires Flight(s.lanes) == [item] + back && Flight(t.lanes) == back
    requires t.log == s.log && t.err == s.err && t.inlet.writers == s.inlet.writers && t.inlet.active == s.inlet.active
    ensures StrictInv(t)
  {
    EmptyLeft(back);
    EmptyLeft([item] + back);
    DropMarker([], item, back);
  }

  lemma StrictDataTaken(s: State, t: State, item: Item, back: seq<Item>)
    requires StrictInv(s) && !s.log.lost && item.Data? && Flight(s.lanes) == [item] + back
    requires t == s.(lanes := t.lanes) && Flight(t.lanes) == Flight(s.lanes) && t.lanes.wHand == Some(item)
    ensures StrictInv(t)
  {
    RowsInAppend([item], back);
    assert RowsIn([item]) == item.rows;
    Associative(s.log.delivered, item.rows, RowsIn(back));
    Associative(s.log.delivered + item.rows, RowsIn(back), ActiveRows(s.inlet));
  }

  lemma StrictWriterTake(s: State)
    requires StrictInv(s)
    ensures StrictInv(WriterTake(s))
  {
    var t := WriterTake(s);
    if s.lanes.wHand.None? && s.lanes.batchCh != [] {
      var item := s.lanes.batchCh[0];
      var back := Flight(s.lanes.(batchCh := s.lanes.batchCh[1..]));
      TakenFlight(s.lanes);
      if s.err {
        if item.Marker? { StrictMarkerTaken(s, t, item, back); }
      } else if item.Marker? {
        StrictMarkerTaken(s, t, item, back);
      } else {
        StrictDataTaken(s, t, item, back);
      }
    }
  }

  lemma StrictDelivered(s: State, t: State, item: Item)
    requires StrictInv(s) && s.lanes.wHand == Some(item) && item.Data? && t.lanes == s.lanes.(wHand := None)
    requires t.inlet == s.inlet
    requires t.log.ended == s.log.ended && t.log.delivered == s.log.delivered + item.rows && t.log.lost == s.log.lost
    requires t.err == s.err
    ensures StrictInv(t)
  {
    var back := Flight(t.lanes);
    HandFlight(s.lanes, item);
    RowsInAppend([item], back);
    assert RowsIn([item]) == item.rows;
    Associative(s.log.delivered, item.rows, RowsIn(back));
    EmptyRight(t.log.delivered);
  }

  lemma StrictWriterFinish(cfg: Config, s: State, r: WriteResult)
    requires StrictInv(s)
    ensures StrictInv(WriterFinish(cfg, s, r))
  {
    if s.lanes.wHand.Some? && s.lanes.wHand.value.Data? && ReceiptMatches(cfg, s.lanes.wHand.value, r) {
      StrictDelivered(s, WriterFinish(cfg, s, r), s.lanes.wHand.value);
    }
  }

  lemma MarkersOnly(l: Lanes, m: Lanes)
    requires NoData(Back(l)) && NoData(Back(m)) && m.wHand == l.wHand && m.batchCh == l.batchCh
    ensures RowsIn(Flight(m)) == RowsIn(Flight(l))
  {
    FrontRows(l);
    FrontRows(m);
  }

  /** The transformer moves controls only, and no rows with them. */
  lemma StrictTransformer(cfg: Config, s: State, ok: bool, sent: bool)
    requires OneLane(s) && StrictInv(s)
    ensures StrictInv(TransformerTake(s)) && StrictInv(TransformerForward(cfg, s, ok, sent))
  {
    if s.lanes.xHand.None? && s.lanes.transformCh != [] {
      var head := s.lanes.transformCh[0];
      assert head in Back(s.lanes);
      MarkersOnly(s.lanes, TransformerTake(s).lanes);
    }
    if s.lanes.xHand.Some? {
      var item, freed := s.lanes.xHand.value, s.lanes.(xHand := None);
      assert item in Back(s.lanes);
      assert NoData(Back(freed));
      MarkersOnly(s.lanes, freed);
      FrontPut(freed, item);
      assert RowsIn([item]) == [];
      EmptyRight(RowsIn(Flight(freed)));
    }
  }

  lemma StrictStep(cfg: Config, s: State, a: Action)
    requires cfg.strict && NoPlans(cfg) && Inv(cfg, s) && StrictInv(s)
    ensures StrictInv(Step(cfg, s, a))
  {
    InvOneLane(cfg, s);
    if a.ContinueAction? {
      StrictAdvance(cfg, s, a.sent);
    } else if Concurrent(a) {
      StrictConcurrent(cfg, s, a);
    } else if s.inlet.pc.Idle? {
      StrictProducerCall(cfg, s, a);
    }
  }

  lemma StrictConcurrent(cfg: Config, s: State, a: Action)
    requires OneLane(s) && StrictInv(s) && Concurrent(a)
    ensures StrictInv(Step(cfg, s, a))
  {
    if a.TransformTake? {
      StrictTransformer(cfg, s, true, true);
    } else if a.TransformForward? {
      StrictTransformer(cfg, s, a.ok, a.sent);
    } else if a.WriteTake? {
      StrictWriterTake(s);
    } else if a.WriteFinish? {
      StrictWriterFinish(cfg, s, a.result);
    } else {
      StrictSame(s, Step(cfg, s, a));
    }
  }

  lemma {:induction false} StrictRun(cfg: Config, s: State, actions: seq<Action>)
    requires cfg.strict && NoPlans(cfg) && Inv(cfg, s) && StrictInv(s)
    ensures StrictInv(Run(cfg, s, actions))
    decreases |actions|
  {
    if actions != [] {
      StepInv(cfg, s, actions[0]);
      StrictStep(cfg, s, actions[0]);
      StrictRun(cfg, Step(cfg, s, actions[0]), actions[1..]);
    }
  }

  /**
    Under global strict ordering when no resource is transformed, in every run and at every moment: at most one writer
    holds rows, and what the sink received is a prefix of the rows in the order they were ended across all
    resources, and all of them once nothing is outstanding and nothing failed.
   */
  lemma StrictOrder(cfg: Config, s: State)
    requires cfg.strict && NoPlans(cfg) && Reachable(cfg, s)
    ensures s.log.delivered <= s.log.ended
    ensures !s.err && Quiet(s) ==> s.log.delivered == s.log.ended
    ensures forall j, k :: 0 <= j < k < |s.inlet.writers| ==>
              s.inlet.writers[j].buffered == [] || s.inlet.writers[k].buffered == []
  {
    var actions :| Run(cfg, Start, actions) == s;
    StartInv(cfg);
    StrictRun(cfg, Start, actions);
    ReachableInv(cfg, s);
    assert s.log.delivered <= s.log.delivered + RowsIn(Held(s.lanes.wHand));
    if !s.err && Quiet(s) {
      NoRowsIn(Flight(s.lanes));
      if s.inlet.active.Some? { NoBuffers(s.inlet.writers, s.inlet.active.value); }
    }
  }

  // ---- the condition is needed ----

  ghost predicate AllIdle(s: State) {
    Ready(s) && !s.epoch.sealed && s.epoch.ref.None? && s.inlet.pc.Idle?
    && forall j :: 0 <= j < |s.inlet.writers| ==>
         s.inlet.writers[j] == Writer(s.inlet.writers[j].resource, [], false, false)
  }

  lemma SwitchIdle(cfg: Config, s: State, i: nat)
    requires AllIdle(s) && i < |s.inlet.writers|
    ensures BeforeWrite(cfg, s, i, true) == Finished(OpenRow(Touch(s), i), true)
  {
    var other := Switched(cfg, s.inlet, s.inlet.writers[i].resource);
    if other >= 0 { assert FlushWriter(cfg, Touch(s), other, true) == Finished(Touch(s), true); }
  }

  /** A full row on an idle pipeline goes straight to its lane. */
  lemma FullRow(cfg: Config, s: State, i: nat, value: int)
    requires AllIdle(s) && i < |s.inlet.writers|
    requires var r := s.inlet.writers[i].resource;
             Put(cfg, s.lanes, Planned(cfg, r), Data(r, [Row(r, None, value)], None)).Some?
    ensures var r := s.inlet.writers[i].resource;
            var o := EndRow(cfg, s, i, value, true, true, true, true);
            && o.Finished? && AllIdle(o.s) && o.s.inlet.writers == s.inlet.writers
            && Some(o.s.lanes) == Put(cfg, s.lanes, Planned(cfg, r), Data(r, [Row(r, None, value)], None))
            && o.s.log.ended == s.log.ended + [Row(r, None, value)] && o.s.log.delivered == s.log.delivered
  {
    SwitchIdle(cfg, s, i);
    var w := s.inlet.writers[i];
    var before := OpenRow(Touch(s), i);
    var row := Row(w.resource, None, value);
    var added := AddRow(before, i, value);
    assert added.inlet.writers[i] == Writer(w.resource, [row], false, false) by { assert [] + [row] == [row]; }
    assert added.inlet.writers[i := Writer(w.resource, [], false, false)] == s.inlet.writers;
  }

  lemma {:induction false} RunAppend(cfg: Config, s: State, actions: seq<Action>, a: Action)
    ensures Run(cfg, s, actions + [a]) == Step(cfg, Run(cfg, s, actions), a)
    decreases |actions|
  {
    if actions == [] {
      assert [] + [a] == [a] && [a][1..] == [];
    } else {
      RunAppend(cfg, Step(cfg, s, actions[0]), actions[1..], a);
      assert (actions + [a])[1..] == actions[1..] + [a];
    }
  }

  lemma ReachStep(cfg: Config, s: State, a: Action)
    requires Reachable(cfg, s)
    ensures Reachable(cfg, Step(cfg, s, a))
  {
    var actions :| Run(cfg, Start, actions) == s;
    RunAppend(cfg, Start, actions, a);
  }

  lemma ReachFullRow(cfg: Config, s: State, r: Resource, value: int) returns (t: State)
    requires Reachable(cfg, s) && AllIdle(s) && Find(s.inlet.writers, r) >= 0
    requires Put(cfg, s.lanes, Planned(cfg, r), Data(r, [Row(r, None, value)], None)).Some?
    ensures Reachable(cfg, t) && AllIdle(t) && t.inlet.writers == s.inlet.writers
    ensures Some(t.lanes) == Put(cfg, s.lanes, Planned(cfg, r), Data(r, [Row(r, None, value)], None))
    ensures t.log.ended == s.log.ended + [Row(r, None, value)] && t.log.delivered == s.log.delivered
  {
    FullRow(cfg, s, Find(s.inlet.writers, r), value);
    ReachStep(cfg, s, EndRowAction(r, value, true, true, true, true));
    t := Step(cfg, s, EndRowAction(r, value, true, true, true, true));
  }

  lemma ReachTwoWriters(cfg: Config, a: Resource, b: Resource) returns (s: State)
    requires a != b
    ensures Reachable(cfg, s) && AllIdle(s) && Find(s.inlet.writers, a) >= 0 && Find(s.inlet.writers, b) >= 0
    ensures s.lanes == Start.lanes && s.log == Start.log
  {
    assert Run(cfg, Start, []) == Start;
    ReachStep(cfg, Start, OpenAction(a));
    var one := Step(cfg, Start, OpenAction(a));
    ReachStep(cfg, one, OpenAction(b));
    s := Step(cfg, one, OpenAction(b));
    assert s.inlet.writers == [Writer(a, [], false, false), Writer(b, [], false, false)];
  }

  lemma ReachApplied(cfg: Config, s: State, row: Row) returns (t: State)
    requires Reachable(cfg, s) && !s.err && s.lanes.wHand.None? && s.lanes.batchCh == [Data(row.resource, [row], None)]
    ensures Reachable(cfg, t) && t.log.delivered == s.log.delivered + [row] && t.log.ended == s.log.ended
  {
    ReachStep(cfg, s, WriteTake);
    var taken := Step(cfg, s, WriteTake);
    assert taken.lanes.wHand == Some(Data(row.resource, [row], None));
    ReachStep(cfg, taken, WriteFinish(Receipt(1, 0, true, true)));
    t := Step(cfg, taken, WriteFinish(Receipt(1, 0, true, true)));
  }

  /** Some resource is in no given finite set. */
  lemma {:induction false} Unplanned(planned: set<Resource>) returns (b: Resource)
    ensures b !in planned && forall r :: r in planned ==> |r.name| < |b.name|
  {
    if planned == {} {
      b := Resource("");
    } else {
      var r :| r in planned;
      var rest := Unplanned(planned - {r});
      b := if |r.name| < |rest.name| then rest else Resource(r.name + "x");
    }
  }

  /** With a plan for some resource, a planned row waits for the transformer while a later row of another resource is
      applied. */
  lemma TransformReorders(cfg: Config) returns (s: State)
    requires cfg.capacity > 0 && !NoPlans(cfg)
    ensures Reachable(cfg, s) && !(s.log.delivered <= s.log.ended)
  {
    var a :| a in cfg.planned;
    var b := Unplanned(cfg.planned);
    var both := ReachTwoWriters(cfg, a, b);
    var t := ReachFullRow(cfg, both, a, 1);
    var u := ReachFullRow(cfg, t, b, 2);
    s := ReachApplied(cfg, u, Row(b, None, 2));
    assert s.log.delivered[0] == Row(b, None, 2) && s.log.ended[0] == Row(a, None, 1);
  }

  ghost predicate AlwaysInOrder(cfg: Config) { forall s :: Reachable(cfg, s) ==> s.log.delivered <= s.log.ended }

  /** Global strict ordering is kept in every run exactly when no resource is transformed. */
  lemma StrictOrderExactly(cfg: Config)
    requires cfg.strict && cfg.capacity > 0
    ensures AlwaysInOrder(cfg) <==> NoPlans(cfg)
  {
    if NoPlans(cfg) {
      forall s | Reachable(cfg, s) ensures s.log.delivered <= s.log.ended { StrictOrder(cfg, s); }
    } else {
      var s := TransformReorders(cfg);
    }
  }
}
