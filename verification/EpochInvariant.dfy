/** What every reachable state of the pipeline keeps. */
module EpochInvariant {
  import opened RowModel
  import opened Progress
  import opened Epochs
  import opened EpochPipeline

  // ---- rows in flight ----

  function Held(hand: Option<Item>): seq<Item> { if hand.Some? then [hand.value] else [] }

  function Front(l: Lanes): seq<Item> { Held(l.wHand) + l.batchCh }

  function Back(l: Lanes): seq<Item> { Held(l.xHand) + l.transformCh }

  /** Everything between the builders and the sink, oldest first on each path. */
  function Flight(l: Lanes): seq<Item> { Front(l) + Back(l) }

  lemma Associative<T>(a: seq<T>, b: seq<T>, c: seq<T>)
    ensures (a + b) + c == a + (b + c)
  {}

  lemma EmptyLeft<T>(a: seq<T>)
    ensures [] + a == a
  {}

  lemma EmptyRight<T>(a: seq<T>)
    ensures a + [] == a
  {}

  function RowsIn(items: seq<Item>): seq<Row> {
    if items == [] then [] else (if items[0].Data? then items[0].rows else []) + RowsIn(items[1..])
  }

  /** The rows of one resource, in order. */
  function For(rows: seq<Row>, r: Resource): seq<Row> {
    if rows == [] then [] else (if rows[0].resource == r then [rows[0]] else []) + For(rows[1..], r)
  }

  function BufferOf(writers: seq<Writer>, r: Resource): seq<Row> {
    if writers == [] then []
    else (if writers[0].resource == r then writers[0].buffered else []) + BufferOf(writers[1..], r)
  }

  function AppliedRows(applied: seq<Applied>): seq<Row> {
    if applied == [] then [] else AppliedRows(applied[..|applied| - 1]) + applied[|applied| - 1].rows
  }

  lemma {:induction false} RowsInAppend(a: seq<Item>, b: seq<Item>)
    ensures RowsIn(a + b) == RowsIn(a) + RowsIn(b)
  {
    if a == [] { assert a + b == b; } else {
      assert (a + b)[1..] == a[1..] + b;
      RowsInAppend(a[1..], b);
    }
  }

  lemma {:induction false} ForAppend(a: seq<Row>, b: seq<Row>, r: Resource)
    ensures For(a + b, r) == For(a, r) + For(b, r)
  {
    if a == [] { assert a + b == b; } else {
      assert (a + b)[1..] == a[1..] + b && (a + b)[0] == a[0];
      ForAppend(a[1..], b, r);
    }
  }

  lemma {:induction false} ForUniform(rows: seq<Row>, q: Resource, r: Resource)
    requires forall row :: row in rows ==> row.resource == q
    ensures For(rows, r) == if q == r then rows else []
  {
    if rows != [] { ForUniform(rows[1..], q, r); }
  }

  lemma {:induction false} ForAbsent(items: seq<Item>, r: Resource)
    requires forall item :: item in items && item.Data? ==>
               item.resource != r && forall row :: row in item.rows ==> row.resource == item.resource
    ensures For(RowsIn(items), r) == []
  {
    if items != [] {
      ForAbsent(items[1..], r);
      assert items[0].Marker? ==> RowsIn(items) == RowsIn(items[1..]);
      if items[0].Data? {
        ForUniform(items[0].rows, items[0].resource, r);
        ForAppend(items[0].rows, RowsIn(items[1..]), r);
      }
    }
  }

  lemma {:induction false} BufferOfUpdate(writers: seq<Writer>, i: nat, w: Writer, r: Resource)
    requires i < |writers| && w.resource == writers[i].resource
    requires forall j, k :: 0 <= j < k < |writers| ==> writers[j].resource != writers[k].resource
    ensures BufferOf(writers[i := w], r) == if r == w.resource then w.buffered else BufferOf(writers, r)
    ensures BufferOf(writers, writers[i].resource) == writers[i].buffered
  {
    if i == 0 {
      assert writers[i := w][1..] == writers[1..];
      BufferOfAbsent(writers[1..], writers[0].resource);
    } else {
      assert writers[i := w][1..] == writers[1..][i - 1 := w];
      BufferOfUpdate(writers[1..], i - 1, w, r);
    }
  }

  lemma {:induction false} BufferOfAbsent(writers: seq<Writer>, r: Resource)
    requires forall j :: 0 <= j < |writers| ==> writers[j].resource != r
    ensures BufferOf(writers, r) == []
  {
    if writers != [] { BufferOfAbsent(writers[1..], r); }
  }

  lemma {:induction false} BufferOfAppend(a: seq<Writer>, b: seq<Writer>, r: Resource)
    ensures BufferOf(a + b, r) == BufferOf(a, r) + BufferOf(b, r)
  {
    if a == [] { assert a + b == b; } else {
      assert (a + b)[1..] == a[1..] + b;
      BufferOfAppend(a[1..], b, r);
    }
  }

  // ---- the invariant ----

  /** Every batch, queued or buffered, holds rows of one resource ended in the bound epoch. */
  ghost predicate Pure(rows: seq<Row>, r: Resource, e: Option<EpochRef>) {
    forall row :: row in rows ==> row.resource == r && row.epoch == e
  }

  ghost predicate PureItems(items: seq<Item>, e: Option<EpochRef>) {
    forall item :: item in items && item.Data? ==>
      item.rows != [] && item.epoch == e && Pure(item.rows, item.resource, e)
  }

  ghost predicate WritersOk(writers: seq<Writer>, e: Option<EpochRef>) {
    && (forall j, k :: 0 <= j < k < |writers| ==> writers[j].resource != writers[k].resource)
    && (forall j :: 0 <= j < |writers| ==>
        Pure(writers[j].buffered, writers[j].resource, e) && (writers[j].closed ==> writers[j].buffered == []))
  }

  /** Only planned resources and, with a transform, controls use the transform lane. */
  ghost predicate Routed(cfg: Config, l: Lanes) {
    && (!cfg.transform ==> l.transformCh == [] && l.xHand.None?)
    && (forall item :: item in Back(l) && item.Data? ==> Planned(cfg, item.resource))
  }

  ghost predicate AllData(items: seq<Item>) { forall item :: item in items ==> item.Data? }

  ghost predicate DataBefore(items: seq<Item>) { forall k :: 0 <= k < |items| - 1 ==> items[k].Data? }

  ghost predicate NoData(items: seq<Item>) { forall item :: item in items ==> item.Marker? }

  ghost predicate EmptyUpTo(writers: seq<Writer>, n: nat) {
    forall j :: 0 <= j < |writers| && j < n ==> writers[j].buffered == []
  }

  ghost predicate Empty(writers: seq<Writer>) { forall j :: 0 <= j < |writers| ==> writers[j].buffered == [] }

  /** Nothing is buffered and no rows are in flight. */
  ghost predicate Quiet(s: State) { NoData(Flight(s.lanes)) && Empty(s.inlet.writers) }

  /** A control under way is the newest thing in flight, so its receipt means everything before it is applied. */
  ghost predicate MarkerLast(s: State) {
    var items := Flight(s.lanes);
    !s.done ==>
      match s.inlet.pc
      case Idle => AllData(items)
      case Draining(_) => AllData(items)
      case Flushing(_, next) => AllData(items) && EmptyUpTo(s.inlet.writers, next)
      case Sending(_) => AllData(items) && Empty(s.inlet.writers)
      case Waiting(c, n, false) =>
        items != [] && items[|items| - 1] == Marker(c, n) && DataBefore(items) && Empty(s.inlet.writers)
      case Waiting(_, _, true) => items == [] && Empty(s.inlet.writers)
  }

  ghost predicate Flags(cfg: Config, s: State) {
    (s.err ==> s.done) && (s.log.lost ==> s.done && (cfg.transform || s.err))
  }

  /** Safe positions, a sealed epoch and an untouched pipeline all mean that nothing is outstanding. */
  ghost predicate SealSafe(s: State) {
    && (s.epoch.completed != map[] ==> Quiet(s))
    && (s.epoch.sealed ==> Quiet(s) && (s.inlet.pc.Idle? || s.inlet.pc.Draining?))
    && (!s.epoch.touched ==> Quiet(s))
  }

  function SumRows(applied: seq<Applied>): int {
    if applied == [] then 0 else SumRows(applied[..|applied| - 1]) + |applied[|applied| - 1].rows|
  }

  function SumBytes(applied: seq<Applied>): int {
    if applied == [] then 0 else SumBytes(applied[..|applied| - 1]) + applied[|applied| - 1].bytes
  }

  /** The batches of one resource. */
  function Of(applied: seq<Applied>, r: Resource): seq<Applied> {
    if applied == [] then [] else
      var last := applied[|applied| - 1];
      Of(applied[..|applied| - 1], r) + (if last.resource == r then [last] else [])
  }

  function TotalsOf(applied: seq<Applied>): Totals { Totals(Wrap64(SumRows(applied)), Wrap64(SumBytes(applied))) }

  /** The writer's running totals are the sums over the batches it applied in the bound epoch. */
  ghost predicate Counted(s: State) {
    s.epoch.ref.Some? ==>
      && s.epoch.total == TotalsOf(s.log.applied)
      && (forall r :: r in s.epoch.resources <==> Of(s.log.applied, r) != [])
      && (forall r :: r in s.epoch.resources ==> s.epoch.resources[r] == TotalsOf(Of(s.log.applied, r)))
  }

  /** The rows of a resource still to be consumed: in flight, then buffered. */
  function Outstanding(s: State, r: Resource): seq<Row> {
    For(RowsIn(Flight(s.lanes)), r) + BufferOf(s.inlet.writers, r)
  }

  /** Resource by resource: rows produced are rows consumed, then rows outstanding, in that order. */
  ghost predicate Conserved(produced: seq<Row>, consumed: seq<Row>, s: State) {
    forall r :: For(produced, r) == For(consumed, r) + Outstanding(s, r)
  }

  ghost predicate Conserves(s: State) {
    !s.log.lost ==>
      Conserved(s.log.ended, s.log.delivered, s) && Conserved(s.log.sinceBind, AppliedRows(s.log.applied), s)
  }

  /** Every batch applied since BindEpoch holds rows of its resource ended in the bound epoch, and only those. */
  ghost predicate AppliedPure(s: State) {
    forall i :: 0 <= i < |s.log.applied| ==>
      s.log.applied[i].rows != [] && Pure(s.log.applied[i].rows, s.log.applied[i].resource, s.epoch.ref)
  }

  ghost predicate Inv(cfg: Config, s: State) {
    && Flags(cfg, s) && AppliedPure(s) && WritersOk(s.inlet.writers, s.epoch.ref)
    && PureItems(Flight(s.lanes), s.epoch.ref)
    && Routed(cfg, s.lanes) && MarkerLast(s) && SealSafe(s) && Counted(s) && Conserves(s)
  }

  // ---- the primitive changes keep it ----

  lemma FlightPutData(cfg: Config, l: Lanes, transform: bool, item: Item)
    requires Put(cfg, l, transform, item).Some?
    ensures var n := Put(cfg, l, transform, item).value;
            forall x :: x in Flight(n) <==> x in Flight(l) || x == item
  {}

  lemma PutTransform(l: Lanes, item: Item)
    ensures Flight(l.(transformCh := l.transformCh + [item])) == Flight(l) + [item]
  {
    Associative(Held(l.xHand), l.transformCh, [item]);
    Associative(Front(l), Back(l), [item]);
  }

  lemma PutBatch(l: Lanes, item: Item)
    ensures Flight(l.(batchCh := l.batchCh + [item])) == Front(l) + ([item] + Back(l))
  {
    Associative(Held(l.wHand), l.batchCh, [item]);
    Associative(Front(l), [item], Back(l));
  }

  lemma ForPutPlanned(l: Lanes, item: Item, r: Resource)
    requires item.Data?
    ensures For(RowsIn(Flight(l.(transformCh := l.transformCh + [item]))), r) ==
              For(RowsIn(Flight(l)), r) + For(item.rows, r)
  {
    PutTransform(l, item);
    ForSplit(Flight(l), [item], r);
    assert RowsIn([item]) == item.rows;
  }

  lemma ForSplit(front: seq<Item>, back: seq<Item>, r: Resource)
    ensures For(RowsIn(front + back), r) == For(RowsIn(front), r) + For(RowsIn(back), r)
  {
    RowsInAppend(front, back);
    ForAppend(RowsIn(front), RowsIn(back), r);
  }

  /** A batch that bypasses the transform lane overtakes only rows of other resources. */
  lemma ForPutBypass(l: Lanes, item: Item, r: Resource)
    requires item.Data? && (forall row :: row in item.rows ==> row.resource == item.resource)
    requires For(RowsIn(Back(l)), item.resource) == []
    ensures For(RowsIn(Flight(l.(batchCh := l.batchCh + [item]))), r) == For(RowsIn(Flight(l)), r) + For(item.rows, r)
  {
    PutBatch(l, item);
    ForSplit(Front(l), Back(l), r);
    ForSplit(Front(l), [item] + Back(l), r);
    ForSplit([item], Back(l), r);
    assert RowsIn([item]) == item.rows;
    ForUniform(item.rows, item.resource, r);
    SwapEmpty(For(RowsIn(Front(l)), r), For(item.rows, r), For(RowsIn(Back(l)), r));
  }

  lemma SwapEmpty(f: seq<Row>, i: seq<Row>, b: seq<Row>)
    requires i == [] || b == []
    ensures f + (i + b) == (f + b) + i
  {}

  /** A queued batch comes after every earlier row of its resource. */
  lemma ForPut(cfg: Config, l: Lanes, item: Item, e: Option<EpochRef>, r: Resource)
    requires item.Data? && Pure(item.rows, item.resource, e) && PureItems(Flight(l), e) && Routed(cfg, l)
    requires Put(cfg, l, Planned(cfg, item.resource), item).Some?
    ensures For(RowsIn(Flight(Put(cfg, l, Planned(cfg, item.resource), item).value)), r) ==
              For(RowsIn(Flight(l)), r) + For(item.rows, r)
  {
    if Planned(cfg, item.resource) {
      ForPutPlanned(l, item, r);
    } else {
      assert forall x :: x in Back(l) ==> x in Flight(l);
      ForAbsent(Back(l), item.resource);
      ForPutBypass(l, item, r);
    }
  }

  /** Queueing a writer's buffer leaves every resource's outstanding rows as they were. */
  lemma SendChunkOutstanding(cfg: Config, s: State, i: nat, r: Resource)
    requires WritersOk(s.inlet.writers, s.epoch.ref) && PureItems(Flight(s.lanes), s.epoch.ref) && Routed(cfg, s.lanes)
    requires i < |s.inlet.writers| && SendChunk(cfg, s, i, true).Finished?
    ensures Outstanding(SendChunk(cfg, s, i, true).s, r) == Outstanding(s, r)
  {
    var w := s.inlet.writers[i];
    if w.buffered != [] {
      ForPut(cfg, s.lanes, Data(w.resource, w.buffered, s.epoch.ref), s.epoch.ref, r);
      BufferOfUpdate(s.inlet.writers, i, w.(buffered := []), r);
      ForUniform(w.buffered, w.resource, r);
    }
  }

  lemma SameOutstanding(s: State, t: State)
    requires Conserves(s) && (!t.log.lost ==> !s.log.lost)
    requires t.log.ended == s.log.ended && t.log.delivered == s.log.delivered && t.log.sinceBind == s.log.sinceBind
    requires t.log.applied == s.log.applied
    requires !t.log.lost ==> forall r :: Outstanding(t, r) == Outstanding(s, r)
    ensures Conserves(t)
  {}

  lemma SendChunkInv(cfg: Config, s: State, i: nat, sent: bool)
    requires Inv(cfg, s) && i < |s.inlet.writers| && SendChunk(cfg, s, i, sent).Finished?
    requires s.inlet.pc.Idle? || s.inlet.pc.Flushing? || s.inlet.pc.Draining?
    ensures Inv(cfg, SendChunk(cfg, s, i, sent).s)
    ensures SendChunk(cfg, s, i, sent).ok ==> SendChunk(cfg, s, i, sent).s.inlet.writers[i].buffered == []
  {
    var o := SendChunk(cfg, s, i, sent);
    var w := s.inlet.writers[i];
    if w.buffered != [] {
      assert !Quiet(s);
      if o.ok {
        FlightPutData(cfg, s.lanes, Planned(cfg, w.resource), Data(w.resource, w.buffered, s.epoch.ref));
        forall r ensures Outstanding(o.s, r) == Outstanding(s, r) { SendChunkOutstanding(cfg, s, i, r); }
      }
      SameOutstanding(s, o.s);
    }
  }

  // ---- producer calls ----

  lemma FailInv(cfg: Config, s: State)
    requires Inv(cfg, s)
    ensures Inv(cfg, Fail(s))
  {
    SameOutstanding(s, Fail(s));
  }

  lemma TouchInv(cfg: Config, s: State)
    requires Inv(cfg, s) && !s.epoch.sealed
    ensures Inv(cfg, Touch(s))
  {
    SameOutstanding(s, Touch(s));
  }

  lemma FlushWriterInv(cfg: Config, s: State, i: nat, sent: bool)
    requires Inv(cfg, s) && i < |s.inlet.writers| && FlushWriter(cfg, s, i, sent).Finished?
    requires s.inlet.pc.Idle? || s.inlet.pc.Flushing? || s.inlet.pc.Draining?
    ensures Inv(cfg, FlushWriter(cfg, s, i, sent).s)
    ensures FlushWriter(cfg, s, i, sent).ok ==> FlushWriter(cfg, s, i, sent).s.inlet.writers[i].buffered == []
  {
    if !s.err {
      if s.inlet.writers[i].closed || s.inlet.writers[i].inRow {
        FailInv(cfg, s);
      } else {
        SendChunkInv(cfg, s, i, sent);
      }
    }
  }

  /** Changing a writer without touching its rows changes nothing that counts. */
  lemma SameBuffers(cfg: Config, s: State, t: State, i: nat, w: Writer)
    requires Inv(cfg, s) && i < |s.inlet.writers| && w.resource == s.inlet.writers[i].resource
    requires w.buffered == s.inlet.writers[i].buffered
    requires w.closed == s.inlet.writers[i].closed
    requires t == s.(inlet := t.inlet) && t.inlet.writers == s.inlet.writers[i := w] && t.inlet.pc == s.inlet.pc
    ensures Inv(cfg, t)
  {
    forall r ensures Outstanding(t, r) == Outstanding(s, r) {
      BufferOfUpdate(s.inlet.writers, i, w, r);
      BufferOfUpdate(s.inlet.writers, i, s.inlet.writers[i], r);
    }
    SameOutstanding(s, t);
  }

  lemma OpenRowInv(cfg: Config, s: State, i: nat)
    requires Inv(cfg, s) && i < |s.inlet.writers|
    ensures Inv(cfg, OpenRow(s, i))
  {
    SameBuffers(cfg, s, OpenRow(s, i), i, s.inlet.writers[i].(inRow := true));
  }

  lemma BeforeWriteInv(cfg: Config, s: State, i: nat, sent: bool)
    requires Inv(cfg, s) && i < |s.inlet.writers| && s.inlet.pc.Idle? && BeforeWrite(cfg, s, i, sent).Finished?
    ensures var o := BeforeWrite(cfg, s, i, sent);
            && Inv(cfg, o.s)
            && (o.ok ==> o.s.inlet.pc.Idle? && !o.s.epoch.sealed && o.s.epoch.touched && o.s.epoch.completed == map[]
                                       && o.s.inlet.writers[i].resource == s.inlet.writers[i].resource
                                       && !o.s.inlet.writers[i].closed)
  {
    if s.epoch.sealed {
      FailInv(cfg, s);
    } else {
      TouchInv(cfg, s);
      FailInv(cfg, Touch(s));
      if Ready(s) && !s.inlet.writers[i].closed { SwitchInv(cfg, s, i, sent); }
    }
  }

  /** The strict flush, then the open row. */
  lemma SwitchInv(cfg: Config, s: State, i: nat, sent: bool)
    requires Inv(cfg, Touch(s)) && i < |s.inlet.writers| && s.inlet.pc.Idle? && Ready(s) && !s.epoch.sealed
    requires !s.inlet.writers[i].closed
    requires BeforeWrite(cfg, s, i, sent).Finished?
    ensures var o := BeforeWrite(cfg, s, i, sent);
            && Inv(cfg, o.s)
            && (o.ok ==> o.s.inlet.pc.Idle? && !o.s.epoch.sealed && o.s.epoch.touched && o.s.epoch.completed == map[]
                                       && o.s.inlet.writers[i].resource == s.inlet.writers[i].resource
                                       && !o.s.inlet.writers[i].closed)
  {
    var other := Switched(cfg, s.inlet, s.inlet.writers[i].resource);
    if other >= 0 {
      var f := FlushWriter(cfg, Touch(s), other, sent);
      FlushWriterInv(cfg, Touch(s), other, sent);
      if f.ok { OpenRowInv(cfg, f.s, i); }
    } else {
      OpenRowInv(cfg, Touch(s), i);
    }
  }

  lemma AddRowConserved(s: State, i: nat, value: int, produced: seq<Row>, consumed: seq<Row>)
    requires WritersOk(s.inlet.writers, s.epoch.ref) && i < |s.inlet.writers| && Conserved(produced, consumed, s)
    ensures Conserved(produced + [Row(s.inlet.writers[i].resource, s.epoch.ref, value)], consumed, AddRow(s, i, value))
  {
    var w, t := s.inlet.writers[i], AddRow(s, i, value);
    var row := Row(w.resource, s.epoch.ref, value);
    forall r ensures For(produced + [row], r) == For(consumed, r) + Outstanding(t, r) {
      AddRowAt(s, i, value, produced, consumed, r);
    }
  }

  lemma PushEnd<T>(c: seq<T>, f: seq<T>, b: seq<T>, x: seq<T>)
    ensures (c + (f + b)) + x == c + (f + (b + x))
  {}

  lemma AddRowAt(s: State, i: nat, value: int, produced: seq<Row>, consumed: seq<Row>, r: Resource)
    requires WritersOk(s.inlet.writers, s.epoch.ref) && i < |s.inlet.writers|
    requires For(produced, r) == For(consumed, r) + Outstanding(s, r)
    ensures For(produced + [Row(s.inlet.writers[i].resource, s.epoch.ref, value)], r) ==
              For(consumed, r) + Outstanding(AddRow(s, i, value), r)
  {
    var w, t := s.inlet.writers[i], AddRow(s, i, value);
    var row := Row(w.resource, s.epoch.ref, value);
    ForAppend(produced, [row], r);
    assert For([row], r) == if r == w.resource then [row] else [];
    BufferOfUpdate(s.inlet.writers, i, t.inlet.writers[i], r);
    PushEnd(For(consumed, r), For(RowsIn(Flight(s.lanes)), r), BufferOf(s.inlet.writers, r), For([row], r));
  }

  lemma AddRowInv(cfg: Config, s: State, i: nat, value: int)
    requires Inv(cfg, s) && i < |s.inlet.writers| && s.inlet.pc.Idle? && !s.inlet.writers[i].closed
    requires !s.epoch.sealed && s.epoch.touched && s.epoch.completed == map[]
    ensures Inv(cfg, AddRow(s, i, value))
  {
    if !s.log.lost {
      AddRowConserved(s, i, value, s.log.ended, s.log.delivered);
      AddRowConserved(s, i, value, s.log.sinceBind, AppliedRows(s.log.applied));
    }
  }

  lemma EndRowInv(cfg: Config, s: State, i: nat, value: int, complete: bool, full: bool, switched: bool, sent: bool)
    requires Inv(cfg, s) && i < |s.inlet.writers| && s.inlet.pc.Idle?
    requires EndRow(cfg, s, i, value, complete, full, switched, sent).Finished?
    ensures Inv(cfg, EndRow(cfg, s, i, value, complete, full, switched, sent).s)
  {
    var b := BeforeWrite(cfg, s, i, switched);
    BeforeWriteInv(cfg, s, i, switched);
    if b.ok {
      FailInv(cfg, b.s);
      AddRowInv(cfg, b.s, i, value);
      if complete && full { SendChunkInv(cfg, AddRow(b.s, i, value), i, sent); }
    }
  }

  lemma ClosedInv(cfg: Config, s: State, i: nat)
    requires Inv(cfg, s) && i < |s.inlet.writers| && s.inlet.pc.Idle?
    requires s.inlet.writers[i].buffered != [] ==> s.err
    ensures Inv(cfg, Closed(s, i))
  {
    var w, t := s.inlet.writers[i], Closed(s, i);
    if w.buffered == [] {
      forall r ensures Outstanding(t, r) == Outstanding(s, r) {
        BufferOfUpdate(s.inlet.writers, i, t.inlet.writers[i], r);
        BufferOfUpdate(s.inlet.writers, i, w, r);
      }
    }
    SameOutstanding(s, t);
  }

  lemma CloseWriterInv(cfg: Config, s: State, i: nat, sent: bool)
    requires Inv(cfg, s) && i < |s.inlet.writers| && s.inlet.pc.Idle? && CloseWriter(cfg, s, i, sent).Finished?
    ensures var o := CloseWriter(cfg, s, i, sent);
            && Inv(cfg, o.s)
            && (o.ok ==>
                  && o.s.inlet.writers[i].buffered == []
                  && o.s.inlet.writers[i].resource == s.inlet.writers[i].resource)
  {
    if !s.inlet.writers[i].closed {
      FlushWriterInv(cfg, s, i, sent);
      ClosedInv(cfg, FlushWriter(cfg, s, i, sent).s, i);
    }
  }

  lemma BufferOfWith(ws: seq<Writer>, r: Resource, q: Resource)
    ensures BufferOf(ws + [Writer(r, [], false, false)], q) == BufferOf(ws, q)
  {
    BufferOfAppend(ws, [Writer(r, [], false, false)], q);
    assert BufferOf([Writer(r, [], false, false)], q) == [];
  }

  lemma WritersOkWith(ws: seq<Writer>, r: Resource, e: Option<EpochRef>)
    requires WritersOk(ws, e) && Find(ws, r) < 0
    ensures WritersOk(ws + [Writer(r, [], false, false)], e)
    ensures Empty(ws) ==> Empty(ws + [Writer(r, [], false, false)])
  {}

  lemma OpenBuilderInv(cfg: Config, s: State, r: Resource)
    requires Inv(cfg, s) && s.inlet.pc.Idle?
    ensures Inv(cfg, OpenBuilder(s, r))
  {
    var t := OpenBuilder(s, r);
    if t != s {
      WritersOkWith(s.inlet.writers, r, s.epoch.ref);
      forall q ensures Outstanding(t, q) == Outstanding(s, q) { BufferOfWith(s.inlet.writers, r, q); }
      SameOutstanding(s, t);
    }
  }

  lemma BufferOfWithout(ws: seq<Writer>, i: nat, q: Resource)
    requires i < |ws| && ws[i].buffered == []
    ensures BufferOf(ws[..i] + ws[i + 1..], q) == BufferOf(ws, q)
  {
    BufferOfAppend(ws[..i], ws[i + 1..], q);
    BufferOfAppend(ws[..i], [ws[i]] + ws[i + 1..], q);
    BufferOfAppend([ws[i]], ws[i + 1..], q);
    assert BufferOf([ws[i]], q) == [];
    assert ws == ws[..i] + ([ws[i]] + ws[i + 1..]);
  }

  lemma WritersOkWithout(ws: seq<Writer>, i: nat, e: Option<EpochRef>)
    requires WritersOk(ws, e) && i < |ws|
    ensures WritersOk(ws[..i] + ws[i + 1..], e)
    ensures Empty(ws) ==> Empty(ws[..i] + ws[i + 1..])
  {
    var left := ws[..i] + ws[i + 1..];
    forall j | 0 <= j < |left| ensures left[j] == ws[Kept(i, j)] {}
    forall j, k | 0 <= j < k < |left| ensures left[j].resource != left[k].resource {
      assert ws[Kept(i, j)].resource != ws[Kept(i, k)].resource;
    }
  }

  /** Where the j-th writer stood before the i-th was removed. */
  function Kept(i: nat, j: nat): nat { if j < i then j else j + 1 }

  lemma WithoutWriterInv(cfg: Config, s: State, i: nat)
    requires Inv(cfg, s) && i < |s.inlet.writers| && s.inlet.pc.Idle? && s.inlet.writers[i].buffered == []
    ensures Inv(cfg, WithoutWriter(s, i))
  {
    var ws, t := s.inlet.writers, WithoutWriter(s, i);
    WritersOkWithout(ws, i, s.epoch.ref);
    forall q ensures Outstanding(t, q) == Outstanding(s, q) { BufferOfWithout(ws, i, q); }
    SameOutstanding(s, t);
  }

  lemma MessageBuilderInv(cfg: Config, s: State, r: Resource, same: bool, sent: bool)
    requires Inv(cfg, s) && s.inlet.pc.Idle?
    ensures Inv(cfg, MessageBuilder(cfg, s, r, same, sent))
  {
    var i := Find(s.inlet.writers, r);
    if i < 0 {
      OpenBuilderInv(cfg, s, r);
    } else if !same && CloseWriter(cfg, s, i, sent).Finished? {
      CloseWriterInv(cfg, s, i, sent);
      if CloseWriter(cfg, s, i, sent).ok { ReplacedBuilderInv(cfg, CloseWriter(cfg, s, i, sent).s, i, r); }
    }
  }

  lemma ReplacedBuilderInv(cfg: Config, s: State, i: nat, r: Resource)
    requires Inv(cfg, s) && i < |s.inlet.writers| && s.inlet.writers[i].buffered == [] && s.inlet.pc.Idle?
    ensures Inv(cfg, OpenBuilder(WithoutWriter(s, i), r))
  {
    WithoutWriterInv(cfg, s, i);
    OpenBuilderInv(cfg, WithoutWriter(s, i), r);
  }

  // ---- epochs ----

  lemma {:induction false} NoRowsIn(items: seq<Item>)
    requires NoData(items)
    ensures RowsIn(items) == []
  {
    if items != [] {
      assert items[0] in items && forall x :: x in items[1..] ==> x in items;
      NoRowsIn(items[1..]);
    }
  }

  lemma {:induction false} NoBuffers(writers: seq<Writer>, r: Resource)
    requires Empty(writers)
    ensures BufferOf(writers, r) == []
  {
    if writers != [] { NoBuffers(writers[1..], r); }
  }

  lemma QuietOutstanding(s: State, r: Resource)
    requires Quiet(s)
    ensures Outstanding(s, r) == []
  {
    NoRowsIn(Flight(s.lanes));
    NoBuffers(s.inlet.writers, r);
  }

  lemma BindInv(cfg: Config, s: State, ref: EpochRef)
    requires Inv(cfg, s) && s.inlet.pc.Idle?
    ensures Inv(cfg, BindEpoch(s, ref))
  {
    var t := BindEpoch(s, ref);
    if Binds(s, ref) {
      assert Quiet(s);
      assert Pure([], Resource(""), Some(ref));
      forall r ensures Outstanding(t, r) == [] { QuietOutstanding(s, r); }
    }
  }

  lemma SealInv(cfg: Config, s: State)
    requires Inv(cfg, s) && s.inlet.pc.Idle?
    ensures Inv(cfg, SealEpoch(s))
  {
    SameOutstanding(s, SealEpoch(s));
  }

  lemma BarrierStartInv(cfg: Config, s: State, c: Control)
    requires Inv(cfg, s) && s.inlet.pc.Idle?
    ensures Inv(cfg, BarrierStart(s, c))
  {
    SameOutstanding(s, BarrierStart(s, c));
  }

  lemma CloseIngestInv(cfg: Config, s: State, clean: bool)
    requires Inv(cfg, s) && s.inlet.pc.Idle?
    ensures Inv(cfg, CloseIngest(s, clean))
  {
    SameOutstanding(s, CloseIngest(s, clean));
  }

  // ---- the steps of a call under way ----

  lemma AtInv(cfg: Config, s: State, pc: Producer)
    requires Inv(cfg, s) && MarkerLast(At(s, pc)) && (s.epoch.sealed ==> pc.Idle? || pc.Draining?)
    ensures Inv(cfg, At(s, pc))
  {
    SameOutstanding(s, At(s, pc));
  }

  lemma FlushNextInv(cfg: Config, s: State, next: nat, sent: bool, pc: Producer)
    requires Inv(cfg, s) && next < |s.inlet.writers|
    requires (s.inlet.pc.Flushing? && s.inlet.pc.next == next && pc == Flushing(s.inlet.pc.control, next + 1))
          || (s.inlet.pc.Draining? && pc.Draining?)
    ensures Inv(cfg, Advance(s, FlushNext(cfg, s, next, sent), pc))
  {
    var f := FlushNext(cfg, s, next, sent);
    if f.Finished? {
      if !s.inlet.writers[next].closed { FlushWriterInv(cfg, s, next, sent); }
      if f.ok { AtInv(cfg, f.s, pc); } else { FailedFlushInv(cfg, f.s); }
    }
  }

  lemma FailedFlushInv(cfg: Config, s: State)
    requires Inv(cfg, s)
    ensures Inv(cfg, At(Fail(s), Idle))
  {
    FailInv(cfg, s);
    AtInv(cfg, Fail(s), Idle);
  }

  lemma PutFlight(cfg: Config, l: Lanes, transform: bool, item: Item)
    requires Put(cfg, l, transform, item).Some? && (!transform ==> l.transformCh == [] && l.xHand.None?)
    ensures Flight(Put(cfg, l, transform, item).value) == Flight(l) + [item]
  {
    if transform {
      PutTransform(l, item);
    } else {
      PutBatch(l, item);
      EmptyRight([item]);
      EmptyRight(Front(l));
    }
  }

  /** A control in flight carries no rows. */
  lemma MarkerAdds(items: seq<Item>, m: Item, e: Option<EpochRef>)
    requires m.Marker? && PureItems(items, e)
    ensures PureItems(items + [m], e) && RowsIn(items + [m]) == RowsIn(items)
    ensures NoData(items) ==> NoData(items + [m])
    ensures AllData(items) ==> DataBefore(items + [m])
  {
    RowsInAppend(items, [m]);
    assert RowsIn([m]) == [];
    assert forall k :: 0 <= k < |items| ==> items[k] in items && (items + [m])[k] == items[k];
  }

  lemma SendMarkerInv(cfg: Config, s: State, c: Control, sent: bool)
    requires Inv(cfg, s) && s.inlet.pc == Sending(c)
    ensures Inv(cfg, SendMarker(cfg, s, c, sent))
  {
    var n := s.inlet.sequence + 1;
    var t := SendMarker(cfg, s, c, sent);
    if sent && Put(cfg, s.lanes, cfg.transform, Marker(c, n)).Some? {
      MarkerSentInv(cfg, s, c, n, t);
    } else if t != s {
      SameOutstanding(s, t);
    }
  }

  lemma MarkerSentInv(cfg: Config, s: State, c: Control, n: nat, t: State)
    requires Inv(cfg, s) && s.inlet.pc == Sending(c) && Put(cfg, s.lanes, cfg.transform, Marker(c, n)).Some?
    requires t ==
               s.(lanes := Put(cfg, s.lanes, cfg.transform, Marker(c, n)).value,
                  inlet := s.inlet.(sequence := n, pc := Waiting(c, n, false)))
    ensures Inv(cfg, t)
  {
    PutFlight(cfg, s.lanes, cfg.transform, Marker(c, n));
    MarkerAdds(Flight(s.lanes), Marker(c, n), s.epoch.ref);
    SameOutstanding(s, t);
    assert Routed(cfg, t.lanes);
    assert MarkerLast(t);
    assert SealSafe(t);
  }

  lemma AcceptControlInv(cfg: Config, s: State, c: Control, n: nat)
    requires Inv(cfg, s) && s.inlet.pc == Waiting(c, n, true) && Ready(s)
    ensures Inv(cfg, AcceptControl(s, c))
  {
    SameOutstanding(s, AcceptControl(s, c));
  }

  lemma WaitingInv(cfg: Config, s: State, sent: bool)
    requires Inv(cfg, s) && s.inlet.pc.Waiting?
    ensures Inv(cfg, ProducerAdvance(cfg, s, sent))
  {
    var c, n, received := s.inlet.pc.control, s.inlet.pc.sequence, s.inlet.pc.received;
    if received && sent && Ready(s) {
      AcceptControlInv(cfg, s, c, n);
    } else if ProducerAdvance(cfg, s, sent) != s {
      AtInv(cfg, s, Idle);
    }
  }

  lemma FlushingInv(cfg: Config, s: State, sent: bool)
    requires Inv(cfg, s) && s.inlet.pc.Flushing?
    ensures Inv(cfg, ProducerAdvance(cfg, s, sent))
  {
    var c, next := s.inlet.pc.control, s.inlet.pc.next;
    if next >= |s.inlet.writers| {
      AtInv(cfg, s, Sending(c));
    } else {
      FlushNextInv(cfg, s, next, sent, Flushing(c, next + 1));
    }
  }

  lemma DrainingInv(cfg: Config, s: State, sent: bool)
    requires Inv(cfg, s) && s.inlet.pc.Draining?
    ensures Inv(cfg, ProducerAdvance(cfg, s, sent))
  {
    var next := s.inlet.pc.next;
    if next >= |s.inlet.writers| { AtInv(cfg, s, Idle); } else { FlushNextInv(cfg, s, next, sent, Draining(next + 1)); }
  }

  lemma ProducerAdvanceInv(cfg: Config, s: State, sent: bool)
    requires Inv(cfg, s)
    ensures Inv(cfg, ProducerAdvance(cfg, s, sent))
  {
    match s.inlet.pc
    case Idle =>
    case Flushing(_, _) => FlushingInv(cfg, s, sent);
    case Sending(c) => SendMarkerInv(cfg, s, c, sent);
    case Waiting(_, _, _) => WaitingInv(cfg, s, sent);
    case Draining(_) => DrainingInv(cfg, s, sent);
  }

  // ---- transformer and writer ----

  lemma DropMarker(front: seq<Item>, item: Item, back: seq<Item>)
    requires item.Marker?
    ensures RowsIn(front + back) == RowsIn(front + ([item] + back))
  {
    RowsInAppend(front, back);
    RowsInAppend(front, [item] + back);
    RowsInAppend([item], back);
    assert RowsIn([item]) == [];
  }

  /** A failing pipeline drops an item; only a batch with rows is a loss. */
  lemma DroppedInv(cfg: Config, s: State, t: State, front: seq<Item>, item: Item, back: seq<Item>)
    requires Inv(cfg, s) && s.done && Routed(cfg, t.lanes)
    requires Flight(s.lanes) == front + ([item] + back) && Flight(t.lanes) == front + back
    requires t.inlet == s.inlet && t.epoch == s.epoch && t.done && (s.err ==> t.err)
    requires t.log == s.log.(lost := s.log.lost || item.Data?) && (item.Data? ==> cfg.transform || t.err)
    ensures Inv(cfg, t)
  {
    assert forall x :: x in Flight(t.lanes) ==> x in Flight(s.lanes);
    if item.Marker? { DropMarker(front, item, back); }
    SameOutstanding(s, t);
  }

  /** Moving an item along its path changes nothing that counts. */
  lemma MovedInv(cfg: Config, s: State, t: State)
    requires Inv(cfg, s) && t == s.(lanes := t.lanes) && Flight(t.lanes) == Flight(s.lanes) && Routed(cfg, t.lanes)
    ensures Inv(cfg, t)
  {
    SameOutstanding(s, t);
  }

  lemma TransformerTakeInv(cfg: Config, s: State)
    requires Inv(cfg, s)
    ensures Inv(cfg, TransformerTake(s))
  {
    var t := TransformerTake(s);
    if s.lanes.xHand.None? && s.lanes.transformCh != [] {
      var head, rest := s.lanes.transformCh[0], s.lanes.transformCh[1..];
      assert [head] + rest == s.lanes.transformCh;
      assert forall x :: x in rest ==> x in s.lanes.transformCh;
      if s.err {
        assert Back(s.lanes) == [head] + rest && Back(t.lanes) == rest;
        DroppedInv(cfg, s, t, Front(s.lanes), head, rest);
      } else {
        assert Back(t.lanes) == Back(s.lanes);
        MovedInv(cfg, s, t);
      }
    }
  }

  lemma ForwardedFlight(l: Lanes, item: Item)
    requires l.xHand == Some(item)
    ensures Flight(l) == Front(l) + ([item] + l.transformCh)
    ensures Flight(l.(xHand := None)) == Front(l) + l.transformCh
    ensures Flight(l.(xHand := None, batchCh := l.batchCh + [item])) == Flight(l)
  {
    EmptyLeft(l.transformCh);
    PutBatch(l.(xHand := None), item);
  }

  lemma RoutedLess(cfg: Config, l: Lanes, m: Lanes)
    requires Routed(cfg, l) && m.xHand.None? && m.transformCh == l.transformCh
    ensures Routed(cfg, m)
  {}

  lemma TransformerForwardInv(cfg: Config, s: State, ok: bool, sent: bool)
    requires Inv(cfg, s)
    ensures Inv(cfg, TransformerForward(cfg, s, ok, sent))
  {
    var t := TransformerForward(cfg, s, ok, sent);
    if s.lanes.xHand.Some? && t != s {
      var item := s.lanes.xHand.value;
      var front, back := Front(s.lanes), s.lanes.transformCh;
      ForwardedFlight(s.lanes, item);
      RoutedLess(cfg, s.lanes, t.lanes);
      if item.Data? && !ok {
        FailInv(cfg, s);
        DroppedInv(cfg, Fail(s), t, front, item, back);
      } else if sent {
        MovedInv(cfg, s, t);
      } else {
        DroppedInv(cfg, s, t, front, item, back);
      }
    }
  }

  lemma TakenFlight(l: Lanes)
    requires l.wHand.None? && l.batchCh != []
    ensures Flight(l) == [l.batchCh[0]] + Flight(l.(batchCh := l.batchCh[1..]))
    ensures Flight(l.(batchCh := l.batchCh[1..], wHand := Some(l.batchCh[0]))) == Flight(l)
  {
    var item, rest := l.batchCh[0], l.batchCh[1..];
    assert l.batchCh == [item] + rest;
    EmptyLeft(l.batchCh);
    EmptyLeft(rest);
    Associative([item], rest, Back(l));
  }

  lemma WriterTakeInv(cfg: Config, s: State)
    requires Inv(cfg, s)
    ensures Inv(cfg, WriterTake(s))
  {
    var t := WriterTake(s);
    if s.lanes.wHand.None? && s.lanes.batchCh != [] {
      var item := s.lanes.batchCh[0];
      var rest := s.lanes.(batchCh := s.lanes.batchCh[1..]);
      TakenFlight(s.lanes);
      assert Back(rest) == Back(s.lanes);
      if s.err {
        EmptyLeft(Flight(rest));
        EmptyLeft([item] + Flight(rest));
        DroppedInv(cfg, s, t, [], item, Flight(rest));
      } else if item.Data? {
        MovedInv(cfg, s, t);
      } else {
        MarkerTakenInv(cfg, s, t, item, Flight(rest));
      }
    }
  }

  lemma MarkerTakenLast(s: State, t: State, item: Item, back: seq<Item>)
    requires MarkerLast(s) && item.Marker? && Flight(s.lanes) == [item] + back && Flight(t.lanes) == back
    requires t.done == s.done
    requires t.inlet ==
               if s.inlet.pc.Waiting? && s.inlet.pc.sequence == item.sequence
               then s.inlet.(pc := s.inlet.pc.(received := true))
               else s.inlet
    ensures MarkerLast(t)
  {
    if !s.done { ReceiptMeansAll(s, item, back); }
  }

  lemma MarkerTakenSafe(s: State, t: State, item: Item, back: seq<Item>)
    requires SealSafe(s) && item.Marker? && Flight(s.lanes) == [item] + back && Flight(t.lanes) == back
    requires t.epoch == s.epoch
    requires t.inlet ==
               if s.inlet.pc.Waiting? && s.inlet.pc.sequence == item.sequence
               then s.inlet.(pc := s.inlet.pc.(received := true))
               else s.inlet
    ensures SealSafe(t)
  {
    assert forall x :: x in back ==> x in Flight(s.lanes);
  }

  lemma MarkerTakenInv(cfg: Config, s: State, t: State, item: Item, back: seq<Item>)
    requires Inv(cfg, s) && item.Marker? && Flight(s.lanes) == [item] + back && Flight(t.lanes) == back
    requires Routed(cfg, t.lanes)
    requires t.epoch == s.epoch && t.log == s.log && t.err == s.err && t.done == s.done
    requires t.inlet ==
               if s.inlet.pc.Waiting? && s.inlet.pc.sequence == item.sequence
               then s.inlet.(pc := s.inlet.pc.(received := true))
               else s.inlet
    ensures Inv(cfg, t)
  {
    MarkerTakenLast(s, t, item, back);
    MarkerTakenSafe(s, t, item, back);
    EmptyLeft(back);
    EmptyLeft([item] + back);
    DropMarker([], item, back);
    assert RowsIn(Flight(t.lanes)) == RowsIn(Flight(s.lanes));
    SameOutstanding(s, t);
    assert PureItems(back, s.epoch.ref) by { assert forall x :: x in back ==> x in Flight(s.lanes); }
  }

  /** A control at the head of everything in flight is the one awaited, and it is alone. */
  lemma ReceiptMeansAll(s: State, item: Item, back: seq<Item>)
    requires MarkerLast(s) && item.Marker? && Flight(s.lanes) == [item] + back && !s.done
    ensures back == [] && s.inlet.pc.Waiting? && !s.inlet.pc.received && s.inlet.pc.sequence == item.sequence
    ensures Empty(s.inlet.writers)
  {
    var items := Flight(s.lanes);
    assert item in items;
    assert items[0] == item;
  }

  // ---- counting ----

  lemma WrapSum(a: int, b: int)
    ensures Wrap64(Wrap64(a) + b) == Wrap64(a + b)
  {}

  lemma OfAppend(applied: seq<Applied>, a: Applied, r: Resource)
    ensures Of(applied + [a], r) == Of(applied, r) + (if a.resource == r then [a] else [])
  {
    assert (applied + [a])[..|applied|] == applied;
  }

  lemma TotalsAppend(applied: seq<Applied>, a: Applied)
    ensures TotalsOf(applied + [a]) == Plus(TotalsOf(applied), |a.rows|, a.bytes)
  {
    assert (applied + [a])[..|applied|] == applied;
    WrapSum(SumRows(applied), |a.rows|);
    WrapSum(SumBytes(applied), a.bytes);
  }

  lemma CountedAppend(s: State, a: Applied)
    requires Counted(s) && s.epoch.ref.Some?
    ensures Counted(s.(epoch := Count(s.epoch, a.resource, |a.rows|, a.bytes),
                       log := s.log.(applied := s.log.applied + [a])))
  {
    var applied := s.log.applied;
    var e := Count(s.epoch, a.resource, |a.rows|, a.bytes);
    TotalsAppend(applied, a);
    forall r
      ensures r in e.resources <==> Of(applied + [a], r) != []
      ensures r in e.resources ==> e.resources[r] == TotalsOf(Of(applied + [a], r))
    {
      OfAppend(applied, a, r);
      TotalsAppend(Of(applied, r), a);
      assert Of(applied, r) + [] == Of(applied, r);
      assert TotalsOf([]) == Totals(0, 0);
    }
  }

  lemma HandFlight(l: Lanes, item: Item)
    requires l.wHand == Some(item)
    ensures Flight(l) == [item] + Flight(l.(wHand := None))
  {
    EmptyLeft(l.batchCh);
    Associative([item], l.batchCh, Back(l));
  }

  lemma DeliveredConserved(s: State, t: State, item: Item, produced: seq<Row>, consumed: seq<Row>)
    requires item.Data? && s.lanes.wHand == Some(item) && t.lanes == s.lanes.(wHand := None) && t.inlet == s.inlet
    requires Conserved(produced, consumed, s)
    ensures Conserved(produced, consumed + item.rows, t)
  {
    var back := Flight(t.lanes);
    HandFlight(s.lanes, item);
    RowsInAppend([item], back);
    assert RowsIn([item]) == item.rows;
    forall r ensures For(produced, r) == For(consumed + item.rows, r) + Outstanding(t, r) {
      ForAppend(consumed, item.rows, r);
      ForAppend(item.rows, RowsIn(back), r);
      MoveFront(For(consumed, r), For(item.rows, r), For(RowsIn(back), r), BufferOf(s.inlet.writers, r));
    }
  }

  lemma MoveFront<T>(c: seq<T>, i: seq<T>, k: seq<T>, b: seq<T>)
    ensures c + ((i + k) + b) == (c + i) + (k + b)
  {}

  lemma WriterFinishInv(cfg: Config, s: State, r: WriteResult)
    requires Inv(cfg, s)
    ensures Inv(cfg, WriterFinish(cfg, s, r))
  {
    var t := WriterFinish(cfg, s, r);
    if s.lanes.wHand.Some? && s.lanes.wHand.value.Data? {
      var item := s.lanes.wHand.value;
      var back := Flight(s.lanes.(wHand := None));
      HandFlight(s.lanes, item);
      assert item in Flight(s.lanes);
      if !ReceiptMatches(cfg, item, r) {
        FailInv(cfg, s);
        EmptyLeft(back);
        EmptyLeft([item] + back);
        DroppedInv(cfg, Fail(s), t, [], item, back);
      } else {
        WrittenInv(cfg, s, item, r, back);
      }
    }
  }

  lemma WrittenInv(cfg: Config, s: State, item: Item, r: WriteResult, back: seq<Item>)
    requires Inv(cfg, s) && s.lanes.wHand == Some(item) && item.Data? && ReceiptMatches(cfg, item, r)
    requires item in Flight(s.lanes)
    requires Flight(s.lanes) == [item] + back && Flight(WriterFinish(cfg, s, r).lanes) == back
    ensures Inv(cfg, WriterFinish(cfg, s, r))
  {
    var t := WriterFinish(cfg, s, r);
    var a := Applied(item.resource, item.rows, r.bytes);
    assert forall x :: x in back ==> x in Flight(s.lanes);
    assert !Quiet(s) && item.epoch == s.epoch.ref;
    if s.epoch.ref.Some? { CountedAppend(s, a); }
    assert AppliedRows(s.log.applied + [a]) == AppliedRows(s.log.applied) + item.rows by {
      assert (s.log.applied + [a])[..|s.log.applied|] == s.log.applied;
    }
    if !s.log.lost {
      DeliveredConserved(s, t, item, s.log.ended, s.log.delivered);
      DeliveredConserved(s, t, item, s.log.sinceBind, AppliedRows(s.log.applied));
    }
    WrittenMarkerLast(s, t, item, back);
  }

  lemma WrittenMarkerLast(s: State, t: State, item: Item, back: seq<Item>)
    requires MarkerLast(s) && item.Data? && Flight(s.lanes) == [item] + back && Flight(t.lanes) == back
    requires t.inlet == s.inlet && t.done == s.done
    ensures MarkerLast(t)
  {
    LessOne(item, back);
  }

  lemma LessOne(item: Item, back: seq<Item>)
    ensures AllData([item] + back) ==> AllData(back)
    ensures item.Data? && back == [] ==> AllData([item] + back)
    ensures DataBefore([item] + back) ==> DataBefore(back)
    ensures back != [] ==> ([item] + back)[|back|] == back[|back| - 1]
  {
    var items := [item] + back;
    assert forall x :: x in back ==> x in items;
    assert forall k :: 0 <= k < |back| ==> back[k] == items[k + 1];
  }

  // ---- every reachable state ----

  lemma StepInv(cfg: Config, s: State, a: Action)
    requires Inv(cfg, s)
    ensures Inv(cfg, Step(cfg, s, a))
  {
    if a.ContinueAction? {
      ProducerAdvanceInv(cfg, s, a.sent);
    } else if Concurrent(a) {
      ConcurrentInv(cfg, s, a);
    } else if s.inlet.pc.Idle? {
      ProducerCallInv(cfg, s, a);
    }
  }

  /** The steps of the other goroutines, and failures. */
  predicate Concurrent(a: Action) {
    a.TransformTake? || a.TransformForward? || a.WriteTake? || a.WriteFinish? || a.Cancel? || a.Break?
  }

  lemma ConcurrentInv(cfg: Config, s: State, a: Action)
    requires Inv(cfg, s) && Concurrent(a)
    ensures Inv(cfg, Step(cfg, s, a))
  {
    if a.TransformTake? || a.TransformForward? {
      TransformerInv(cfg, s, a);
    } else if a.WriteTake? || a.WriteFinish? {
      WriterInv(cfg, s, a);
    } else if a.Cancel? {
      CancelInv(cfg, s);
    } else {
      FailInv(cfg, s);
    }
  }

  lemma TransformerInv(cfg: Config, s: State, a: Action)
    requires Inv(cfg, s) && (a.TransformTake? || a.TransformForward?)
    ensures Inv(cfg, Step(cfg, s, a))
  {
    if a.TransformTake? { TransformerTakeInv(cfg, s); } else { TransformerForwardInv(cfg, s, a.ok, a.sent); }
  }

  lemma WriterInv(cfg: Config, s: State, a: Action)
    requires Inv(cfg, s) && (a.WriteTake? || a.WriteFinish?)
    ensures Inv(cfg, Step(cfg, s, a))
  {
    if a.WriteTake? { WriterTakeInv(cfg, s); } else { WriterFinishInv(cfg, s, a.result); }
  }

  lemma CancelInv(cfg: Config, s: State)
    requires Inv(cfg, s)
    ensures Inv(cfg, s.(done := true))
  {
    SameOutstanding(s, s.(done := true));
  }

  /** The calls on one resource's writer. */
  lemma WriterCallInv(cfg: Config, s: State, a: Action)
    requires Inv(cfg, s) && s.inlet.pc.Idle?
    requires a.AppendAction? || a.EndRowAction? || a.FlushAction? || a.CloseAction?
    ensures Inv(cfg, ProducerCall(cfg, s, a))
  {
    var i := Find(s.inlet.writers, a.resource);
    if i >= 0 && ProducerCall(cfg, s, a) != s {
      match a
      case AppendAction(_, sent) => BeforeWriteInv(cfg, s, i, sent);
      case EndRowAction(_, value, complete, full, switched, sent) =>
        EndRowInv(cfg, s, i, value, complete, full, switched, sent);
      case FlushAction(_, sent) => FlushWriterInv(cfg, s, i, sent);
      case CloseAction(_, sent) => CloseWriterInv(cfg, s, i, sent);
    }
  }

  lemma ProducerCallInv(cfg: Config, s: State, a: Action)
    requires Inv(cfg, s) && s.inlet.pc.Idle?
    ensures Inv(cfg, ProducerCall(cfg, s, a))
  {
    if a.AppendAction? || a.EndRowAction? || a.FlushAction? || a.CloseAction? {
      WriterCallInv(cfg, s, a);
    } else {
      match a
      case OpenAction(r) => OpenBuilderInv(cfg, s, r);
      case MessageAction(r, same, sent) => MessageBuilderInv(cfg, s, r, same, sent);
      case BarrierAction(c) => BarrierStartInv(cfg, s, c);
      case BindAction(ref) => BindInv(cfg, s, ref);
      case SealAction => SealInv(cfg, s);
      case CloseIngestAction(clean) => CloseIngestInv(cfg, s, clean);
      case _ =>
    }
  }

  lemma StartInv(cfg: Config)
    ensures Inv(cfg, Start)
  {
    assert Flight(Start.lanes) == [];
    forall r ensures Outstanding(Start, r) == [] { QuietOutstanding(Start, r); }
  }

  /** Every interleaving of producer, transformer, writer and failure steps keeps the invariant. */
  lemma {:induction false} RunInv(cfg: Config, s: State, actions: seq<Action>)
    requires Inv(cfg, s)
    ensures Inv(cfg, Run(cfg, s, actions))
    decreases |actions|
  {
    if actions != [] {
      StepInv(cfg, s, actions[0]);
      RunInv(cfg, Step(cfg, s, actions[0]), actions[1..]);
    }
  }
}
