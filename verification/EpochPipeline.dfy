/**
  The continuous pipeline as steps of its goroutines: one producer that appends rows and sends controls,
  one transformer, one writer, and failures. A step that is not enabled leaves the state alone, so a run is
  any list of actions. Work a goroutine does between two channel operations is one step.
 */
module EpochPipeline {
  import opened RowModel
  import opened Progress
  import opened Epochs

  datatype ControlKind = TxnBegin | TxnEnd | ProgressBoundary | MemberActivated

  datatype Control = Control(kind: ControlKind, domain: Domain, position: Position, txn: string, member: string,
                             revision: int)

  /** rowmodel.Control.Validate. */
  predicate ValidControl(c: Control) {
    && ValidDomain(c.domain) && ValidPosition(c.position)
    && match c.kind
       case TxnBegin => c.txn != "" && c.member == "" && c.revision == 0
       case TxnEnd => c.txn != "" && c.member == "" && c.revision == 0
       case ProgressBoundary => c.txn == "" && c.member == "" && c.revision == 0
       case MemberActivated => c.txn == "" && c.member != "" && c.revision > 0
  }

  type Transactions = map<Domain, string>

  function OpenTxn(open: Transactions, d: Domain): string { if d in open then open[d] else "" }

  /** streamInlet.validateControl. */
  predicate Admissible(open: Transactions, c: Control) {
    && ValidControl(c)
    && match c.kind
       case TxnBegin => OpenTxn(open, c.domain) == ""
       case TxnEnd => OpenTxn(open, c.domain) == c.txn
       case ProgressBoundary => OpenTxn(open, c.domain) == ""
       case MemberActivated => OpenTxn(open, c.domain) == ""
  }

  /** streamInlet.acceptControl. */
  function Accepted(open: Transactions, c: Control): Transactions {
    match c.kind
    case TxnBegin => open[c.domain := c.txn]
    case TxnEnd => open - {c.domain}
    case ProgressBoundary => open
    case MemberActivated => open
  }

  predicate IsSafe(c: Control) { c.kind.TxnEnd? || c.kind.ProgressBoundary? }

  /** A row, with the resource it was ended on and the epoch bound at that moment. */
  datatype Row = Row(resource: Resource, epoch: Option<EpochRef>, value: int)

  datatype Item =
    | Data(resource: Resource, rows: seq<Row>, epoch: Option<EpochRef>)
    | Marker(control: Control, sequence: nat)

  datatype Writer = Writer(resource: Resource, buffered: seq<Row>, inRow: bool, closed: bool)

  /** Where the producer is inside a call that performs several channel operations. */
  datatype Producer =
    | Idle
    | Flushing(control: Control, next: nat)
    | Sending(control: Control)
    | Waiting(control: Control, sequence: nat, received: bool)
    | Draining(next: nat)

  /** A batch whose Apply receipt matched. */
  datatype Applied = Applied(resource: Resource, rows: seq<Row>, bytes: int)

  datatype Completion = Completion(ref: EpochRef, positions: Positions, total: Totals, resources: map<Resource, Totals>)

  /** planned is the set of resources a transform definition names; they pass through the transformer. */
  datatype Config = Config(strict: bool, transform: bool, planned: set<Resource>, encodedIntegrity: bool, capacity: nat)

  /** The producer's side: builders, open transactions and the call under way. */
  datatype Inlet = Inlet(
    writers: seq<Writer>, active: Option<Resource>, transactions: Transactions, sequence: nat, closed: bool,
      pc: Producer)

  /** The bound epoch and what the writer has added to it. */
  datatype Epoch = Epoch(
    ref: Option<EpochRef>, touched: bool, sealed: bool, written: bool, completed: Positions,
    total: Totals, resources: map<Resource, Totals>)

  /** The two channels and the item each consumer holds. */
  datatype Lanes = Lanes(transformCh: seq<Item>, xHand: Option<Item>, batchCh: seq<Item>, wHand: Option<Item>)

  /** Rows ended and delivered over the run and since BindEpoch, completions issued, and whether a failure dropped
      rows. */
  datatype History = History(
    ended: seq<Row>, delivered: seq<Row>, sinceBind: seq<Row>, applied: seq<Applied>, seals: seq<Completion>,
      lost: bool)

  datatype State = State(inlet: Inlet, epoch: Epoch, lanes: Lanes, log: History, err: bool, done: bool)

  const Start := State(
    Inlet([], None, map[], 0, false, Idle), Epoch(None, false, false, false, map[], Totals(0, 0), map[]),
    Lanes([], None, [], None), History([], [], [], [], [], false), false, false)

  // ---- producer ----

  predicate Ready(s: State) { !s.err && !s.inlet.closed && !s.done }

  function Fail(s: State): State { s.(err := true, done := true) }

  function Lose(s: State, lost: bool): State { s.(log := s.log.(lost := s.log.lost || lost)) }

  function Find(writers: seq<Writer>, r: Resource): (i: int)
    ensures -1 <= i < |writers|
    ensures i >= 0 ==> writers[i].resource == r && forall j :: 0 <= j < i ==> writers[j].resource != r
    ensures i < 0 ==> forall j :: 0 <= j < |writers| ==> writers[j].resource != r
  {
    if writers == [] then -1
    else if writers[0].resource == r then 0
    else
      var i := Find(writers[1..], r);
      assert forall j :: 1 <= j < |writers| ==> writers[j] == writers[1..][j - 1];
      if i < 0 then -1 else i + 1
  }

  /** The result of a producer call: blocked on a full channel, or finished with or without an error. */
  datatype Outcome = Blocked | Finished(s: State, ok: bool)

  function Unblocked(s: State, o: Outcome): State { if o.Blocked? then s else o.s }

  predicate Planned(cfg: Config, r: Resource) { cfg.transform && r in cfg.planned }

  /** Queues an item on the transform or the writer channel, unless it is full. */
  function Put(cfg: Config, lanes: Lanes, transform: bool, item: Item): Option<Lanes> {
    if transform then
      if |lanes.transformCh| < cfg.capacity then Some(lanes.(transformCh := lanes.transformCh + [item])) else None
    else
      if |lanes.batchCh| < cfg.capacity then Some(lanes.(batchCh := lanes.batchCh + [item])) else None
  }

  function SetWriter(s: State, i: nat, w: Writer): State
    requires i < |s.inlet.writers|
  {
    s.(inlet := s.inlet.(writers := s.inlet.writers[i := w]))
  }

  /** Hands a writer's buffered rows over as one batch; sent is false only when the pipeline gave up. */
  function SendChunk(cfg: Config, s: State, i: nat, sent: bool): (o: Outcome)
    requires i < |s.inlet.writers|
    ensures o.Finished? ==> |o.s.inlet.writers| == |s.inlet.writers|
  {
    var w := s.inlet.writers[i];
    if w.buffered == [] then Finished(s, true) else
      var emptied := SetWriter(s, i, w.(buffered := []));
      var lanes := Put(cfg, s.lanes, Planned(cfg, w.resource), Data(w.resource, w.buffered, s.epoch.ref));
      if sent && lanes.Some? then Finished(emptied.(lanes := lanes.value), true)
      else if !sent && s.done then Finished(Fail(Lose(emptied, true)), false)
      else Blocked
  }

  /** streamWriter.Flush. */
  function FlushWriter(cfg: Config, s: State, i: nat, sent: bool): (o: Outcome)
    requires i < |s.inlet.writers|
    ensures o.Finished? ==> |o.s.inlet.writers| == |s.inlet.writers|
  {
    if s.err then Finished(s, false)
    else if s.inlet.writers[i].closed || s.inlet.writers[i].inRow then Finished(Fail(s), false)
    else SendChunk(cfg, s, i, sent)
  }

  /** What any write does to the bound epoch: safe positions accepted so far no longer count. */
  function Touch(s: State): State { s.(epoch := s.epoch.(touched := true, written := true, completed := map[])) }

  /** The writer a strict pipeline flushes before another resource's row. */
  function Switched(cfg: Config, inlet: Inlet, r: Resource): (i: int)
    ensures i < |inlet.writers|
  {
    if cfg.strict && inlet.active.Some? && inlet.active.value != r then Find(inlet.writers, inlet.active.value) else -1
  }

  function OpenRow(s: State, i: nat): State
    requires i < |s.inlet.writers|
  {
    var w := s.inlet.writers[i];
    s.(inlet := s.inlet.(active := Some(w.resource), writers := s.inlet.writers[i := w.(inRow := true)]))
  }

  /** streamWriter.beforeWrite, which in strict mode flushes the writer that was active. */
  function BeforeWrite(cfg: Config, s: State, i: nat, sent: bool): (o: Outcome)
    requires i < |s.inlet.writers|
    ensures o.Finished? ==> |o.s.inlet.writers| == |s.inlet.writers|
  {
    if s.epoch.sealed then Finished(Fail(s), false)
    else if !Ready(s) then Finished(Touch(s), false)
    else if s.inlet.writers[i].closed then Finished(Fail(Touch(s)), false)
    else
      var other := Switched(cfg, s.inlet, s.inlet.writers[i].resource);
      var flushed := if other >= 0 then FlushWriter(cfg, Touch(s), other, sent) else Finished(Touch(s), true);
      if flushed.Blocked? || !flushed.ok then flushed else Finished(OpenRow(flushed.s, i), true)
  }

  /** A completed row joins its writer's buffer. */
  function AddRow(s: State, i: nat, value: int): State
    requires i < |s.inlet.writers|
  {
    var w := s.inlet.writers[i];
    var row := Row(w.resource, s.epoch.ref, value);
    SetWriter(s, i, w.(buffered := w.buffered + [row], inRow := false))
      .(log := s.log.(ended := s.log.ended + [row], sinceBind := s.log.sinceBind + [row]))
  }

  /** streamWriter.EndRow; the builder refuses a short row, and flushes when full or when the ticker asked. */
  function EndRow(cfg: Config, s: State, i: nat, value: int, complete: bool, full: bool, switched: bool,
      sent: bool): (o: Outcome)
    requires i < |s.inlet.writers|
  {
    var before := BeforeWrite(cfg, s, i, switched);
    if before.Blocked? || !before.ok then before
    else if !complete then Finished(Fail(before.s), false)
    else if full then SendChunk(cfg, AddRow(before.s, i, value), i, sent)
    else Finished(AddRow(before.s, i, value), true)
  }

  /** The state once a writer is closed; rows a failed flush left behind are discarded. */
  function Closed(s: State, i: nat): State
    requires i < |s.inlet.writers|
  {
    var w := s.inlet.writers[i];
    Lose(s, w.buffered != [])
      .(inlet := s.inlet.(writers := s.inlet.writers[i := w.(closed := true, inRow := false, buffered := [])],
                          active := if s.inlet.active == Some(w.resource) then None else s.inlet.active))
  }

  /** streamWriter.Close. */
  function CloseWriter(cfg: Config, s: State, i: nat, sent: bool): (o: Outcome)
    requires i < |s.inlet.writers|
    ensures o.Finished? ==> |o.s.inlet.writers| == |s.inlet.writers|
  {
    if s.inlet.writers[i].closed then Finished(s, true) else
      var flushed := FlushWriter(cfg, s, i, sent);
      if flushed.Blocked? then flushed else Finished(Closed(flushed.s, i), flushed.ok)
  }

  /** Pipeline.BindEpoch. */
  predicate Binds(s: State, ref: EpochRef) {
    && ValidRef(ref) && Ready(s)
    && (s.epoch.ref.None? ==> !s.epoch.touched)
    && (s.epoch.ref.Some? ==>
        s.epoch.sealed && ref.attempt == s.epoch.ref.value.attempt && ref.epoch == s.epoch.ref.value.epoch + 1)
  }

  function BindEpoch(s: State, ref: EpochRef): State {
    if !Binds(s, ref) then s
    else s.(epoch := Epoch(Some(ref), s.epoch.touched, false, false, map[], Totals(0, 0), map[]),
            log := s.log.(sinceBind := [], applied := []))
  }

  /** Pipeline.SealEpoch; success appends the completion evidence. */
  predicate Seals(s: State) {
    Ready(s) && s.epoch.ref.Some? && !s.epoch.sealed && s.inlet.transactions == map[] && s.epoch.completed != map[]
  }

  function SealEpoch(s: State): State {
    if !Seals(s) then s
    else s.(epoch := s.epoch.(sealed := true),
            log := s.log.(seals := s.log.seals
                          + [Completion(s.epoch.ref.value, s.epoch.completed, s.epoch.total, s.epoch.resources)]))
  }

  /** Opening a builder for a resource that has none. */
  function OpenBuilder(s: State, r: Resource): State {
    if !Ready(s) || Find(s.inlet.writers, r) >= 0 then s
    else s.(inlet := s.inlet.(writers := s.inlet.writers + [Writer(r, [], false, false)]))
  }

  function WithoutWriter(s: State, i: nat): State
    requires i < |s.inlet.writers|
  {
    s.(inlet := s.inlet.(writers := s.inlet.writers[..i] + s.inlet.writers[i + 1..]))
  }

  /** streamInlet.MessageBuilder for an admitted layout change: the old builder is drained, closed and replaced. */
  function MessageBuilder(cfg: Config, s: State, r: Resource, sameModel: bool, sent: bool): State {
    if !Ready(s) || s.epoch.ref.None? || s.epoch.sealed || s.epoch.written || s.inlet.transactions != map[] then s else
      var i := Find(s.inlet.writers, r);
      if i < 0 then OpenBuilder(s, r)
      else if sameModel then s
      else
        var c := CloseWriter(cfg, s, i, sent);
        if c.Blocked? then s
        else if !c.ok then c.s
        else OpenBuilder(WithoutWriter(c.s, i), r)
  }

  function At(s: State, pc: Producer): State { s.(inlet := s.inlet.(pc := pc)) }

  function BarrierStart(s: State, c: Control): State {
    if s.epoch.sealed then s else
      var t := s.(epoch := s.epoch.(touched := true));
      if !Ready(s) then t
      else if !Admissible(s.inlet.transactions, c) then Fail(t)
      else At(t, Flushing(c, 0))
  }

  /** Flushes the next open writer of a Barrier or of the final drain. */
  function FlushNext(cfg: Config, s: State, next: nat, sent: bool): Outcome {
    if next < |s.inlet.writers| && !s.inlet.writers[next].closed then FlushWriter(cfg, s, next, sent)
    else Finished(s, true)
  }

  function Advance(s: State, o: Outcome, pc: Producer): State {
    if o.Blocked? then s else if o.ok then At(o.s, pc) else At(Fail(o.s), Idle)
  }

  function SendMarker(cfg: Config, s: State, c: Control, sent: bool): State {
    var n := s.inlet.sequence + 1;
    var lanes := Put(cfg, s.lanes, cfg.transform, Marker(c, n));
    if sent && lanes.Some? then s.(lanes := lanes.value, inlet := s.inlet.(sequence := n, pc := Waiting(c, n, false)))
    else if !sent && s.done then s.(inlet := s.inlet.(sequence := n, pc := Idle))
    else s
  }

  function AcceptControl(s: State, c: Control): State {
    var open := Accepted(s.inlet.transactions, c);
    s.(inlet := s.inlet.(pc := Idle, transactions := open),
       epoch := if s.epoch.ref.Some? && open == map[] && IsSafe(c)
                then s.epoch.(completed := s.epoch.completed[c.domain := c.position]) else s.epoch)
  }

  /** One channel operation of a call already under way. */
  function ProducerAdvance(cfg: Config, s: State, sent: bool): State {
    match s.inlet.pc
    case Idle => s
    case Flushing(c, next) =>
      if next >= |s.inlet.writers| then At(s, Sending(c))
      else Advance(s, FlushNext(cfg, s, next, sent), Flushing(c, next + 1))
    case Sending(c) => SendMarker(cfg, s, c, sent)
    case Waiting(c, _, received) =>
      if received && sent then (if Ready(s) then AcceptControl(s, c) else At(s, Idle))
      else if s.done then At(s, Idle)
      else s
    case Draining(next) =>
      if next >= |s.inlet.writers| then At(s, Idle) else Advance(s, FlushNext(cfg, s, next, sent), Draining(next + 1))
  }

  /** CloseIngest: flush what is left after a clean finish, give up otherwise. */
  function CloseIngest(s: State, clean: bool): State {
    if s.inlet.closed then s else
      var t := s.(inlet := s.inlet.(closed := true));
      if clean && s.inlet.transactions == map[] then At(t, Draining(0)) else Fail(t)
  }

  // ---- transformer and writer ----

  function TransformerTake(s: State): State {
    if s.lanes.xHand.Some? || s.lanes.transformCh == [] then s else
      var head, rest := s.lanes.transformCh[0], s.lanes.transformCh[1..];
      if s.err then Lose(s.(lanes := s.lanes.(transformCh := rest)), head.Data?)
      else s.(lanes := s.lanes.(transformCh := rest, xHand := Some(head)))
  }

  /** The transformer applies the plan and forwards the batch; controls pass through untouched. */
  function TransformerForward(cfg: Config, s: State, ok: bool, sent: bool): State {
    if s.lanes.xHand.None? then s else
      var item := s.lanes.xHand.value;
      var freed := s.lanes.(xHand := None);
      var lanes := Put(cfg, freed, false, item);
      if item.Data? && !ok then Fail(Lose(s.(lanes := freed), true))
      else if sent && lanes.Some? then s.(lanes := lanes.value)
      else if !sent && s.done then Lose(s.(lanes := freed), item.Data?)
      else s
  }

  function WriterTake(s: State): State {
    if s.lanes.wHand.Some? || s.lanes.batchCh == [] then s else
      var item, rest := s.lanes.batchCh[0], s.lanes.batchCh[1..];
      var t := s.(lanes := s.lanes.(batchCh := rest));
      if s.err then Lose(t, item.Data?)
      else match item
        case Data(_, _, _) => s.(lanes := s.lanes.(batchCh := rest, wHand := Some(item)))
        case Marker(_, n) =>
          if s.inlet.pc.Waiting? && s.inlet.pc.sequence == n then At(t, s.inlet.pc.(received := true)) else t
  }

  /** How a write ended: refused before Apply, an Apply error, or a receipt. */
  datatype WriteResult = Refused | ApplyError | Receipt(rows: int, bytes: int, crcMatches: bool, evidence: bool)

  predicate ReceiptMatches(cfg: Config, item: Item, r: WriteResult)
    requires item.Data?
  {
    && r.Receipt? && r.crcMatches
    && (item.epoch.Some? ==> r.rows == |item.rows|)
    && (cfg.encodedIntegrity ==> r.evidence)
  }

  /** The epoch's totals after a batch whose receipt matched. */
  function Count(e: Epoch, r: Resource, rows: int, bytes: int): Epoch {
    var prior := if r in e.resources then e.resources[r] else Totals(0, 0);
    e.(total := Plus(e.total, rows, bytes), resources := e.resources[r := Plus(prior, rows, bytes)])
  }

  /** processBatch. */
  function WriterFinish(cfg: Config, s: State, r: WriteResult): State {
    if s.lanes.wHand.None? || s.lanes.wHand.value.Marker? then s else
      var item := s.lanes.wHand.value;
      var freed := s.(lanes := s.lanes.(wHand := None));
      if !ReceiptMatches(cfg, item, r) then Fail(Lose(freed, true))
      else freed.(
        log := s.log.(delivered := s.log.delivered + item.rows,
                      applied := s.log.applied + [Applied(item.resource, item.rows, r.bytes)]),
        epoch := if item.epoch.Some? then Count(s.epoch, item.resource, |item.rows|, r.bytes) else s.epoch)
  }

  // ---- runs ----

  datatype Action =
    | OpenAction(resource: Resource)
    | AppendAction(resource: Resource, sent: bool)
    | EndRowAction(resource: Resource, value: int, complete: bool, full: bool, switched: bool, sent: bool)
    | FlushAction(resource: Resource, sent: bool)
    | CloseAction(resource: Resource, sent: bool)
    | MessageAction(resource: Resource, sameModel: bool, sent: bool)
    | BarrierAction(control: Control)
    | BindAction(ref: EpochRef)
    | SealAction
    | CloseIngestAction(clean: bool)
    | ContinueAction(sent: bool)
    | TransformTake
    | TransformForward(ok: bool, sent: bool)
    | WriteTake
    | WriteFinish(result: WriteResult)
    | Cancel
    | Break

  /** A call the producer starts while no other call is under way. */
  function ProducerCall(cfg: Config, s: State, a: Action): State {
    match a
    case OpenAction(r) => OpenBuilder(s, r)
    case AppendAction(r, sent) =>
      var i := Find(s.inlet.writers, r);
      if i < 0 then s else Unblocked(s, BeforeWrite(cfg, s, i, sent))
    case EndRowAction(r, value, complete, full, switched, sent) =>
      var i := Find(s.inlet.writers, r);
      if i < 0 then s else Unblocked(s, EndRow(cfg, s, i, value, complete, full, switched, sent))
    case FlushAction(r, sent) =>
      var i := Find(s.inlet.writers, r);
      if i < 0 then s else Unblocked(s, FlushWriter(cfg, s, i, sent))
    case CloseAction(r, sent) =>
      var i := Find(s.inlet.writers, r);
      if i < 0 then s else Unblocked(s, CloseWriter(cfg, s, i, sent))
    case MessageAction(r, same, sent) => MessageBuilder(cfg, s, r, same, sent)
    case BarrierAction(c) => BarrierStart(s, c)
    case BindAction(ref) => BindEpoch(s, ref)
    case SealAction => SealEpoch(s)
    case CloseIngestAction(clean) => CloseIngest(s, clean)
    case _ => s
  }

  function Step(cfg: Config, s: State, a: Action): State {
    match a
    case ContinueAction(sent) => ProducerAdvance(cfg, s, sent)
    case TransformTake => TransformerTake(s)
    case TransformForward(ok, sent) => TransformerForward(cfg, s, ok, sent)
    case WriteTake => WriterTake(s)
    case WriteFinish(r) => WriterFinish(cfg, s, r)
    case Cancel => s.(done := true)
    case Break => Fail(s)
    case _ => if s.inlet.pc.Idle? then ProducerCall(cfg, s, a) else s
  }

  function Run(cfg: Config, s: State, actions: seq<Action>): State
    decreases |actions|
  {
    if actions == [] then s else Run(cfg, Step(cfg, s, actions[0]), actions[1..])
  }
}
