/**
  The boundary tracker a connector forwards its controls through, beside the pipeline whose inlet accepts them.
  Timers are a flag: whether a time limit has elapsed when a call looks.
 */
module Boundary {
  import opened RowModel
  import opened Progress
  import opened Epochs
  import opened EpochPipeline
  import opened EpochFrame
  import I = EpochInvariant
  import T = EpochTheorem

  // ---- one Control call of the inlet, among the steps of the other goroutines ----

  /** What a control may change: the open transactions and the safe positions of the bound epoch. */
  datatype Ledger = Ledger(open: Transactions, completed: Positions, ref: Option<EpochRef>, sealed: bool)

  function LedgerOf(s: State): Ledger { Ledger(s.inlet.transactions, s.epoch.completed, s.epoch.ref, s.epoch.sealed) }

  /** A safe control that leaves no transaction open makes its position count. */
  function Entered(l: Ledger, c: Control): Ledger {
    var open := Accepted(l.open, c);
    var counts := l.ref.Some? && open == map[] && IsSafe(c);
    Ledger(open, if counts then l.completed[c.domain := c.position] else l.completed, l.ref, l.sealed)
  }

  predicate InControl(pc: Producer) { pc.Flushing? || pc.Sending? || pc.Waiting? }

  /** The call made in state before is still flushing, queueing or waiting. */
  predicate During(before: State, c: Control, s: State) {
    && InControl(s.inlet.pc) && s.inlet.pc.control == c && LedgerOf(s) == LedgerOf(before)
    && !before.epoch.sealed && Admissible(before.inlet.transactions, c)
  }

  /** The call has returned without an error. */
  predicate Taken(before: State, c: Control, s: State) {
    && s.inlet.pc.Idle? && Ready(s) && !s.epoch.sealed && LedgerOf(s) == Entered(LedgerOf(before), c)
    && Admissible(before.inlet.transactions, c)
  }

  /** The call has returned an error. */
  predicate Rejected(before: State, c: Control, s: State) {
    s.inlet.pc.Idle? && (!Ready(s) || s.epoch.sealed) && LedgerOf(s) == LedgerOf(before)
  }

  lemma CallStarts(s: State, c: Control)
    requires s.inlet.pc.Idle?
    ensures During(s, c, BarrierStart(s, c)) || Rejected(s, c, BarrierStart(s, c))
  {}

  lemma CallFlushes(cfg: Config, before: State, c: Control, s: State, sent: bool)
    requires During(before, c, s) && s.inlet.pc.Flushing?
    ensures var t := ProducerAdvance(cfg, s, sent); During(before, c, t) || Rejected(before, c, t)
  {
    var next := s.inlet.pc.next;
    if next < |s.inlet.writers| { FlushKeeps(cfg, s, next, sent); }
  }

  lemma CallAdvances(cfg: Config, before: State, c: Control, s: State, sent: bool)
    requires During(before, c, s)
    ensures var t := ProducerAdvance(cfg, s, sent);
            During(before, c, t) || Taken(before, c, t) || Rejected(before, c, t)
  {
    if s.inlet.pc.Flushing? { CallFlushes(cfg, before, c, s, sent); }
  }

  /** Whatever happens next, the call goes on or returns in one of the two ways. */
  lemma CallStep(cfg: Config, before: State, c: Control, s: State, a: Action)
    requires During(before, c, s)
    ensures var t := Step(cfg, s, a); During(before, c, t) || Taken(before, c, t) || Rejected(before, c, t)
  {
    if a.ContinueAction? {
      CallAdvances(cfg, before, c, s, a.sent);
    } else if I.Concurrent(a) {
      ConcurrentKeeps(cfg, s, a);
    }
  }

  /** The actions of one call from its start until it returns. */
  ghost predicate IsCall(cfg: Config, s: State, c: Control, actions: seq<Action>) {
    && s.inlet.pc.Idle? && actions != [] && actions[0] == BarrierAction(c) && Run(cfg, s, actions).inlet.pc.Idle?
    && forall k :: 0 < k < |actions| ==> !Run(cfg, s, actions[..k]).inlet.pc.Idle?
  }

  lemma {:induction false} CallPrefix(cfg: Config, s: State, c: Control, actions: seq<Action>, k: nat)
    requires IsCall(cfg, s, c, actions) && 0 < k <= |actions|
    ensures var t := Run(cfg, s, actions[..k]);
            During(s, c, t) || (k == |actions| && (Taken(s, c, t) || Rejected(s, c, t)))
  {
    if k == 1 {
      CallStarts(s, c);
      assert actions[..1] == [BarrierAction(c)] && Run(cfg, BarrierStart(s, c), []) == BarrierStart(s, c);
      RunOne(cfg, s, BarrierAction(c));
    } else {
      CallPrefix(cfg, s, c, actions, k - 1);
      RunNext(cfg, s, actions, k - 1);
      CallStep(cfg, s, c, Run(cfg, s, actions[..k - 1]), actions[k - 1]);
    }
    assert actions[..|actions|] == actions;
  }

  lemma RunOne(cfg: Config, s: State, a: Action)
    ensures Run(cfg, s, [a]) == Step(cfg, s, a)
  {
    assert [a][1..] == [];
  }

  lemma RunNext(cfg: Config, s: State, actions: seq<Action>, k: nat)
    requires k < |actions|
    ensures Run(cfg, s, actions[..k + 1]) == Step(cfg, Run(cfg, s, actions[..k]), actions[k])
  {
    assert actions[..k + 1] == actions[..k] + [actions[k]];
    T.RunAppend(cfg, s, actions[..k], actions[k]);
  }

  /**
    A Control call, in any interleaving with the transformer, the writer and failures: it either enters the control, and
    then the pipeline is healthy and the epoch unsealed; or the transactions and the safe positions are as they were,
    and the pipeline is finished or the epoch was sealed.
   */
  lemma ControlOutcome(cfg: Config, s: State, c: Control, actions: seq<Action>)
    requires IsCall(cfg, s, c, actions)
    ensures Taken(s, c, Run(cfg, s, actions)) || Rejected(s, c, Run(cfg, s, actions))
  {
    CallPrefix(cfg, s, c, actions, |actions|);
    assert actions[..|actions|] == actions;
  }

  /** Nothing but a control opens or ends a transaction. */
  lemma OnlyControlsEnter(cfg: Config, s: State, a: Action)
    requires !a.BarrierAction? && !InControl(s.inlet.pc)
    ensures Step(cfg, s, a).inlet.transactions == s.inlet.transactions && !InControl(Step(cfg, s, a).inlet.pc)
  {
    if I.Concurrent(a) { ConcurrentKeeps(cfg, s, a); }
    if a.ContinueAction? { DrainKeeps(cfg, s, a.sent); }
    if IsBuilderCall(a) { BuilderKeeps(cfg, s, a); }
  }

  lemma DrainKeeps(cfg: Config, s: State, sent: bool)
    requires !InControl(s.inlet.pc)
    ensures var t := ProducerAdvance(cfg, s, sent);
            t.inlet.transactions == s.inlet.transactions && !InControl(t.inlet.pc)
  {
    var pc := s.inlet.pc;
    if pc.Draining? && pc.next < |s.inlet.writers| { FlushKeeps(cfg, s, pc.next, sent); }
  }

  /** What a completed boundary is for: the pipeline can be sealed at once, and the completion names the boundary's
      position. */
  lemma CompletedSeals(cfg: Config, before: State, c: Control, s: State)
    requires Taken(before, c, s) && IsSafe(c) && s.inlet.transactions == map[] && s.epoch.ref.Some?
    ensures Seals(s)
    ensures var seals := Step(cfg, s, SealAction).log.seals;
            && |seals| == |s.log.seals| + 1 && seals[..|s.log.seals|] == s.log.seals
            && seals[|s.log.seals|].ref == s.epoch.ref.value
            && c.domain in seals[|s.log.seals|].positions && seals[|s.log.seals|].positions[c.domain] == c.position
  {
    assert c.domain in s.epoch.completed;
  }

  /** How a Control call ended, or that it has not returned. */
  datatype Answer = Accepts | Refuses | Blocks

  /** The pipeline a connector writes to. */
  class StreamSink {
    const cfg: Config
    var s: State

    ghost predicate Valid()
      reads this
    {
      T.Reachable(cfg, s)
    }

    method Take(a: Action)
      requires Valid()
      modifies this
      ensures Valid() && s == Step(cfg, old(s), a)
    {
      T.ReachStep(cfg, s, a);
      s := Step(cfg, s, a);
    }

    /** streamInlet.Control, which is Pipeline.Barrier; the other goroutines take any steps until it returns. */
    method Control(c: Control) returns (r: Answer)
      requires Valid() && s.inlet.pc.Idle?
      modifies this
      ensures Valid()
      ensures match r
              case Accepts => Taken(old(s), c, s)
              case Refuses => Rejected(old(s), c, s)
              case Blocks => During(old(s), c, s)
    {
      ghost var before := s;
      CallStarts(s, c);
      Take(BarrierAction(c));
      var turns: nat :| turns >= 0;
      while !s.inlet.pc.Idle? && turns > 0
        invariant Valid() && (During(before, c, s) || Taken(before, c, s) || Rejected(before, c, s))
        decreases turns
      {
        var a: Action := *;
        CallStep(cfg, before, c, s, a);
        Take(a);
        turns := turns - 1;
      }
      if !s.inlet.pc.Idle? { return Blocks; }
      return if Ready(s) && !s.epoch.sealed then Accepts else Refuses;
    }

    /** Rows written and epochs bound between controls, and anything the other goroutines do meanwhile. */
    method Work()
      requires Valid() && !InControl(s.inlet.pc)
      modifies this
      ensures Valid() && !InControl(s.inlet.pc) && s.inlet.transactions == old(s.inlet.transactions)
    {
      var turns: nat :| turns >= 0;
      for i := 0 to turns
        invariant Valid() && !InControl(s.inlet.pc) && s.inlet.transactions == old(s.inlet.transactions)
      {
        var a: Action := *;
        if !a.BarrierAction? {
          OnlyControlsEnter(cfg, s, a);
          Take(a);
        }
      }
    }
  }

  class BoundaryTracker {
    const maxRecords: int
    const maxBytes: int
    var records: int
    var bytes: int
    var requested: bool
    var closed: bool
    var failed: bool
    var transactions: Transactions

    /** The accounting fits the source's 64-bit counters. */
    predicate Valid()
      reads this
    {
      0 <= records <= MAX_INT64 && 0 <= bytes <= MAX_INT64 && (failed ==> closed)
    }

    constructor (maxRecords: int, maxBytes: int)
      requires maxRecords >= 0 && maxBytes >= 0
      ensures Valid() && transactions == map[] && !requested && !closed && records == 0 && bytes == 0
      ensures this.maxRecords == maxRecords && this.maxBytes == maxBytes
    {
      this.maxRecords, this.maxBytes := maxRecords, maxBytes;
      records, bytes, requested, closed, failed, transactions := 0, 0, false, false, false, map[];
    }

    /** A negative limit is refused. */
    static method Create(maxRecords: int, maxBytes: int, maxWait: int, maxAge: int) returns (b: BoundaryTracker?)
      ensures b == null <==> maxRecords < 0 || maxBytes < 0 || maxWait < 0 || maxAge < 0
      ensures b != null ==>
                && fresh(b) && b.Valid() && b.transactions == map[] && !b.requested && !b.closed
                && b.maxRecords == maxRecords && b.maxBytes == maxBytes
    {
      if maxRecords < 0 || maxBytes < 0 || maxWait < 0 || maxAge < 0 { return null; }
      b := new BoundaryTracker(maxRecords, maxBytes);
    }

    method Close()
      modifies this`closed
      ensures closed
    {
      closed := true;
    }

    predicate LimitReached(elapsed: bool)
      reads this
    {
      (maxRecords > 0 && records >= maxRecords) || (maxBytes > 0 && bytes >= maxBytes) || elapsed
    }

    method Fail()
      modifies this`failed, this`closed
      ensures failed && closed
    {
      failed := true;
      Close();
    }

    /** A request is sticky until the boundary completes or the tracker fails. */
    method Requested(elapsed: bool) returns (r: bool)
      requires Valid()
      modifies this`requested
      ensures r == (!old(closed) && (old(requested) || LimitReached(elapsed)))
      ensures requested == (old(requested) || r)
    {
      if closed { return false; }
      requested := requested || LimitReached(elapsed);
      return requested;
    }

    method Request() returns (ok: bool)
      requires Valid()
      modifies this`requested
      ensures ok == !closed && requested == (old(requested) || ok)
    {
      if closed { return false; }
      requested := true;
      return true;
    }

    /** Adds completed records; the counters never pass the 64-bit range, and an addition that would fails the
        tracker. */
    method Add(n: int, nbytes: int, elapsedBefore: bool, elapsedAfter: bool) returns (ok: bool)
      requires Valid() && -MAX_INT64 - 1 <= n <= MAX_INT64 && -MAX_INT64 - 1 <= nbytes <= MAX_INT64
      modifies this
      ensures Valid() && transactions == old(transactions)
      ensures ok ==
                (!old(closed) && n >= 0 && nbytes >= 0 && old(records) + n <= MAX_INT64
                 && old(bytes) + nbytes <= MAX_INT64)
      ensures ok ==>
                && records == old(records) + n && bytes == old(bytes) + nbytes && closed == old(closed)
                && failed == old(failed)
      ensures ok ==> requested == (old(requested) || old(LimitReached(elapsedBefore)) || LimitReached(elapsedAfter))
      ensures !ok ==> records == old(records) && bytes == old(bytes) && closed && requested == old(requested)
    {
      if closed { return false; }
      if n < 0 || nbytes < 0 || n > MAX_INT64 - records || nbytes > MAX_INT64 - bytes {
        Fail();
        return false;
      }
      var latched := Requested(elapsedBefore);
      records, bytes := records + n, bytes + nbytes;
      var again := Requested(elapsedAfter);
      return true;
    }

    /**
      Forwards a control to the pipeline and follows its answer. Started with the same open transactions as the
      pipeline, the two stay equal after every accepted control; and a completed boundary was requested, leaves no
      transaction open, and the pipeline with a bound epoch can be sealed at once, on a completion that names this
      control's position.
     */
    method Control(sink: StreamSink, c: Control, canceledBefore: bool, canceledAfter: bool, elapsed: bool)
      returns (complete: bool, ok: bool, returned: bool)
      requires Valid() && sink.Valid() && sink.s.inlet.pc.Idle? && transactions == sink.s.inlet.transactions
      modifies this, sink
      ensures Valid() && sink.Valid() && (old(requested) ==> requested) && (old(closed) ==> closed && !ok)
      ensures records == old(records) && bytes == old(bytes)
      ensures !returned ==> During(old(sink.s), c, sink.s) && !complete && !ok
      ensures returned ==> sink.s.inlet.pc.Idle?
      ensures ok ==> !old(closed) && !canceledBefore && !canceledAfter && Taken(old(sink.s), c, sink.s)
      ensures returned && !ok ==>
                old(closed) || canceledBefore || canceledAfter || !Admissible(old(transactions), c)
                  || Rejected(old(sink.s), c, sink.s)
      ensures ok ==> transactions == sink.s.inlet.transactions == Accepted(old(transactions), c)
      ensures returned && !ok ==> !complete && closed && transactions == old(transactions)
      ensures ok ==>
                && complete == (IsSafe(c) && transactions == map[] && (old(requested) || old(LimitReached(elapsed))))
                && complete == closed
      ensures complete ==> ok && requested && sink.s.inlet.transactions == map[]
      ensures complete && sink.s.epoch.ref.Some? ==>
                Seals(sink.s) && c.domain in sink.s.epoch.completed && sink.s.epoch.completed[c.domain] == c.position
    {
      if closed { return false, false, true; }
      if canceledBefore || !Admissible(transactions, c) {
        Fail();
        return false, false, true;
      }
      var answer := sink.Control(c);
      if answer.Blocks? { return false, false, false; }
      if answer.Refuses? || canceledAfter {
        Fail();
        return false, false, true;
      }
      complete := Enter(c, elapsed);
      if complete && sink.s.epoch.ref.Some? { CompletedSeals(sink.cfg, old(sink.s), c, sink.s); }
      return complete, true, true;
    }

    /** After an accepted control. */
    method Enter(c: Control, elapsed: bool) returns (complete: bool)
      requires Valid() && !closed
      modifies this`transactions, this`requested, this`closed
      ensures Valid() && transactions == Accepted(old(transactions), c) && (old(requested) ==> requested)
      ensures complete == (IsSafe(c) && transactions == map[] && (old(requested) || old(LimitReached(elapsed))))
      ensures complete == closed && (complete ==> requested)
    {
      transactions := Accepted(transactions, c);
      if IsSafe(c) && transactions == map[] {
        complete := Requested(elapsed);
        if complete { Close(); }
      } else {
        complete := false;
      }
    }

    /**
      A whole Read, as a connector drives it: rows and controls in any order and any number, with records counted and
      boundaries requested at any time. When it reports a completed boundary, the pipeline with a bound epoch can be
      sealed.
     */
    method Read(sink: StreamSink) returns (complete: bool)
      requires Valid() && !closed && transactions == map[] && sink.Valid() && sink.s.inlet.pc.Idle?
      requires sink.s.inlet.transactions == map[]
      modifies this, sink
      ensures Valid() && sink.Valid()
      ensures complete ==> requested && transactions == sink.s.inlet.transactions == map[]
      ensures complete && sink.s.epoch.ref.Some? ==> Seals(sink.s)
    {
      complete := false;
      var turns: nat :| turns >= 0;
      for i := 0 to turns
        invariant Valid() && sink.Valid() && !complete && sink.s.inlet.pc.Idle?
        invariant transactions == sink.s.inlet.transactions
      {
        var ok: bool;
        ok := Between(sink);
        if !ok { return false; }
        var c, canceledBefore, canceledAfter, elapsed := *, *, *, *;
        var returned: bool;
        complete, ok, returned := Control(sink, c, canceledBefore, canceledAfter, elapsed);
        if complete || !ok { return complete; }
      }
    }

    /** What happens before the next control; ok is false when the Read cannot go on. */
    method Between(sink: StreamSink) returns (ok: bool)
      requires Valid() && sink.Valid() && sink.s.inlet.pc.Idle? && transactions == sink.s.inlet.transactions
      modifies this, sink
      ensures Valid() && sink.Valid() && transactions == sink.s.inlet.transactions
      ensures ok ==> sink.s.inlet.pc.Idle?
    {
      sink.Work();
      if !sink.s.inlet.pc.Idle? { return false; }
      var asks, n, nbytes, before, after := *, *, *, *, *;
      if asks { ok := Request(); }
      if -MAX_INT64 - 1 <= n <= MAX_INT64 && -MAX_INT64 - 1 <= nbytes <= MAX_INT64 {
        ok := Add(n, nbytes, before, after);
      }
      return true;
    }
  }
}
