/** What the pipeline's steps leave alone: open transactions, the call under way, the bound epoch and what was applied
    in it. */
module EpochFrame {
  import opened RowModel
  import opened Progress
  import opened Epochs
  import opened EpochPipeline
  import I = EpochInvariant

  datatype Frame = Frame(open: Transactions, pc: Producer, ref: Option<EpochRef>, sealed: bool, applied: seq<Applied>)

  function FrameOf(s: State): Frame {
    Frame(s.inlet.transactions, s.inlet.pc, s.epoch.ref, s.epoch.sealed, s.log.applied)
  }

  ghost predicate Keeps(s: State, o: Outcome) { o.Finished? ==> FrameOf(o.s) == FrameOf(s) }

  /** A flush does not touch the epoch at all. */
  lemma FlushKeeps(cfg: Config, s: State, i: nat, sent: bool)
    requires i < |s.inlet.writers|
    ensures Keeps(s, SendChunk(cfg, s, i, sent)) && Keeps(s, FlushWriter(cfg, s, i, sent))
    ensures FlushWriter(cfg, s, i, sent).Finished? ==> FlushWriter(cfg, s, i, sent).s.epoch == s.epoch
  {}

  lemma CloseKeeps(cfg: Config, s: State, i: nat, sent: bool)
    requires i < |s.inlet.writers|
    ensures Keeps(s, CloseWriter(cfg, s, i, sent))
  {
    FlushKeeps(cfg, s, i, sent);
  }

  lemma BeforeKeeps(cfg: Config, s: State, i: nat, sent: bool)
    requires i < |s.inlet.writers|
    ensures Keeps(s, BeforeWrite(cfg, s, i, sent))
  {
    var other := Switched(cfg, s.inlet, s.inlet.writers[i].resource);
    if other >= 0 { FlushKeeps(cfg, Touch(s), other, sent); }
  }

  lemma EndKeeps(cfg: Config, s: State, i: nat, value: int, complete: bool, full: bool, switched: bool, sent: bool)
    requires i < |s.inlet.writers|
    ensures Keeps(s, EndRow(cfg, s, i, value, complete, full, switched, sent))
  {
    BeforeKeeps(cfg, s, i, switched);
    var before := BeforeWrite(cfg, s, i, switched);
    if before.Finished? && before.ok { FlushKeeps(cfg, AddRow(before.s, i, value), i, sent); }
  }

  lemma MessageKeeps(cfg: Config, s: State, r: Resource, same: bool, sent: bool)
    ensures FrameOf(MessageBuilder(cfg, s, r, same, sent)) == FrameOf(s)
  {
    var i := Find(s.inlet.writers, r);
    if i >= 0 { CloseKeeps(cfg, s, i, sent); }
  }

  lemma RowKeeps(cfg: Config, s: State, a: Action)
    requires a.AppendAction? || a.EndRowAction?
    ensures FrameOf(ProducerCall(cfg, s, a)) == FrameOf(s)
  {
    var i := Find(s.inlet.writers, a.resource);
    if i >= 0 && a.AppendAction? { BeforeKeeps(cfg, s, i, a.sent); }
    if i >= 0 && a.EndRowAction? { EndKeeps(cfg, s, i, a.value, a.complete, a.full, a.switched, a.sent); }
  }

  lemma WriterKeeps(cfg: Config, s: State, a: Action)
    requires a.FlushAction? || a.CloseAction?
    ensures FrameOf(ProducerCall(cfg, s, a)) == FrameOf(s)
  {
    var i := Find(s.inlet.writers, a.resource);
    if i >= 0 {
      FlushKeeps(cfg, s, i, a.sent);
      CloseKeeps(cfg, s, i, a.sent);
    }
  }

  /** A call that only opens, writes, flushes or closes builders. */
  predicate IsBuilderCall(a: Action) {
    a.OpenAction? || a.AppendAction? || a.EndRowAction? || a.FlushAction? || a.CloseAction? || a.MessageAction?
  }

  lemma BuilderKeeps(cfg: Config, s: State, a: Action)
    requires IsBuilderCall(a)
    ensures FrameOf(ProducerCall(cfg, s, a)) == FrameOf(s)
  {
    if a.AppendAction? || a.EndRowAction? { RowKeeps(cfg, s, a); }
    if a.FlushAction? || a.CloseAction? { WriterKeeps(cfg, s, a); }
    if a.MessageAction? { MessageKeeps(cfg, s, a.resource, a.sameModel, a.sent); }
  }

  /** Apart from what a finished write adds, these steps only tell the producer that its control arrived. */
  lemma ConcurrentKeeps(cfg: Config, s: State, a: Action)
    requires I.Concurrent(a)
    ensures var t := Step(cfg, s, a);
            && FrameOf(t) == FrameOf(s).(pc := t.inlet.pc, applied := t.log.applied)
            && t.epoch.completed == s.epoch.completed
            && (t.inlet.pc == s.inlet.pc || (s.inlet.pc.Waiting? && t.inlet.pc == s.inlet.pc.(received := true)))
            && (!a.WriteFinish? ==> t.log.applied == s.log.applied)
  {}

  lemma AdvanceKeeps(cfg: Config, s: State, sent: bool)
    ensures var t := ProducerAdvance(cfg, s, sent);
            t.epoch.ref == s.epoch.ref && t.epoch.sealed == s.epoch.sealed && t.log.applied == s.log.applied
  {
    var pc := s.inlet.pc;
    if (pc.Flushing? || pc.Draining?) && pc.next < |s.inlet.writers| { FlushKeeps(cfg, s, pc.next, sent); }
  }
}
