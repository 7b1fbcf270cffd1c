/** The bounded run lifecycle: one terminal fact per admitted run, whatever fails and whenever it is paused or
    canceled. */
module BoundedRun {
  datatype Signal = NoSignal | PauseSignal | CancelSignal

  datatype Terminal = Completed | Failed | Partial | Paused(committed: bool) | Canceled

  /** A lifecycle fact. */
  datatype Fact = Started | Ended(terminal: Terminal)

  datatype Error = NoError | CanceledError | OtherError

  /** Commands addressed to the run; they arrive at any time and are refused once the outcome is sealed. */
  class RunControl {
    var signal: Signal
    var sealed: bool
    var extractCanceled: bool

    constructor ()
      ensures signal.NoSignal? && !sealed
    {
      signal, sealed, extractCanceled := NoSignal, false, false;
    }

    /** A cancel overrides a pause; a pause never overrides a cancel. */
    method Request(s: Signal) returns (changed: bool)
      modifies this
      ensures sealed == old(sealed)
      ensures old(sealed) ==> !changed && signal == old(signal) && extractCanceled == old(extractCanceled)
      ensures !old(sealed) ==> extractCanceled && changed == (signal != old(signal))
      ensures !old(sealed) && !s.NoSignal? ==>
                !signal.NoSignal? && (signal.CancelSignal? <==> s.CancelSignal? || old(signal).CancelSignal?)
      ensures !old(sealed) && s.NoSignal? ==> signal == old(signal)
    {
      if sealed { return false; }
      var previous := signal;
      match s {
        case CancelSignal => signal := CancelSignal;
        case PauseSignal => if signal.NoSignal? { signal := PauseSignal; }
        case NoSignal =>
      }
      extractCanceled := true;
      return signal != previous;
    }

    method Seal() returns (s: Signal)
      modifies this`sealed
      ensures sealed && s == signal
    {
      sealed := true;
      return signal;
    }

    /** Whatever happens elsewhere between two steps of the run. */
    method Elsewhere()
      modifies this
      ensures sealed == old(sealed) && (old(sealed) ==> signal == old(signal))
      ensures !old(signal).NoSignal? ==> !signal.NoSignal?
    {
      var n: nat :| n >= 0;
      for i := 0 to n
        invariant sealed == old(sealed) && (old(sealed) ==> signal == old(signal))
        invariant !old(signal).NoSignal? ==> !signal.NoSignal?
      {
        var s: Signal := *;
        var changed := Request(s);
      }
      var parent: bool := *;
      extractCanceled := extractCanceled || parent;
    }
  }

  /** What a terminal fact says about the sink's Commit calls and about the commands accepted before the seal. */
  predicate Honest(t: Terminal, commits: seq<bool>, sealed: bool, signal: Signal) {
    match t
    case Completed => commits == [true] && sealed && signal.NoSignal?
    case Canceled => commits == []
    case Paused(committed) => commits == if committed then [true] else []
    case Failed => commits == [] || commits == [false]
    case Partial => commits == []
  }

  /** Facts before the terminal one. */
  predicate Opening(facts: seq<Fact>) { facts == [] || facts == [Started] }

  /** One terminal fact, the last. */
  predicate EndsRun(facts: seq<Fact>) { facts != [] && Opening(facts[..|facts| - 1]) && facts[|facts| - 1].Ended? }

  predicate StartedFirst(facts: seq<Fact>) { facts != [] && facts[0].Started? }

  /** What a call may leave published, given whether the spec is valid, its execution is prepared and run.started is
      acknowledged. A fact whose acknowledgement was lost may be stored all the same. */
  predicate Publishes(valid: bool, prepared: bool, acknowledged: bool, facts: seq<Fact>) {
    if !valid then facts == []
    else if !prepared then facts == [Ended(Failed)]
    else if !acknowledged then Opening(facts)
    else |facts| == 2 && facts[0].Started? && facts[1].Ended?
  }

  /** Preparing the execution fails: the run ends as failed without ever having started. */
  lemma UnpreparedNeverStarted(acknowledged: bool, facts: seq<Fact>)
    requires Publishes(true, false, acknowledged, facts)
    ensures facts == [Ended(Failed)] && EndsRun(facts) && !StartedFirst(facts)
  {
    assert facts[..0] == [];
  }

  /** Of every call that ends its run: run.started came first exactly when the execution was prepared. */
  lemma StartedExactly(valid: bool, prepared: bool, acknowledged: bool, facts: seq<Fact>)
    requires Publishes(valid, prepared, acknowledged, facts)
    ensures EndsRun(facts) <==> valid && (!prepared || acknowledged)
    ensures EndsRun(facts) ==> (StartedFirst(facts) <==> prepared)
  {
    if |facts| == 2 && facts[0].Started? { assert facts[..1] == [Started]; }
    if |facts| == 1 { assert facts[..0] == []; }
  }

  class Run {
    const control: RunControl
    const resumable: bool
    const commitsOnPause: bool
    /** Lifecycle facts published, and the outcome of every sink Commit. */
    ghost var facts: seq<Fact>
    ghost var commits: seq<bool>
    ghost var begun: bool
    ghost var aborted: bool

    constructor (control: RunControl, resumable: bool, commitsOnPause: bool)
      ensures this.control == control && this.resumable == resumable && this.commitsOnPause == commitsOnPause
      ensures facts == [] && commits == [] && !begun && !aborted
    {
      this.control, this.resumable, this.commitsOnPause := control, resumable, commitsOnPause;
      facts, commits, begun, aborted := [], [], false, false;
    }

    ghost predicate Underway()
      reads this, control
    {
      Opening(facts) && commits == [] && !aborted && !control.sealed
    }

    ghost function Last(): Fact
      requires facts != []
      reads this
    {
      facts[|facts| - 1]
    }

    /** Exactly one terminal fact after those published before, and an honest one. */
    ghost predicate Over(before: seq<Fact>)
      reads this, control
    {
      && |facts| == |before| + 1 && before <= facts && Last().Ended?
      && Honest(Last().terminal, commits, control.sealed, control.signal)
    }

    /** Once Begin succeeded, a sink whose Commit did not succeed is aborted, unless the run may resume from what it
        wrote; one whose Commit succeeded never is. */
    ghost predicate Tidy()
      reads this
    {
      && (aborted ==> begun && commits != [true])
      && (begun && commits != [true] ==> aborted || (facts != [] && Last() == Ended(Partial)))
    }

    method Emit(t: Terminal)
      requires Opening(facts) && Honest(t, commits, control.sealed, control.signal)
      modifies this`facts
      ensures Over(old(facts)) && facts == old(facts) + [Ended(t)]
    {
      facts := facts + [Ended(t)];
    }

    method AbortSink()
      requires begun && commits != [true]
      modifies this`aborted
      ensures aborted
    {
      aborted := true;
    }

    method CommitSink() returns (ok: bool)
      requires commits == []
      modifies this`commits
      ensures commits == [ok]
    {
      ok := *;
      commits := commits + [ok];
    }

    predicate StoppedByControl(err: Error, signal: Signal)
      reads control
    {
      !signal.NoSignal? && control.extractCanceled && !err.OtherError?
    }

    /** emitControlledIfStopped. */
    method EmitControlled(err: Error) returns (emitted: bool)
      requires Opening(facts) && commits == []
      modifies this`facts
      ensures if emitted then Over(old(facts)) else facts == old(facts)
    {
      var signal := control.signal;
      if !StoppedByControl(err, signal) { return false; }
      if signal.PauseSignal? { Emit(Paused(false)); } else { Emit(Canceled); }
      return true;
    }

    /** A step before extraction. One that fails ends the run: as controlled when a command interrupted it, else as
        failed. */
    method Stage(controllable: bool, abortsSink: bool) returns (ok: bool)
      requires Underway() && abortsSink == begun
      modifies this`facts, this`aborted, control
      ensures if ok then Underway() && facts == old(facts) else Over(old(facts)) && Tidy()
    {
      control.Elsewhere();
      var err: Error := *;
      if err.NoError? { return true; }
      if abortsSink { AbortSink(); }
      if controllable {
        var emitted := EmitControlled(err);
        if emitted { return false; }
      }
      Emit(Failed);
      return false;
    }

    /** The steps up to a begun sink, in order; true marks those a command may interrupt. */
    method Prepare() returns (ok: bool)
      requires Underway() && !begun
      modifies this, control
      ensures if ok then Underway() && begun && facts == old(facts) else Over(old(facts)) && Tidy()
    {
      var stages := [true, false, false, false, true, false, false, true, false, true, false, true, false, true, true,
                     true];
      for i := 0 to |stages|
        invariant Underway() && !begun && facts == old(facts)
      {
        ok := Stage(stages[i], false);
        if !ok { return false; }
      }
      begun := true;
      return true;
    }

    /** finishControlled. */
    method FinishControlled(signal: Signal)
      requires Opening(facts) && commits == [] && !aborted && begun && !signal.NoSignal? && control.sealed
      requires control.signal == signal
      modifies this
      ensures Over(old(facts)) && Tidy() && !Last().terminal.Completed?
    {
      if signal.CancelSignal? {
        AbortSink();
        Emit(Canceled);
        return;
      }
      if commitsOnPause {
        var ok := CommitSink();
        if !ok {
          Emit(Failed);
          AbortSink();
          return;
        }
      } else {
        AbortSink();
      }
      Emit(Paused(commitsOnPause));
    }

    /** What follows extraction: controlled, failed, or committed. */
    method Finish(waitErr: Error, extractErr: Error)
      requires Underway() && begun
      modifies this, control
      ensures Over(old(facts)) && Tidy()
      ensures Last().terminal.Completed? ==> waitErr.NoError? && extractErr.NoError?
      ensures !old(control.signal).NoSignal? ==> !Last().terminal.Completed?
    {
      control.Elsewhere();
      var requested := control.signal;
      if waitErr.NoError? && StoppedByControl(extractErr, requested) {
        control.Elsewhere();
        var signal := control.Seal();
        FinishControlled(signal);
        return;
      }
      var runErr := if waitErr.NoError? then extractErr else waitErr;
      if !runErr.NoError? {
        Emit(if resumable then Partial else Failed);
        if !resumable { AbortSink(); }
        return;
      }
      control.Elsewhere();
      var signal := control.Seal();
      if !signal.NoSignal? {
        FinishControlled(signal);
        return;
      }
      var ok := CommitSink();
      control.Elsewhere();
      if !ok {
        Emit(Failed);
        AbortSink();
        return;
      }
      Emit(Completed);
    }

    /**
      RunOne. A call that is not admitted returns an error and publishes no terminal fact; any other call returns
      without one and has published exactly one: completed only after a successful Commit with no command accepted
      before the seal, canceled only if Commit was never called, and paused as committed exactly when Commit succeeded.
      Before it comes run.started, unless preparing the execution failed. A begun sink is committed, aborted, or left
      for a resumable run.
     */
    method RunOne(valid: bool, prepared: bool, acknowledged: bool) returns (admitted: bool)
      requires Underway() && !begun && facts == []
      modifies this, control
      ensures Publishes(valid, prepared, acknowledged, facts) && admitted == (valid && (!prepared || acknowledged))
      ensures if admitted then Over(facts[..|facts| - 1]) && Tidy() else commits == []
    {
      if !valid { return false; }
      if !prepared {
        Emit(Failed);
        return true;
      }
      control.Elsewhere();
      var stored: bool := *;
      if acknowledged || stored { facts := [Started]; }
      if !acknowledged { return false; }
      Execute();
      return true;
    }

    /** The run once admitted. */
    method Execute()
      requires Underway() && !begun
      modifies this, control
      ensures Over(old(facts)) && Tidy()
    {
      var ready := Prepare();
      if !ready { return; }
      var parsed := Stage(false, true);
      if !parsed { return; }
      var ensured := Stage(true, true);
      if !ensured { return; }
      var resolved := Stage(true, true);
      if !resolved { return; }
      control.Elsewhere();
      var waitErr, extractErr: Error := *, *;
      Finish(waitErr, extractErr);
    }
  }
}
