/**
  What the log of a continuous run may say: when an epoch may begin, be sealed, committed, aborted, certified, published
  and acknowledged, given everything logged before; and what a log that keeps to this means. The runner's own markers
  count only beside the calls its sinks answered.
 */
module EpochLog {
  import opened RowModel
  import opened Progress
  import opened Epochs
  import opened Certificates
  import opened EpochCommit
  import opened SinkSession
  import P = EpochPipeline
  import I = EpochInvariant
  import T = EpochTheorem

  // ---- what a log may say ----

  /** The epoch whose Begin succeeded and that has been neither committed nor aborted. */
  function OpenEpoch(log: seq<Event>): Option<EpochRef> {
    if log == [] then None else
      match log[|log| - 1]
      case EpochBegun(ref) => Some(ref)
      case EpochCommitted(_) => None
      case EpochAborted(_) => None
      case _ => OpenEpoch(log[..|log| - 1])
  }

  /** What became of the write that the last epoch began: its instance's Begin, Commit, Abort and Close calls decide,
      and a saved write is confirmed when its epoch counts as committed. Also the last commit that was checked against
      sealed evidence while the write was underway. */
  datatype Write =
    | Unwritten
    | Underway(ref: EpochRef, instance: nat, checked: Option<Commit>)
    | Saved(ref: EpochRef, instance: nat, checked: Option<Commit>, closed: bool)
    | Confirmed(ref: EpochRef, instance: nat, checked: Option<Commit>)
    | Discarded(ref: EpochRef, instance: nat)

  function Later(w: Write, e: Event): Write {
    match w
    case Underway(ref, x, checked) =>
      if e.Validated? then Underway(ref, x, Some(e.commit))
      else if e == CommitCall(x, true) then Saved(ref, x, checked, false)
      else if e.AbortCall? && e.instance == x then Discarded(ref, x)
      else w
    case Saved(ref, x, checked, _) =>
      if e == EpochCommitted(ref) then Confirmed(ref, x, checked)
      else if e.CloseCall? && e.instance == x then Saved(ref, x, checked, true)
      else w
    case _ => w
  }

  /** An epoch's write is the one whose successful Begin came right before it. */
  function EpochWrite(log: seq<Event>): Write {
    if log == [] then Unwritten else
      var front, e := log[..|log| - 1], log[|log| - 1];
      if !e.EpochBegun? then Later(EpochWrite(front), e)
      else if JustBegan(front) then Underway(e.ref, front[|front| - 1].instance, None)
      else Unwritten
  }

  predicate JustBegan(log: seq<Event>) { log != [] && log[|log| - 1].BeginCall? && log[|log| - 1].ok }

  /** The number the next epoch must have. */
  function NextEpoch(first: int, log: seq<Event>): int {
    if log == [] then first
    else if log[|log| - 1].EpochBegun? then log[|log| - 1].ref.epoch + 1
    else NextEpoch(first, log[..|log| - 1])
  }

  ghost predicate CertifiedRef(log: seq<Event>, ref: EpochRef) {
    exists k :: 0 <= k < |log| && log[k].Certified? && log[k].own.ref == ref
  }

  ghost predicate HasCertificate(log: seq<Event>, ref: EpochRef, coverage: Coverage) {
    exists k :: 0 <= k < |log| && log[k].Certified? && log[k].own.ref == ref && log[k].own.coverage == coverage
  }

  /** The evidence of the last seal. */
  function LastSealed(log: seq<Event>): Option<P.Completion> {
    if log == [] then None
    else if log[|log| - 1].Sealed? then Some(log[|log| - 1].completion)
    else LastSealed(log[..|log| - 1])
  }

  predicate WasSaved(w: Write) { w.Saved? || w.Confirmed? }

  /** The write's epoch has this certificate, checked before the write was committed. */
  predicate Checks(w: Write, c: Certificate) {
    (w.Underway? || WasSaved(w)) && w.ref == c.ref && w.checked.Some? && w.checked.value.certificate == c
  }

  /** A lease renewal succeeded after the certificate. */
  ghost predicate HasRenewal(log: seq<Event>, ref: EpochRef, coverage: Coverage) {
    exists k :: 0 <= k < |log| && log[k] == Renewed(true) && HasCertificate(log[..k], ref, coverage)
  }

  /** How certificates are compared, the number of the first epoch, and the pipeline the epochs run through. */
  datatype Rules = Rules(resolver: Resolver, encoding: Encoding, first: int, pipeline: P.Config)

  ghost predicate SameCertificate(rules: Rules, own: Certificate, stored: Certificate) {
    var bytes := CanonicalBytes(rules.resolver, rules.encoding, own);
    bytes.Some? && bytes == CanonicalBytes(rules.resolver, rules.encoding, stored)
  }

  /** When an event may happen, given what happened before. */
  ghost predicate Justified(rules: Rules, log: seq<Event>, e: Event) {
    match e
    case EpochBegun(ref) => OpenEpoch(log).None? && ref.epoch == NextEpoch(rules.first, log) && JustBegan(log)
    case Sealed(c) => OpenEpoch(log) == Some(c.ref)
    case Validated(c) => OpenEpoch(log) == Some(c.certificate.ref) && LastSealed(log) == Some(c.completion)
    case EpochCommitted(ref) =>
      && OpenEpoch(log) == Some(ref) && EpochWrite(log).Saved? && EpochWrite(log).ref == ref
      && EpochWrite(log).checked.Some? && EpochWrite(log).checked.value.certificate.ref == ref
    case EpochAborted(ref) =>
      && OpenEpoch(log) == Some(ref)
      && (EpochWrite(log).Discarded? || (EpochWrite(log).Saved? && EpochWrite(log).closed))
      && EpochWrite(log).ref == ref
    case Certified(own, stored) =>
      EpochWrite(log).Confirmed? && Checks(EpochWrite(log), own) && SameCertificate(rules, own, stored)
    case Published(f) => CertifiedRef(log, f.ref)
    case CheckpointSaved(ref, _) => CertifiedRef(log, ref)
    case Acknowledged(ref, coverage) => HasRenewal(log, ref, coverage)
    case _ => true
  }

  ghost predicate Orderly(rules: Rules, log: seq<Event>) {
    forall i {:trigger log[..i]} :: 0 <= i < |log| ==> Justified(rules, log[..i], log[i])
  }

  /** SealEpoch, called in this state, succeeds and issues the completion. */
  ghost predicate IssuedIn(cfg: P.Config, s: P.State, c: P.Completion) {
    T.Reachable(cfg, s) && s.inlet.pc.Idle? && P.SealEpoch(s).log.seals == s.log.seals + [c]
  }

  ghost predicate Issued(cfg: P.Config, c: P.Completion) { exists s :: IssuedIn(cfg, s, c) }

  /** What an event claims is so: what was certified is in the store, under the runner's own key; a certificate recorded
      as validated passed ValidateCompletion; and a seal is one the pipeline issued. */
  ghost predicate Backs(rules: Rules, certs: map<EpochKey, Certificate>, e: Event) {
    && (e.Certified? ==> Key(e.own.ref) in certs && certs[Key(e.own.ref)] == e.stored)
    && (e.Validated? ==> CompletionOk(rules.resolver, e.commit))
    && (e.Sealed? ==> Issued(rules.pipeline, e.completion))
  }

  ghost predicate Backed(rules: Rules, certs: map<EpochKey, Certificate>, log: seq<Event>) {
    forall i {:trigger Backs(rules, certs, log[i])} :: 0 <= i < |log| ==> Backs(rules, certs, log[i])
  }

  lemma OrderlyAppend(rules: Rules, log: seq<Event>, e: Event)
    requires Orderly(rules, log) && Justified(rules, log, e)
    ensures Orderly(rules, log + [e])
  {
    var more := log + [e];
    assert more[..|log|] == log;
    forall i | 0 <= i < |more| ensures Justified(rules, more[..i], more[i]) {
      if i < |log| { assert more[..i] == log[..i]; }
    }
  }

  lemma OpenAppend(first: int, log: seq<Event>, e: Event)
    ensures OpenEpoch(log + [e]) == match e
                                    case EpochBegun(ref) => Some(ref)
                                    case EpochCommitted(_) => None
                                    case EpochAborted(_) => None
                                    case _ => OpenEpoch(log)
    ensures NextEpoch(first, log + [e]) == if e.EpochBegun? then e.ref.epoch + 1 else NextEpoch(first, log)
    ensures LastSealed(log + [e]) == if e.Sealed? then Some(e.completion) else LastSealed(log)
    ensures !e.EpochBegun? ==> EpochWrite(log + [e]) == Later(EpochWrite(log), e)
    ensures e.EpochBegun? && JustBegan(log) ==> EpochWrite(log + [e]) == Underway(e.ref, log[|log| - 1].instance, None)
  {
    assert (log + [e])[..|log|] == log;
  }

  /** An event the log may record next, with what it says of the store and of the evidence being so. */
  ghost predicate Fit(rules: Rules, certs: map<EpochKey, Certificate>, log: seq<Event>, e: Event) {
    !IsSinkEvent(e) && Justified(rules, log, e) && Backs(rules, certs, e)
  }

  /** The log so far is in order and backed. */
  ghost predicate Upheld(rules: Rules, certs: map<EpochKey, Certificate>, log: seq<Event>) {
    Orderly(rules, log) && Backed(rules, certs, log)
  }

  function Rechecked(w: Write, c: Commit): Write { if w.Underway? then Underway(w.ref, w.instance, Some(c)) else w }

  lemma BackedAppend(rules: Rules, certs: map<EpochKey, Certificate>, log: seq<Event>, e: Event)
    requires Backed(rules, certs, log) && Backs(rules, certs, e)
    ensures Backed(rules, certs, log + [e])
  {
    var more := log + [e];
    forall i | 0 <= i < |more| ensures Backs(rules, certs, more[i]) {
      if i < |log| { assert Backs(rules, certs, log[i]); }
    }
  }

  /** What the log says after one more event of the runner's own. */
  lemma UpheldAppend(rules: Rules, certs: map<EpochKey, Certificate>, log: seq<Event>, e: Event)
    requires Upheld(rules, certs, log) && Fit(rules, certs, log, e)
    ensures Upheld(rules, certs, log + [e])
  {
    OrderlyAppend(rules, log, e);
    BackedAppend(rules, certs, log, e);
  }

  lemma FitValidated(rules: Rules, certs: map<EpochKey, Certificate>, log: seq<Event>, commit: Commit)
    requires OpenEpoch(log) == Some(commit.certificate.ref) && LastSealed(log) == Some(commit.completion)
    requires CompletionOk(rules.resolver, commit)
    ensures Fit(rules, certs, log, Validated(commit))
  {}

  lemma FitCertified(rules: Rules, certs: map<EpochKey, Certificate>, log: seq<Event>, cert: Certificate)
    requires EpochWrite(log).Confirmed? && Checks(EpochWrite(log), cert)
    requires Key(cert.ref) in certs && SameCertificate(rules, cert, certs[Key(cert.ref)])
    ensures Fit(rules, certs, log, Certified(cert, certs[Key(cert.ref)]))
  {}

  lemma WriteAppend(log: seq<Event>, e: Event)
    requires !IsSinkEvent(e) && !e.EpochBegun? && !e.EpochCommitted?
    ensures EpochWrite(log + [e]) == if e.Validated? then Rechecked(EpochWrite(log), e.commit) else EpochWrite(log)
  {
    OpenAppend(0, log, e);
  }

  lemma WriteConfirmed(log: seq<Event>, cert: Certificate)
    requires EpochWrite(log).Saved? && Checks(EpochWrite(log), cert)
    ensures EpochWrite(log + [EpochCommitted(cert.ref)]).Confirmed?
    ensures Checks(EpochWrite(log + [EpochCommitted(cert.ref)]), cert)
  {
    OpenAppend(0, log, EpochCommitted(cert.ref));
  }

  lemma WriteBegins(log: seq<Event>, ref: EpochRef, x: nat)
    requires EndsWith(log, BeginCall(x, true))
    ensures EpochWrite(log + [EpochBegun(ref)]) == Underway(ref, x, None) && JustBegan(log)
  {
    OpenAppend(0, log, EpochBegun(ref));
  }

  lemma HasMore(log: seq<Event>, more: seq<Event>, ref: EpochRef, coverage: Coverage)
    requires log <= more
    ensures HasCertificate(log, ref, coverage) ==> HasCertificate(more, ref, coverage)
    ensures CertifiedRef(log, ref) ==> CertifiedRef(more, ref)
    ensures HasRenewal(log, ref, coverage) ==> HasRenewal(more, ref, coverage)
  {
    assert forall k :: 0 <= k < |log| ==> more[k] == log[k] && more[..k] == log[..k];
    if HasRenewal(log, ref, coverage) {
      var k :| 0 <= k < |log| && log[k] == Renewed(true) && HasCertificate(log[..k], ref, coverage);
      assert more[k] == Renewed(true) && HasCertificate(more[..k], ref, coverage);
    }
  }

  lemma RenewalAdded(log: seq<Event>, ref: EpochRef, coverage: Coverage)
    requires HasCertificate(log, ref, coverage)
    ensures HasRenewal(log + [Renewed(true)], ref, coverage)
  {
    var more := log + [Renewed(true)];
    assert more[|log|] == Renewed(true) && more[..|log|] == log;
  }

  lemma {:induction false} SealedAt(log: seq<Event>) returns (k: nat)
    requires LastSealed(log).Some?
    ensures k < |log| && log[k] == Sealed(LastSealed(log).value)
  {
    if log[|log| - 1].Sealed? {
      k := |log| - 1;
    } else {
      k := SealedAt(log[..|log| - 1]);
    }
  }

  lemma CertificateAdded(log: seq<Event>, own: Certificate, stored: Certificate)
    ensures HasCertificate(log + [Certified(own, stored)], own.ref, own.coverage)
  {
    assert (log + [Certified(own, stored)])[|log|] == Certified(own, stored);
  }

  lemma SinkEventOrderly(rules: Rules, log: seq<Event>, e: Event, certs: map<EpochKey, Certificate>)
    requires Orderly(rules, log) && Backed(rules, certs, log) && IsSinkEvent(e)
    ensures Orderly(rules, log + [e]) && Backed(rules, certs, log + [e])
    ensures OpenEpoch(log + [e]) == OpenEpoch(log) && NextEpoch(rules.first, log + [e]) == NextEpoch(rules.first, log)
    ensures LastSealed(log + [e]) == LastSealed(log)
  {
    OrderlyAppend(rules, log, e);
    BackedAppend(rules, certs, log, e);
    OpenAppend(rules.first, log, e);
  }

  lemma LastContinues(log: seq<Event>, more: seq<Event>)
    requires Continues(log, more) && |more| > |log|
    ensures Continues(log, more[..|more| - 1]) && IsSinkEvent(more[|more| - 1])
    ensures more == more[..|more| - 1] + [more[|more| - 1]]
  {
    var front := more[..|more| - 1];
    assert more[|more| - 1] == more[|log|..][|more| - 1 - |log|];
    assert front[|log|..] == more[|log|..][..|front| - |log|];
  }

  /** Calls on sinks change nothing the rules speak of. */
  lemma {:induction false} OrderlyContinues(rules: Rules, log: seq<Event>, more: seq<Event>,
      certs: map<EpochKey, Certificate>)
    requires Orderly(rules, log) && Continues(log, more) && Backed(rules, certs, log)
    ensures Orderly(rules, more) && Backed(rules, certs, more)
    ensures OpenEpoch(more) == OpenEpoch(log) && NextEpoch(rules.first, more) == NextEpoch(rules.first, log)
    ensures LastSealed(more) == LastSealed(log)
    decreases |more|
  {
    if |more| == |log| {
      assert more == log;
    } else {
      LastContinues(log, more);
      OrderlyContinues(rules, log, more[..|more| - 1], certs);
      SinkEventOrderly(rules, more[..|more| - 1], more[|more| - 1], certs);
    }
  }

  lemma {:induction false} WriteAside(log: seq<Event>, more: seq<Event>)
    requires Aside(log, more)
    ensures EpochWrite(more) == EpochWrite(log)
    decreases |more|
  {
    if |more| == |log| {
      assert more == log;
    } else {
      var front := more[..|more| - 1];
      assert IsSideCall(more[|more| - 1]);
      WriteAside(log, front);
    }
  }

  ghost predicate Grows(certs: map<EpochKey, Certificate>, more: map<EpochKey, Certificate>) {
    forall k :: k in certs ==> k in more && more[k] == certs[k]
  }

  lemma StoreGrows(rules: Rules, certs: map<EpochKey, Certificate>, more: map<EpochKey, Certificate>, log: seq<Event>)
    requires Backed(rules, certs, log) && Grows(certs, more)
    ensures Backed(rules, more, log)
  {
    forall i | 0 <= i < |log| ensures Backs(rules, more, log[i]) {
      assert Backs(rules, certs, log[i]);
    }
  }

  // ---- what an orderly log means ----

  /** The epoch's Begin call, on the instance its write uses, is at b and nothing began an epoch since. */
  ghost predicate BeganAt(log: seq<Event>, b: nat, ref: EpochRef, x: nat) {
    && b + 1 < |log| && log[b] == BeginCall(x, true) && log[b + 1] == EpochBegun(ref)
    && forall k :: b + 1 < k < |log| ==> !log[k].EpochBegun?
  }

  lemma {:induction false} WriteBegan(log: seq<Event>) returns (b: nat)
    requires !EpochWrite(log).Unwritten?
    ensures BeganAt(log, b, EpochWrite(log).ref, EpochWrite(log).instance)
  {
    var front, e := log[..|log| - 1], log[|log| - 1];
    if e.EpochBegun? {
      b := |log| - 2;
    } else {
      b := WriteBegan(front);
    }
  }

  /** The call that ended the write: the successful Commit of a saved one, the Abort of a discarded one. */
  ghost predicate EndedBy(w: Write, e: Event) {
    (WasSaved(w) ==> e == CommitCall(w.instance, true)) && (w.Discarded? ==> e.AbortCall? && e.instance == w.instance)
  }

  /** The end of a write, which was underway with the same checks until then. */
  ghost predicate EndedAt(log: seq<Event>, b: nat, c: nat) {
    && b + 1 < c < |log| && EpochWrite(log[..c]).Underway? && !EpochWrite(log).Unwritten?
    && EndedBy(EpochWrite(log), log[c])
    && NoCommit(log, EpochWrite(log).instance, b, c)
    && (WasSaved(EpochWrite(log)) ==> EpochWrite(log).checked == EpochWrite(log[..c]).checked)
  }

  lemma {:induction false} WriteEnded(log: seq<Event>) returns (b: nat, c: nat)
    requires WasSaved(EpochWrite(log)) || EpochWrite(log).Discarded?
    ensures BeganAt(log, b, EpochWrite(log).ref, EpochWrite(log).instance) && EndedAt(log, b, c)
  {
    var front, e := log[..|log| - 1], log[|log| - 1];
    if EpochWrite(front).Underway? {
      b := WriteBegan(front);
      c := |log| - 1;
      WriteUnended(front, b);
    } else {
      b, c := WriteEnded(front);
      assert log[..c] == front[..c];
    }
  }

  lemma {:induction false} WriteUnended(log: seq<Event>, b: nat)
    requires EpochWrite(log).Underway? && BeganAt(log, b, EpochWrite(log).ref, EpochWrite(log).instance)
    ensures NoCommit(log, EpochWrite(log).instance, b, |log|)
  {
    var front, e := log[..|log| - 1], log[|log| - 1];
    if !e.EpochBegun? {
      assert EpochWrite(front).Underway?;
      WriteUnended(front, b);
    }
  }

  lemma {:induction false} WriteChecked(log: seq<Event>, b: nat) returns (v: nat)
    requires EpochWrite(log).Underway? && EpochWrite(log).checked.Some?
    requires BeganAt(log, b, EpochWrite(log).ref, EpochWrite(log).instance)
    ensures b + 1 < v < |log| && log[v] == Validated(EpochWrite(log).checked.value)
  {
    var front, e := log[..|log| - 1], log[|log| - 1];
    if e.Validated? {
      v := |log| - 1;
    } else {
      assert EpochWrite(front) == EpochWrite(log) && !e.EpochBegun?;
      v := WriteChecked(front, b);
    }
  }

  /** The instance whose Begin at b succeeded, right before the epoch, answered its Commit with success at c. At v,
      between the two, the certificate passed its check against evidence the pipeline issued. No other call until c
      ended the write. */
  ghost predicate CommittedAt(rules: Rules, log: seq<Event>, b: nat, v: nat, c: nat, cert: Certificate) {
    && b + 1 < v < c < |log| && log[b].BeginCall? && log[b].ok && log[b + 1] == EpochBegun(cert.ref)
    && log[v].Validated? && log[v].commit.certificate == cert && CompletionOk(rules.resolver, log[v].commit)
    && Issued(rules.pipeline, log[v].commit.completion)
    && log[c] == CommitCall(log[b].instance, true) && NoCommit(log, log[b].instance, b, c)
    && forall k :: b + 1 < k < c ==> !log[k].EpochBegun?
  }

  lemma UnderwaySince(log: seq<Event>, b: nat, c: nat)
    requires WasSaved(EpochWrite(log)) && BeganAt(log, b, EpochWrite(log).ref, EpochWrite(log).instance)
    requires EndedAt(log, b, c)
    ensures BeganAt(log[..c], b, EpochWrite(log[..c]).ref, EpochWrite(log[..c]).instance)
  {
    var d := WriteBegan(log[..c]);
    assert log[..c][d + 1] == log[d + 1] && log[..c][d] == log[d] && log[..c][b + 1] == log[b + 1];
  }

  lemma SavedCall(log: seq<Event>) returns (b: nat, v: nat, c: nat)
    requires WasSaved(EpochWrite(log)) && EpochWrite(log).checked.Some?
    ensures BeganAt(log, b, EpochWrite(log).ref, EpochWrite(log).instance) && EndedAt(log, b, c)
    ensures b + 1 < v < c && log[v] == Validated(EpochWrite(log).checked.value)
  {
    b, c := WriteEnded(log);
    UnderwaySince(log, b, c);
    v := WriteChecked(log[..c], b);
    assert log[..c][v] == log[v];
  }

  lemma SealedBefore(rules: Rules, certs: map<EpochKey, Certificate>, log: seq<Event>, v: nat)
    requires Upheld(rules, certs, log) && v < |log| && log[v].Validated?
    ensures CompletionOk(rules.resolver, log[v].commit) && Issued(rules.pipeline, log[v].commit.completion)
  {
    assert Justified(rules, log[..v], log[v]);
    var k := SealedAt(log[..v]);
    assert log[k] == log[..v][k];
    assert Backs(rules, certs, log[k]) && Backs(rules, certs, log[v]);
  }

  lemma CertifiedWrite(rules: Rules, log: seq<Event>, p: nat)
    requires Orderly(rules, log) && p < |log| && log[p].Certified?
    ensures EpochWrite(log[..p]).Confirmed? && Checks(EpochWrite(log[..p]), log[p].own)
    ensures SameCertificate(rules, log[p].own, log[p].stored)
  {
    assert Justified(rules, log[..p], log[p]);
  }

  lemma CallsWithin(log: seq<Event>, p: nat) returns (b: nat, v: nat, c: nat)
    requires p <= |log| && WasSaved(EpochWrite(log[..p])) && EpochWrite(log[..p]).checked.Some?
    ensures b + 1 < v < c < p && log[b] == BeginCall(EpochWrite(log[..p]).instance, true)
    ensures log[b + 1] == EpochBegun(EpochWrite(log[..p]).ref)
    ensures log[v] == Validated(EpochWrite(log[..p]).checked.value) && log[c] == CommitCall(log[b].instance, true)
    ensures NoCommit(log, log[b].instance, b, c) && forall k :: b + 1 < k < c ==> !log[k].EpochBegun?
  {
    var front := log[..p];
    b, v, c := SavedCall(front);
    assert forall k :: 0 <= k < p ==> front[k] == log[k];
  }

  /** A certificate is stored only for a write its sink committed, after the check. */
  lemma CertifiedCall(rules: Rules, certs: map<EpochKey, Certificate>, log: seq<Event>, p: nat)
    returns (b: nat, v: nat, c: nat)
    requires Upheld(rules, certs, log) && p < |log| && log[p].Certified?
    ensures c < p && CommittedAt(rules, log, b, v, c, log[p].own)
  {
    CertifiedWrite(rules, log, p);
    b, v, c := CallsWithin(log, p);
    SealedBefore(rules, certs, log, v);
  }

  /**
    A coverage is acknowledged only when, earlier and in this order: a sink's Begin succeeded, and with it that very
    epoch began; a certificate with that coverage passed the check against evidence the pipeline issued when it sealed;
    the same sink instance answered its Commit with success; that certificate was found stored with the same canonical
    bytes; and the lease was renewed.
   */
  lemma AcknowledgedChain(rules: Rules, certs: map<EpochKey, Certificate>, log: seq<Event>, i: nat)
    returns (b: nat, v: nat, c: nat, p: nat, q: nat)
    requires Upheld(rules, certs, log) && i < |log| && log[i].Acknowledged?
    ensures c < p < q < i && log[p].Certified? && log[p].own.ref == log[i].ref && log[p].own.coverage == log[i].coverage
    ensures CommittedAt(rules, log, b, v, c, log[p].own) && SameCertificate(rules, log[p].own, log[p].stored)
    ensures log[q] == Renewed(true)
  {
    var ref, coverage := log[i].ref, log[i].coverage;
    assert HasRenewal(log[..i], ref, coverage);
    q :| 0 <= q < i && log[..i][q] == Renewed(true) && HasCertificate(log[..i][..q], ref, coverage);
    assert log[..i][..q] == log[..q] && log[q] == Renewed(true);
    p :| 0 <= p < q && log[..q][p].Certified? && log[..q][p].own.ref == ref && log[..q][p].own.coverage == coverage;
    assert log[p] == log[..q][p];
    b, v, c := CertifiedCall(rules, certs, log, p);
    CertifiedWrite(rules, log, p);
  }

  /**
    End to end: an acknowledged coverage names exactly the positions, up to their codecs, of a completion the pipeline
    issued in a state it reached; in that state nothing of the epoch was buffered or in flight, and resource by resource
    the rows ended since the epoch was bound are the rows of batches whose receipts matched.
   */
  lemma AcknowledgedApplied(rules: Rules, certs: map<EpochKey, Certificate>, log: seq<Event>, i: nat)
    returns (s: P.State, c: P.Completion)
    requires Upheld(rules, certs, log) && i < |log| && log[i].Acknowledged?
    ensures IssuedIn(rules.pipeline, s, c) && c.ref == log[i].ref
    ensures SamePositions(rules.resolver, log[i].coverage.positions, c.positions)
    ensures I.Flight(s.lanes) == [] && I.Empty(s.inlet.writers) && s.epoch.ref == Some(log[i].ref) && I.AppliedPure(s)
    ensures forall r :: I.For(s.log.sinceBind, r) == I.For(I.AppliedRows(s.log.applied), r)
  {
    var _, v, _, p, _ := AcknowledgedChain(rules, certs, log, i);
    c := log[v].commit.completion;
    s :| IssuedIn(rules.pipeline, s, c);
    CoversSealed(rules.resolver, log[v].commit);
    IssuedSealed(rules.pipeline, s, c);
  }

  lemma IssuedSealed(cfg: P.Config, s: P.State, c: P.Completion)
    requires IssuedIn(cfg, s, c)
    ensures I.Flight(s.lanes) == [] && I.Empty(s.inlet.writers) && s.epoch.ref == Some(c.ref) && I.AppliedPure(s)
    ensures forall r :: I.For(s.log.sinceBind, r) == I.For(I.AppliedRows(s.log.applied), r)
  {
    assert P.Step(cfg, s, P.SealAction).log.seals != s.log.seals by {
      assert |s.log.seals + [c]| != |s.log.seals|;
    }
    T.SealedEpoch(cfg, s);
  }

  /** A certificate with the runner's canonical bytes names the same epoch and attempt, and equivalent content. */
  lemma CertifiedEquivalent(rules: Rules, log: seq<Event>, i: nat)
    requires Injective(rules.encoding) && Orderly(rules, log) && i < |log| && log[i].Certified?
    ensures Equivalent(rules.resolver, log[i].own, log[i].stored) && log[i].stored.ref == log[i].own.ref
  {
    assert Justified(rules, log[..i], log[i]);
    CanonicalExactly(rules.resolver, rules.encoding, log[i].own, log[i].stored);
  }

  /** Facts about an epoch's writes are published only after its certification. */
  lemma PublishedAfter(rules: Rules, log: seq<Event>, i: nat)
    requires Orderly(rules, log) && i < |log| && log[i].Published?
    ensures exists k :: 0 <= k < i && log[k].Certified? && log[k].own.ref == log[i].fact.ref
  {
    assert CertifiedRef(log[..i], log[i].fact.ref);
    var k :| 0 <= k < i && log[..i][k].Certified? && log[..i][k].own.ref == log[i].fact.ref;
    assert log[k] == log[..i][k];
  }

  function Begun(log: seq<Event>): seq<int> {
    if log == [] then [] else
      Begun(log[..|log| - 1]) + if log[|log| - 1].EpochBegun? then [log[|log| - 1].ref.epoch] else []
  }

  /** The epochs begun are consecutive from the first. */
  lemma {:induction false} Consecutive(rules: Rules, log: seq<Event>)
    requires Orderly(rules, log)
    ensures forall i :: 0 <= i < |Begun(log)| ==> Begun(log)[i] == rules.first + i
    ensures NextEpoch(rules.first, log) == rules.first + |Begun(log)|
  {
    if log != [] {
      var front := log[..|log| - 1];
      forall i | 0 <= i < |front| ensures Justified(rules, front[..i], front[i]) {
        assert front[..i] == log[..i] && Justified(rules, log[..i], log[i]);
      }
      Consecutive(rules, front);
      assert Justified(rules, front, log[|log| - 1]);
    }
  }

  predicate IsEnd(e: Event) { e.EpochCommitted? || e.EpochAborted? }

  ghost predicate NoEnd(log: seq<Event>, i: nat, n: nat) { forall k :: i < k < n <= |log| ==> !IsEnd(log[k]) }

  /** Position j holds the Commit or the Abort of the epoch begun at i, and nothing else up to n ends an epoch. */
  ghost predicate OnlyEnd(log: seq<Event>, i: nat, j: nat, n: nat)
    requires i < n <= |log| && log[i].EpochBegun?
  {
    && i < j < n && (log[j] == EpochCommitted(log[i].ref) || log[j] == EpochAborted(log[i].ref))
    && NoEnd(log, i, j) && NoEnd(log, j, n)
  }

  lemma OpenStep(log: seq<Event>, n: nat)
    requires n < |log|
    ensures OpenEpoch(log[..n + 1]) == match log[n]
                                       case EpochBegun(ref) => Some(ref)
                                       case EpochCommitted(_) => None
                                       case EpochAborted(_) => None
                                       case _ => OpenEpoch(log[..n])
  {
    OpenAppend(0, log[..n], log[n]);
    assert log[..n + 1] == log[..n] + [log[n]];
  }

  lemma EndsOpen(rules: Rules, log: seq<Event>, n: nat)
    requires Orderly(rules, log) && n < |log| && IsEnd(log[n])
    ensures OpenEpoch(log[..n]) == Some(log[n].ref)
  {
    assert Justified(rules, log[..n], log[n]);
  }

  ghost predicate OpenSince(log: seq<Event>, i: nat, n: nat)
    requires i < n <= |log| && log[i].EpochBegun?
  {
    OpenEpoch(log[..n]) == Some(log[i].ref) && NoEnd(log, i, n)
  }

  ghost predicate ClosedSince(log: seq<Event>, i: nat, n: nat)
    requires i < n <= |log| && log[i].EpochBegun?
  {
    OpenEpoch(log[..n]).None? && exists j :: OnlyEnd(log, i, j, n)
  }

  lemma StillOpen(rules: Rules, log: seq<Event>, i: nat, n: nat)
    requires Orderly(rules, log) && i < n < |log| && log[i].EpochBegun? && OpenSince(log, i, n) && !log[n].EpochBegun?
    ensures OpenSince(log, i, n + 1) || ClosedSince(log, i, n + 1)
  {
    OpenStep(log, n);
    if IsEnd(log[n]) {
      EndsOpen(rules, log, n);
      assert OnlyEnd(log, i, n, n + 1);
    }
  }

  lemma OnlyEndMore(log: seq<Event>, i: nat, j: nat, n: nat)
    requires i < n < |log| && log[i].EpochBegun? && OnlyEnd(log, i, j, n) && !IsEnd(log[n])
    ensures OnlyEnd(log, i, j, n + 1)
  {}

  lemma NoSecondEnd(rules: Rules, log: seq<Event>, n: nat)
    requires Orderly(rules, log) && n < |log| && OpenEpoch(log[..n]).None? && !log[n].EpochBegun?
    ensures !IsEnd(log[n]) && OpenEpoch(log[..n + 1]).None?
  {
    OpenStep(log, n);
    if IsEnd(log[n]) { EndsOpen(rules, log, n); }
  }

  lemma StillClosed(rules: Rules, log: seq<Event>, i: nat, n: nat)
    requires Orderly(rules, log) && i < n < |log| && log[i].EpochBegun? && ClosedSince(log, i, n) && !log[n].EpochBegun?
    ensures ClosedSince(log, i, n + 1)
  {
    NoSecondEnd(rules, log, n);
    var j :| OnlyEnd(log, i, j, n);
    OnlyEndMore(log, i, j, n);
  }

  lemma StepOn(rules: Rules, log: seq<Event>, i: nat, n: nat)
    requires Orderly(rules, log) && i < n < |log| && log[i].EpochBegun? && !log[n].EpochBegun?
    requires OpenSince(log, i, n) || ClosedSince(log, i, n)
    ensures OpenSince(log, i, n + 1) || ClosedSince(log, i, n + 1)
  {
    if OpenSince(log, i, n) { StillOpen(rules, log, i, n); } else { StillClosed(rules, log, i, n); }
  }

  /** Up to the next Begin a begun epoch is either still open with nothing ending an epoch since, or it was ended
      exactly once, by its own Commit or Abort. */
  lemma {:induction false} EndedOnce(rules: Rules, log: seq<Event>, i: nat, n: nat)
    requires Orderly(rules, log) && i < n <= |log| && log[i].EpochBegun?
    requires forall k :: i < k < n ==> !log[k].EpochBegun?
    ensures OpenSince(log, i, n) || ClosedSince(log, i, n)
  {
    if n == i + 1 {
      OpenStep(log, i);
    } else {
      EndedOnce(rules, log, i, n - 1);
      StepOn(rules, log, i, n - 1);
    }
  }

  lemma MarkedOnce(rules: Rules, log: seq<Event>, i: nat, n: nat) returns (j: nat)
    requires Orderly(rules, log) && i < n <= |log| && log[i].EpochBegun?
    requires forall k :: i < k < n ==> !log[k].EpochBegun?
    requires if n < |log| then log[n].EpochBegun? else OpenEpoch(log).None?
    ensures OnlyEnd(log, i, j, n)
  {
    EndedOnce(rules, log, i, n);
    if n < |log| {
      assert Justified(rules, log[..n], log[n]);
    } else {
      assert log[..n] == log;
    }
    j :| OnlyEnd(log, i, j, n);
  }

  /** What the end of an epoch rests on: at c the instance that began its write committed or aborted it, before the
      marker at j, which says committed only after a successful Commit, and aborted after one only when the instance was
      closed. */
  ghost predicate EndRests(log: seq<Event>, i: nat, c: nat, j: nat)
    requires 0 < i < j < |log| && log[i - 1].BeginCall?
  {
    var x := log[i - 1].instance;
    && i < c < j && !Leaves(log[c], x) && NoCommit(log, x, i - 1, c)
    && (log[j].EpochCommitted? ==> log[c] == CommitCall(x, true))
    && (log[j].EpochAborted? && log[c] == CommitCall(x, true) ==>
        exists k :: c < k < j && log[k].CloseCall? && log[k].instance == x)
  }

  lemma {:induction false} SavedClosed(log: seq<Event>, c: nat)
    requires EpochWrite(log).Saved? && EpochWrite(log).closed
    requires c < |log| && log[c] == CommitCall(EpochWrite(log).instance, true) && !EpochWrite(log[..c]).Saved?
    ensures exists k :: c < k < |log| && log[k].CloseCall? && log[k].instance == EpochWrite(log).instance
  {
    var front, e := log[..|log| - 1], log[|log| - 1];
    if EpochWrite(front).Saved? && EpochWrite(front).closed {
      assert c < |front|;
      assert front[..c] == log[..c];
      SavedClosed(front, c);
      var k :| c < k < |front| && front[k].CloseCall? && front[k].instance == EpochWrite(front).instance;
      assert log[k] == front[k];
    }
  }

  lemma BeganHere(log: seq<Event>, b: nat, i: nat, j: nat, ref: EpochRef, x: nat)
    requires i < j <= |log| && log[i].EpochBegun? && BeganAt(log[..j], b, ref, x)
    requires forall k :: i < k < j ==> !log[k].EpochBegun?
    ensures b + 1 == i && log[b] == BeginCall(x, true)
  {
    assert log[..j][b + 1] == log[b + 1] && log[..j][b] == log[b] && log[..j][i] == log[i];
  }

  lemma EndRested(rules: Rules, log: seq<Event>, i: nat, j: nat) returns (c: nat)
    requires Orderly(rules, log) && i < j < |log| && log[i].EpochBegun? && IsEnd(log[j])
    requires forall k :: i < k < j ==> !log[k].EpochBegun?
    ensures i > 0 && log[i - 1].BeginCall? && log[i - 1].ok && EndRests(log, i, c, j)
  {
    var b;
    var front := log[..j];
    assert Justified(rules, front, log[j]);
    b, c := WriteEnded(front);
    BeganHere(log, b, i, j, EpochWrite(front).ref, EpochWrite(front).instance);
    assert forall k :: 0 <= k < j ==> front[k] == log[k];
    if EpochWrite(front).Saved? && EpochWrite(front).closed {
      SavedClosed(front, c);
    }
  }

  /**
    Every epoch begun before another, or in a finished run, is ended exactly once; and the end is what its sink did:
    right before the epoch a Begin on some instance succeeded, later a call of that instance ended the write, and the
    epoch is marked committed only after a successful Commit, aborted only after an Abort or once the committed instance
    was closed.
   */
  lemma BegunEndsOnce(rules: Rules, log: seq<Event>, i: nat, n: nat) returns (c: nat, j: nat)
    requires Orderly(rules, log) && i < n <= |log| && log[i].EpochBegun?
    requires forall k :: i < k < n ==> !log[k].EpochBegun?
    requires if n < |log| then log[n].EpochBegun? else OpenEpoch(log).None?
    ensures OnlyEnd(log, i, j, n)
    ensures i > 0 && log[i - 1].BeginCall? && log[i - 1].ok && EndRests(log, i, c, j)
  {
    j := MarkedOnce(rules, log, i, n);
    c := EndRested(rules, log, i, j);
  }

  // ---- what a session's calls make of the write ----

  lemma WriteCommitted(before: seq<Event>, x: nat, log: seq<Event>)
    requires EpochWrite(before).Underway? && EpochWrite(before).instance == x && Committed(before, x, log)
    ensures EpochWrite(log).Saved? && EpochWrite(log).ref == EpochWrite(before).ref
    ensures EpochWrite(log).checked == EpochWrite(before).checked
    ensures CommittedAndClosed(before, x, log) ==> EpochWrite(log).closed
  {
    var done := before + [CommitCall(x, true)];
    OpenAppend(0, before, CommitCall(x, true));
    if CommittedAndClosed(before, x, log) {
      var answer :| log == done + [CloseCall(x, answer)];
      OpenAppend(0, done, CloseCall(x, answer));
    }
  }

  lemma WriteRefused(before: seq<Event>, x: nat, log: seq<Event>)
    requires log == before + [CommitCall(x, false)]
    ensures EpochWrite(log) == EpochWrite(before)
  {
    OpenAppend(0, before, CommitCall(x, false));
  }

  lemma WriteAborted(before: seq<Event>, x: nat, ok: bool, log: seq<Event>)
    requires EpochWrite(before).Underway? && EpochWrite(before).instance == x && log == before + [AbortCall(x, ok)]
    ensures EpochWrite(log) == Discarded(EpochWrite(before).ref, x)
  {
    OpenAppend(0, before, AbortCall(x, ok));
  }
}
