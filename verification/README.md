# Filament, verified

A Dafny model of the parts of Filament (a replication engine) whose correctness is hard to see from the code, with proofs of what they keep.

* **The continuous pipeline** (`EpochPipeline`, `EpochFrame`, `EpochInvariant`, `EpochTheorem`). One producer, a transformer, a writer and failures take steps over two bounded queues. A run is any list of actions, so a lemma about reachable states is a lemma about every interleaving. Work between two channel operations is one step.
* **The boundary tracker** (`Boundary`) driving that pipeline: a `Control` call is a barrier whose flush, queueing and wait interleave with every other goroutine.
* **The epoch runner and its sink sessions** (`EpochRunner`, `EpochLog`, `SinkSession`). The runner holds a pipeline in a state it reached, binds and seals it, and lets its goroutines take any steps in between. Every answer of the source, sink and store is arbitrary (`*`), the store may save a certificate and report a failure, and the process may stop anywhere. Every call and every decision is an event in a log. Two judges that do not know the runner's fields read the log: `Orderly` for the epoch protocol, `Proper` for the calls each sink instance sees. Both speak of every prefix, and the runner's markers count only beside the sink's own answers.
* **Certificates** (`Progress`, `Certificates`, `EpochCommit`): codecs, canonical forms, and the int64 receipt sums that bind a certificate to sealed evidence.
* **Transforms** (`TransformCatalog`, `TransformLiterals`, `TransformCompile`, `TransformExec`, `TransformMeaning`, `TransformCorrect`, `TransformCompute`, `TransformTheorem`, `LayoutAgreement`). A definition by column name is compiled to operations by column position. The reference is an evaluator by name that knows no positions. Kernels are parameters with a type and length contract.
* **The row builder** (`RowBuilder`), **schema evolution** (`SchemaEvolution`), **message probing** (`MessageProbe`), **the header codec** (`Headers`), **OAuth refresh** (`OAuthSource`) and **the bounded run lifecycle** (`BoundedRun`).

`RowModel`, `Epochs`, `Order` and `Digits` hold the shared value types, string order and sorting, and decimal spellings. `dafny verify dfyconfig.toml` checks everything.

Code that runs in one goroutine and updates fields is a class with loops, proved against specification functions or invariants. The pipeline's goroutines share state through channels, so they are a step function over one state value.

Findings, each with its lemma:

* Global strict ordering is kept in every run exactly when no resource is transformed (`StrictOrderExactly`). With a plan for any resource, a planned row can wait for the transformer while a later row of another resource is applied (`TransformReorders`). This needs a stream pipeline built with a transform; the continuous runner builds its own without one (runner/continuous.go:395-421).
* A decimal column with a negative scale admits no literal, not even one it can hold: 100 at Decimal(5, -2) (`NegativeScaleRefused`). Acceptance is exact for exactly the decimal types whose scale is not negative (`AcceptanceExact`).
* For CDC append history the table layout makes every source column nullable, while the plan's output schema keeps the source's nullability; one required column and no steps already show it (`HistoryDiffers`). Names, types and order agree always; nullability agrees exactly when every required source column is dropped or computed over (`LayoutsAgree`).
* The comment on `RunOne` (runner/runner.go:63-66) says `run.started` is published first. The code publishes `run.failed` without it when preparing the execution fails (runner/runner.go:91-95), as `UnpreparedNeverStarted` shows; of every run that ends, `run.started` came first exactly when it was prepared (`StartedExactly`).
* A plain read, neither keyed nor coarse, acknowledges nothing while its completion marker asks for every row (`PlainReadUnmatched`).

## Model

| member | source | states |
|---|---|---|
| EpochInvariant.StartInv | pipeline/control.go:20-48 | a new stream pipeline satisfies the invariant: resource by resource, rows ended are rows delivered, then in flight, then buffered; no batch mixes resources or epochs; safe positions mean nothing is outstanding; running totals are sums over applied batches |
| EpochInvariant.BeforeWriteInv | pipeline/stream_writer.go:23-46 | a write keeps the invariant: it withdraws the accepted safe positions and, when strict, flushes the writer that was active |
| EpochInvariant.EndRowInv | pipeline/stream_writer.go:132-141 | ending a row keeps the invariant, whether the builder flushes or not and whether the queue blocks, gives up or takes the batch |
| EpochInvariant.FlushWriterInv | pipeline/stream_writer.go:143-157 | flushing moves buffered rows to the end of their lane and keeps the invariant |
| EpochInvariant.CloseWriterInv | pipeline/stream_writer.go:162-176 | closing a writer keeps the invariant; rows it drops are only dropped once the pipeline failed |
| EpochInvariant.MessageBuilderInv | pipeline/message_schema.go:18-90 | replacing a resource's builder between epochs keeps the invariant, so no batch mixes rows of two epochs |
| EpochInvariant.BindInv | pipeline/epoch.go:11-36 | binding the next epoch keeps the invariant; it happens only when nothing of the previous epoch is outstanding |
| EpochInvariant.SealInv | pipeline/epoch.go:43-56 | sealing keeps the invariant |
| EpochInvariant.BarrierStartInv | pipeline/barrier.go:30-52 | starting a barrier keeps the invariant; an inadmissible control fails the pipeline |
| EpochInvariant.ProducerAdvanceInv | pipeline/barrier.go:53-90 | every channel operation of a barrier or of the final drain keeps the invariant; a control is accepted only after everything queued before it was consumed |
| EpochInvariant.AcceptControlInv | pipeline/barrier.go:82-85 | recording a safe position keeps the invariant: nothing is outstanding when it is recorded |
| EpochInvariant.CloseIngestInv | pipeline/pipeline.go:246-288 | closing the inlet, cleanly or not, keeps the invariant |
| EpochInvariant.TransformerTakeInv | pipeline/transform.go:37-49 | the transformer taking an item keeps the invariant, also while draining after an error |
| EpochInvariant.TransformerForwardInv | pipeline/transform.go:51-84 | forwarding a transformed batch or a control keeps the invariant and the order within the lane |
| EpochInvariant.WriterTakeInv | pipeline/writer.go:17-39 | the writer taking a batch or completing a control keeps the invariant |
| EpochInvariant.WriterFinishInv | pipeline/writer.go:41-132 | a write that matched its receipt moves its rows to delivered and its counts to the epoch totals, with int64 wrap-around; any mismatch fails the pipeline |
| EpochInvariant.StepInv | pipeline/control.go:97-137 | every action of every goroutine keeps the invariant |
| EpochInvariant.RunInv | pipeline/pipeline.go:194-218 | so does every run |
| EpochTheorem.SealedEpoch | pipeline/epoch.go:38-56 | when SealEpoch succeeds in any interleaving: nothing is buffered, queued or held, no transaction is open, the rows ended since BindEpoch are exactly the rows of batches whose receipts matched, in order and of this epoch only, and the sealed totals and per-resource totals are the sums over those batches |
| EpochTheorem.SealedRow | pipeline/epoch.go:38-56 | every row ended since BindEpoch is in an applied batch of its own resource |
| EpochTheorem.StrictOrder | pipeline/control.go:20-30 | under global strict ordering, when no resource is transformed, in every run: at most one writer buffers rows, and what the sink received is a prefix of the rows in the order they were ended across all resources, all of them once quiet |
| EpochTheorem.StrictBeforeWrite | pipeline/stream_writer.go:23-46 | switching resources keeps the global order |
| EpochTheorem.TransformReorders | pipeline/inlet.go:94-99 | with a plan for some resource, a reachable state has delivered a later row before an earlier one |
| EpochTheorem.StrictOrderExactly | pipeline/inlet.go:94-99 | a strict pipeline delivers in ending order in every reachable state exactly when no resource has a plan |
| Boundary.BoundaryTracker.Create | streamkit/boundary.go:33-41 | a tracker exists exactly when no limit is negative, with no transaction open and nothing requested |
| Boundary.BoundaryTracker.Add | streamkit/boundary.go:56-73 | accepted exactly when open, non-negative and within 64 bits; counters never wrap; a limit reached before or after the addition is latched |
| Boundary.BoundaryTracker.Requested | streamkit/boundary.go:77-88 | true exactly when open and already requested or a limit is reached; requests are sticky |
| Boundary.BoundaryTracker.Request | streamkit/boundary.go:93-102 | latches a request unless closed |
| Boundary.BoundaryTracker.Control | streamkit/boundary.go:109-137 | tracker and pipeline hold the same open transactions after every accepted control, in any interleaving; a completed boundary was requested, leaves no transaction open, and a pipeline with a bound epoch can be sealed at once on a completion that names this control's position; any error fails the tracker for good |
| Boundary.BoundaryTracker.Read | streamkit/boundary.go:20-137 | over any sequence of rows, controls, counts and requests of one Read, a completed boundary leaves the pipeline of a bound epoch ready to be sealed |
| Boundary.ControlOutcome | pipeline/barrier.go:30-90 | a Control call, interleaved in any way with the transformer, the writer and failures, either enters the control, with the pipeline healthy and the epoch unsealed, or leaves transactions and safe positions alone, with the pipeline finished or the epoch sealed |
| Boundary.StreamSink.Control | pipeline/control.go:68-71 | the same for the call a connector makes, which may also not have returned yet |
| Boundary.OnlyControlsEnter | pipeline/barrier.go:30-90 | no other step of the pipeline opens or ends a transaction |
| Boundary.CompletedSeals | pipeline/epoch.go:43-56 | after an accepted safe control that leaves no transaction open, SealEpoch succeeds and issues a completion with that control's position |
| SinkSession.BoundarySink.Open | runner/sink_session.go:47-72 | the first instance is opened once and is ready for a write |
| SinkSession.BoundarySink.Begin | runner/sink_session.go:74-104 | refused after a close error; otherwise success means the current instance is open, has every schema ensured so far and answered Begin with success as the last call; failure leaves no write open |
| SinkSession.BoundarySink.Renew | runner/sink_session.go:79-101 | a fresh instance is opened and given every remembered schema before it can serve, whatever the factory and the instance answer |
| SinkSession.BoundarySink.Commit | runner/sink_session.go:110-118 | success means the instance answered Commit with success, and a single-write instance was closed right after; failure means it refused, with the write open, or committed and then failed to close |
| SinkSession.BoundarySink.Abort | runner/sink_session.go:120-125 | one Abort call on the current instance, after which no write is open; nothing is called when no instance is left |
| SinkSession.BoundarySink.Close | runner/sink_session.go:127-136 | every instance ever opened is closed, once, and close errors stick |
| SinkSession.BoundarySink.EnsureSchema | runner/sink_session.go:140-158 | on success the live instance has the schema and the next one will get it; on failure nothing is remembered |
| SinkSession.BoundarySink.CloseUnopened | runner/continuous.go:84-103 | a run that fails before opening its sink closes the connector once and opens nothing |
| SinkSession.ClosedOnce | runner/sink_session.go:127-136 | in a proper log no instance is closed twice |
| SinkSession.BegunOnce | runner/sink_session.go:74-118 | in a proper log a sink without reusable sessions sees one Begin per instance |
| SinkSession.AbortedUncommitted | runner/sink_session.go:110-125 | in a proper log an Abort follows a successful Begin of that instance with no successful Commit and no other Abort since |
| SinkSession.WriteEndsOnce | runner/sink_session.go:74-125 | in a proper log every successful Begin on an instance, before its next Begin or once no write is open, is followed by exactly one successful Commit or Abort of that instance |
| EpochRunner.Store.CommitEpoch | stream_store.go:10-26 | the store's contract: certificates are immutable, and success means one with the same canonical bytes is stored under the key |
| EpochRunner.ContinuousRun.BeginEpoch | runner/continuous.go:233-241 | an epoch begins only when none is open, with the next number, bound to the pipeline, right after a sink instance answered Begin with success |
| EpochRunner.ContinuousRun.Activity | pipeline/writer.go:41-132 | whatever the pipeline's goroutines do, the facts held back are those of the batches applied in the bound epoch; once it is sealed no batch is written and no fact arises |
| EpochRunner.FinishKeeps | pipeline/writer.go:41-132 | a batch the writer finishes is tagged with the bound epoch, and none is finished once the epoch is sealed |
| EpochRunner.ContinuousRun.ReadEpoch | runner/continuous.go:242-254 | reading ends with positions and no claims, or ends the run with the epoch still open |
| EpochRunner.ContinuousRun.SealEpoch | runner/continuous.go:255-267 | a certificate for exactly this epoch and coverage, with receipts derived from the completion the pipeline's SealEpoch issued, after that completion passed the check and while the write is still open |
| EpochRunner.ContinuousRun.CommitSink | runner/continuous.go:268-272 | success means the instance that began the epoch's write answered Commit with success, only after the certificate was checked; a failed Commit or Close leaves the epoch for the cleanup to abort |
| EpochRunner.ContinuousRun.Certify | runner/continuous.go:273-283 | success means a stored certificate has the runner's canonical bytes, also when CommitEpoch reported an error |
| EpochRunner.ContinuousRun.PublishWrites | runner/continuous_events.go:18-45 | for a certified epoch exactly one fact per batch applied in it is published, in order, and none is left pending |
| EpochRunner.ContinuousRun.Acknowledge | runner/continuous.go:293-300 | acknowledges only after a lease renewal that followed the certificate |
| EpochRunner.ContinuousRun.RunEpochs | runner/continuous.go:218-310 | the loop keeps the log orderly and every sink call proper, for every environment |
| EpochRunner.ContinuousRun.Cleanup | runner/continuous.go:84-103 | afterwards no epoch is open and every opened instance is closed |
| EpochRunner.ContinuousRun.RunContinuous | runner/continuous.go:53-125 | whatever the environment answers, the whole log is orderly and proper, what was certified is stored, what was validated passed the check and what was sealed the pipeline issued; unless the process stopped, every epoch begun was ended and every instance opened was closed |
| EpochLog.AcknowledgedChain | runner/continuous.go:233-297 | in an orderly log an acknowledged coverage is preceded, in this order, by a successful Begin call, that epoch, the accepted check of a certificate with that coverage against evidence the pipeline issued, the successful Commit call of the same sink instance, the certificate stored with the same canonical bytes, and a successful lease renewal |
| EpochLog.AcknowledgedApplied | epoch_commit.go:41-60 | end to end: an acknowledged coverage names exactly the positions, up to their codecs, of a completion issued in a reachable pipeline state where nothing was outstanding, so every row ended in that epoch is in a batch whose receipt matched |
| EpochLog.CertifiedEquivalent | runner/continuous.go:278-282 | the stored certificate names the same epoch and attempt token and has equivalent content |
| EpochLog.PublishedAfter | runner/continuous_events.go:18-45 | batch-written facts of an epoch come after its certification |
| EpochLog.Consecutive | runner/continuous.go:222-231 | epoch numbers are consecutive from the first |
| EpochLog.BegunEndsOnce | runner/continuous.go:237-272 | every epoch begun, before another or in a finished run, ends exactly once, and its end rests on calls of the instance whose Begin succeeded right before it: committed only after its Commit succeeded, aborted only after its Abort or once it was closed after committing |
| Progress.CanonicalIdempotent | rowmodel/progress.go:72-100 | canonical positions are canonical already |
| Progress.EqualExactly | rowmodel/progress.go:103-127 | positions of a domain compare equal exactly when they have the same canonical form |
| Progress.CounterSpelling | streamkit/codec.go:112-119 | counters have the same canonical form exactly when they are the same number of the same format |
| Progress.CounterFixed | streamkit/codec.go:112-119 | a counter is its own canonical form exactly when it has no leading zero |
| Progress.CounterOrder | streamkit/codec.go:122-141 | counters of one domain compare as numbers however they are spelled, and anything else is an error |
| Progress.OpaqueOrder | streamkit/codec.go:73-86 | opaque positions of one domain are equal when identical and fail closed otherwise |
| Progress.LeadingZeros | streamkit/codec.go:89-119 | any number of leading zeros leaves the canonical form alone |
| Progress.PaddedPosition | rowmodel/progress.go:72-100 | so it does through the registry |
| Certificates.RespelledBytes | epoch.go:214-253 | so certificates that differ only in leading zeros of counters have the same canonical bytes |
| Progress.CodecsLawful | streamkit/codec.go:60-141 | the opaque and the counter codec meet the codec contract |
| Progress.Entries | rowmodel/progress.go:152-171 | succeeds exactly on valid positions; each domain once, in strict incarnation and domain order, whatever order the map is visited in |
| Progress.Unmarshal | rowmodel/progress.go:183-203 | reads entries back, refusing invalid entries and repeated domains |
| Progress.EntriesRoundTrip | rowmodel/progress.go:152-203 | reading a map's entries back gives the map |
| Progress.ReadEntries | rowmodel/progress.go:183-203 | what is read back holds exactly the listed entries and is valid |
| Progress.EntriesUnique | rowmodel/progress.go:152-171 | a position map has one sorted wire list |
| Certificates.ValidateRepresentation | epoch.go:78-93 | accepts exactly positions or claims but not both, with valid entries and distinct claim rows |
| Certificates.CanonicalizeCoverage | epoch.go:106-124 | canonical positions, claims by row, activated members sorted without repeats; fails exactly on an invalid or unresolvable coverage |
| Certificates.SortCompact | epoch.go:119-122 | sorting and compacting lists each member once in order |
| Certificates.CheckMessageSchemas | epoch.go:284-306 | version 1 carries no layouts, version 2 valid ones for every receipt, nothing else passes |
| Certificates.EncodeCanonical | epoch.go:219-253 | the canonical bytes, or none exactly when a check fails |
| Certificates.CanonicalExactly | epoch.go:214-253 | two certificates have the same canonical bytes exactly when they share tenant, full epoch reference with attempt token, totals and layouts, positions up to their codecs, the claim and receipt multisets, and the set of activated members |
| Certificates.CanonicalTwice | epoch.go:214-253 | canonicalizing a canonical certificate changes nothing |
| EpochCommit.Accumulate | epoch_commit.go:66-79 | running and per-resource int64 sums equal the unbounded ones; refused exactly when a receipt is negative or a sum leaves 64 bits |
| EpochCommit.CheckReceipts | epoch_commit.go:62-91 | accepts exactly when no receipt is negative and grand and per-resource sums, taken without wrap-around, equal the completion's |
| EpochCommit.ValidateCompletion | epoch_commit.go:30-92 | accepts exactly matching layouts, reference, canonical coverage, totals and receipts |
| EpochCommit.AnyOrder | epoch_commit.go:62-91 | no reordering of the receipts changes the verdict |
| EpochCommit.AnySplit | epoch_commit.go:62-91 | nor does splitting or merging a resource's receipts in any way that keeps their sums, anywhere in the list |
| EpochCommit.CoversSealed | epoch_commit.go:41-60 | an accepted certificate covers exactly the sealed positions, up to their codecs |
| EpochCommit.DeriveReceipts | runner/continuous.go:262-264 | one receipt per resource of the completion, in any order |
| EpochCommit.DerivedMatch | runner/continuous.go:262-267 | derived receipts pass the check whenever byte counts are non-negative and sums fit |
| EpochCommit.SealedReceiptsMatch | pipeline/writer.go:94-102 | so they pass for the completion of any epoch sealed in any interleaving |
| TransformCatalog.CheckCall | transform/catalog.go:371-421 | arity, argument kinds and types, shared type and function rules, as the declarative check says |
| TransformCatalog.FindSharedType | transform/catalog.go:427-447 | the type all value arguments share, when a column fixes one |
| TransformCatalog.CallHasColumn | transform/catalog.go:367-447 | every admitted call has a column argument and a known result type |
| TransformLiterals.BoxedAtType | transform/exec.go:138-167 | a literal boxed at its own type or one it widens to is stored at exactly that type |
| TransformLiterals.IntegerWideningExact | transform/compile.go:307-326 | an integer literal widened to an int16, int32 or int64 column is itself |
| TransformLiterals.DecimalLiteralExact | transform/exec.go:175-202 | a numeric literal is accepted at a decimal column exactly when its decimal value is an integer at the column's scale within its precision, and becomes that integer |
| TransformLiterals.NegativeScaleRefused | transform/exec.go:175-202 | no literal is accepted at a negative scale, although 100 is 1 at Decimal(5, -2) |
| TransformLiterals.AcceptanceExact | transform/exec.go:175-202 | literals are accepted exactly when the column can hold their value, at any integer scale, for exactly the decimal types whose scale is not negative |
| TransformCompile.CoerceLiterals | transform/compile.go:285-303 | in place, the argument types and nodes become the widened ones |
| TransformCompile.Compiler.RenameColumns | transform/compile.go:107-135 | in place, the specification step whose acceptance and meaning are proved below: layout and issues after a rename |
| TransformCompile.Compiler.DropColumns | transform/compile.go:139-153 | the same for a drop: layout, positional operations and issues |
| TransformCompile.Compiler.ComputeColumns | transform/compile.go:161-216 | the same for a compute step, whose entries compile against the layout before it |
| TransformCompile.Compiler.Run | transform/compile.go:46-58 | the compiler over a list of steps |
| TransformExec.Frame.Apply | transform/exec.go:46-119 | an operation applied to the frame in place, with errors and index panics |
| TransformExec.RunPlan | transform/plan.go:40-90 | a plan over a record: refused when the leading columns do not match, trailing columns passed through |
| TransformMeaning.ExprAccepted | transform/compile.go:222-280 | an expression compiles exactly when it is well typed by name, with the same type |
| TransformMeaning.EvalMeaning | transform/exec.go:129-250 | a compiled expression evaluates to its value by name, never panics, and has exactly the recorded type, precision and scale included |
| TransformCorrect.RenameAcceptedExactly | transform/compile.go:107-135 | a rename raises no issue exactly when it names existing non-key columns and distinct free unreserved targets |
| TransformCorrect.RenameMeaning | transform/compile.go:107-135 | renaming relabels simultaneously |
| TransformCorrect.DropAcceptedExactly | transform/compile.go:139-153 | a drop raises no issue exactly when it lists distinct existing non-key columns |
| TransformCorrect.DropMeaning | transform/exec.go:46-50 | dropping by shifting positions removes exactly the named columns |
| TransformCompute.ComputeAcceptedExactly | transform/compile.go:161-216 | a compute step raises no issue exactly when its condition and every entry are well typed by name |
| TransformCompute.EntryMeaning | transform/exec.go:79-110 | an entry's column is the named value; unmatched rows keep the old value or become null |
| TransformCompute.ComputeMeaning | transform/exec.go:67-119 | a compute step assigns all its columns simultaneously from the columns before the step |
| TransformTheorem.StepAcceptedExactly | transform/compile.go:93-102 | any step raises no issue exactly when it is well formed by name |
| TransformTheorem.CompilesExactly | transform/compile.go:46-58 | a definition compiles exactly when every step is well formed over the columns the steps before it leave |
| TransformTheorem.StepsMeaning | transform/compile.go:46-216 | the operations of any list of steps compute the named steps |
| TransformTheorem.PlanMeaning | transform/plan.go:40-76 | a definition that compiles yields at each output position the column the named steps give that name; no index is out of range, types are exact, the row count stays, trailing columns pass through; it errors exactly when a kernel it calls errors |
| TransformTheorem.PrimaryKeySurvives | transform/compile.go:107-216 | every primary key column reaches the output with its name, type and data |
| LayoutAgreement.CompiledUnreserved | transform/compile.go:107-216 | a transform of unreserved columns yields unreserved columns |
| LayoutAgreement.TableExists | runner/schema.go:39-70 | whenever a builder accepts a source layout the table layout exists |
| LayoutAgreement.LayoutsAgree | pipeline/inlet.go:49-98 | the plan accepts every built batch, and what it writes has the table's columns: same number, names, types and order; for change history nullability agrees exactly when every required source column is dropped or computed over |
| LayoutAgreement.HistoryDiffers | rowmodel/audit.go:46-53 | one required column and no steps: the table of its history makes it nullable, the batches written do not |
| LayoutAgreement.CompiledRequired | transform/compile.go:107-216 | which output columns may not be null, from the source columns and the steps alone: renamed ones stay, dropped and computed ones do not |
| RowBuilder.AppendOp | arrowbatch/builder.go:311-316 | the sparse operation vector reads as one operation per row |
| RowBuilder.Builder.Append | arrowbatch/builder.go:74-295 | a value of the column's type joins the open row; anything else fails the builder, and an error sticks |
| RowBuilder.Builder.EndRow | arrowbatch/builder.go:300-327 | a full row is completed with its operation, a short one fails the builder; a chunk leaves exactly when a bound is reached or a flush was requested, with the last row's metadata; nothing is delivered after an error |
| RowBuilder.Builder.HandOver | arrowbatch/builder.go:390-423 | one well-formed chunk holds exactly the buffered rows, or the builder fails and delivers nothing |
| RowBuilder.Builder.Flush | arrowbatch/builder.go:338-346 | on success the delivered chunks concatenate to all completed rows; refused inside a row |
| RowBuilder.Builder.Drain | arrowbatch/builder.go:350-365 | on success everything is delivered; the marker is the one the meta calls for, and when it asks for a number of rows the acknowledgements reach it exactly when every chunk ended on a coarse row outside a change stream, so always when every row was one |
| RowBuilder.Builder.Close | arrowbatch/builder.go:375-387 | unflushed rows are dropped, delivered ones stay |
| RowBuilder.DeliveredPrefix | arrowbatch/builder.go:300-423 | at any moment the delivered rows are a prefix of the completed ones, and chunk counts add up |
| RowBuilder.CoarseAcksMatch | pipeline/inlet.go:147-231 | after everything is delivered the acknowledgements sum to the completed rows exactly when every chunk's last row acknowledges |
| RowBuilder.PlainReadUnmatched | pipeline/inlet.go:171-231 | a plain read carries no cursor on any chunk and a marker that asks for all its rows, so the two meet only when there were none |
| SchemaEvolution.Validate | schema/validate.go:12-36 | accepts exactly nonempty distinct field names and distinct keys that name fields |
| SchemaEvolution.Compare | schema/diff.go:44-103 | none exactly for invalid layouts or different resources, otherwise every difference in order |
| SchemaEvolution.Check | schema/policy.go:48-63 | accepted exactly when every change is allowed; the reasons are exactly the changes that are not |
| SchemaEvolution.NoChangeExactly | schema/diff.go:44-103 | no change is reported exactly when the layouts are equal |
| SchemaEvolution.AcceptedExactly | schema/policy.go:48-63 | strict accepts exactly equal layouts; nullable addition exactly those where the old fields are an unchanged subsequence, every other field is nullable of a known type, and settings agree |
| SchemaEvolution.ValidateLayout | schema/message.go:26-49 | the message layout rules |
| SchemaEvolution.CheckMessageChange | schema/message.go:53-68 | both layouts valid, same representation, and an accepted comparison |
| SchemaEvolution.CheckMessageLayouts | schema/message.go:81-100 | every layout valid and every earlier resource carried over, in any visiting order |
| SchemaEvolution.ChainSurvives | schema/message.go:81-100 | across any chain of accepted epochs the first layouts' resources and fields survive unchanged and in order, and the direct check accepts the pair |
| MessageProbe.Prepare | streamkit/message.go:114-170 | succeeds exactly when the payload is encodable under the layout |
| MessageProbe.Restore | streamkit/message_schema.go:19-36 | succeeds exactly for a valid layout without collisions or reserved names |
| MessageProbe.Infer | streamkit/message.go:71-102 | the first payload's layout, found whenever it is usable |
| MessageProbe.Gather | streamkit/message_schema.go:67-88 | the new names of the batch, each with the least type holding what was observed, in any visiting order |
| MessageProbe.ProbeMessageBatch | streamkit/message_schema.go:45-116 | succeeds exactly when the batch is acceptable, with the candidate layout |
| MessageProbe.AdditionsEncode | streamkit/message_schema.go:67-116 | a payload is refused under the extended layout exactly when the starting layout refuses it: a known field's type, or an object where the layout is raw and the reverse; what was added always encodes |
| MessageProbe.AcceptedExactly | streamkit/message_schema.go:45-116 | so a probe succeeds exactly when the candidate can be restored and is an allowed change and the starting layout refuses no payload |
| MessageProbe.ProbeCovers | streamkit/message_schema.go:45-116 | then every member of every object is a column and an accepted layout is an unchanged prefix |
| MessageProbe.AddedLeast | streamkit/message_schema.go:73-88 | an added field's type is the least upper bound of the types observed for it |
| MessageProbe.OrderIndependent | streamkit/message_schema.go:69-98 | the order and repetition of payloads do not change the additions |
| Headers.EncodeHeaders | streamkit/headers.go:28-62 | encodes exactly the lists within the limits whose null headers carry no bytes |
| Headers.DecodeHeaders | streamkit/headers.go:65-112 | accepts exactly a version and presence byte, a guarded count and that many well-formed entries with nothing after them |
| Headers.DecodeEncode | streamkit/headers.go:28-112 | decoding an encoding gives the list back, absent apart from empty |
| Headers.EncodeDecode | streamkit/headers.go:28-112 | bytes that decode are the encoding of what they decode to |
| Headers.NineEach | streamkit/headers.go:75-79 | the guard of nine bytes per entry rejects no encoding |
| OAuthSource.Source.Refresh | oauth/source.go:147-171 | an exchange presents the stored credential, which is then the latest, and only when the stored token is missing, rejected or about to expire; a held-back result is returned instead of exchanging again |
| OAuthSource.Source.Update | oauth/token.go:25-31 | for any persistence outcome the latest credential stays stored or held back beside the one it replaces; a result the store kept is the latest and is saved and returned without another exchange; success means stored |
| OAuthSource.Source.TokenFor | oauth/source.go:120-145 | a returned token is stored, latest and unexpired; one call makes at most two exchanges |
| OAuthSource.Source.RefreshToken | oauth/source.go:113-118 | the same after a rejection, which must name the rejected token |
| OAuthSource.NeverAgain | oauth/source.go:120-171 | with a rotating endpoint, a refresh token presented by a successful exchange is never presented again |
| BoundedRun.RunControl.Request | runner/control.go:117-134 | refused once sealed; a cancel overrides a pause and is never overridden |
| BoundedRun.RunControl.Seal | runner/control.go:153-158 | returns the signal accepted so far and refuses later ones |
| BoundedRun.Run.EmitControlled | runner/runner.go:443-453 | one honest terminal fact when a command interrupted the step, none otherwise |
| BoundedRun.Run.FinishControlled | runner/runner.go:455-490 | canceled without a Commit, or paused as committed exactly when Commit succeeded, or failed; never completed |
| BoundedRun.Run.Finish | runner/runner.go:313-356 | exactly one honest terminal fact; a command accepted before the seal excludes completion |
| BoundedRun.Run.RunOne | runner/runner.go:72-357 | an error return published no terminal fact; any other published exactly one, after run.started unless preparing failed: completed after a successful Commit and no accepted command, canceled without Commit, paused as committed exactly when Commit succeeded; a begun sink is committed, aborted or left to a resumable run |
| BoundedRun.UnpreparedNeverStarted | runner/runner.go:91-95 | when preparing the execution fails the facts are run.failed alone |
| BoundedRun.StartedExactly | runner/runner.go:63-100 | a run ends exactly when it was valid and not refused at its start, and then run.started came first exactly when it was prepared |

## Left out

- EpochPipeline: row values are opaque integers, queue capacities are one parameter, and the flush ticker is the choice to flush at EndRow.
- EpochPipeline: checkpoints and write policies of `processBatch` are not modelled, and of its facts only batch-written ones, in `EpochRunner`; nor is what a transform does to a batch's rows (that is `TransformExec`).
- Boundary.BoundaryTracker.Requested: timers are a flag saying whether a time limit has elapsed.
- Boundary.StreamSink.Control: the context of one call is a failure step of the pipeline, or the tracker's own flags before and after.
- EpochRunner.Store.CommitEpoch: the store is its interface contract; fencing, position regression and the SQL behind it are not modelled.
- EpochRunner.ContinuousRun.RunContinuous: the heartbeat, session and source teardown, and ending the attempt in the store are not modelled; the process stopping stands for panics.
- Certificates.EncodeCanonical: JSON is an injective parameter, strings are valid UTF-8 by type, and the SHA-256 digest is not modelled.
- Progress.CodecsLawful: the registry's map and lock are the resolver parameter.
- TransformCompile.Compiler.Run: issue messages and paths and the recorded expression types are not modelled; an issue is a kind with a name.
- TransformMeaning.EvalMeaning: kernels are parameters (the row-wise choice of a conditional compute is modelled); int64 to float literals are admitted by the code unconditionally and nothing is claimed about their value.
- TransformExec.RunPlan: Arrow reference counts, metadata and the int32 truncation of precision and scale are not modelled.
- RowModel: lower-casing is ASCII only, in reserved names and message fields.
- LayoutAgreement.LayoutsAgree: stated for schemas without the SDK's event envelope, whose suffix a transform would move.
- RowBuilder.Builder.Drain: cursors are those of bounded runs; a continuous pipeline sets none. What the tracker does with them is not modelled.
- RowBuilder.Builder.Append: Arrow memory, `reserve`, and batch reference counting are not modelled; a value is its kind, size and an opaque content.
- SchemaEvolution.Check: a reason is the change itself, not its message; reconciliation with a live table is not modelled.
- MessageProbe.Prepare: JSON text is already classified; duplicate member names are a kind of payload.
- OAuthSource.Source.Update: one owner; the HTTP exchange, client authentication and the lock's waiting are not modelled.
- BoundedRun.Run.RunOne: preparation steps are a list of which may be interrupted; panics, logging, acknowledgement and cleanup after completion are not modelled.
- The server, CLI, UI, worker, identity, module registry, datastores, connectors and event bus: mostly per-request validation, wiring or SQL.
- `checkpoint` cursors, pagination, plan tables and profiling: short case tables that would only add easy members.
