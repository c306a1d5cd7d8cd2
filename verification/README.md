# my-pi: verified models

Dafny 4.11 models of the stateful runtimes and of the stream and graph algorithms of my-pi, with proofs of what
they guarantee over every input and every run. `dafny verify dfyconfig.toml` checks everything.

The files follow the packages:

- `Contracts`, `EventStore`, `EventLog`, `Acceptance`, `Protocol`, `ProtocolInvariants`, `ProtocolTheorems`,
  `FinishedItems`, `EvaluationLaw`, `WorkItemLaw`, `SessionLaw`, `AnswerLaw`, `CoordinationRuntime`,
  `EvaluationRuntime`: the coordination store as an append-only log with projections and plain tables, every
  transaction of the two runtimes, the guarantees of the work-item and evaluation protocol over all interleavings, and
  the laws that tell every table, every answer and every event of a transaction by the tables it finds.
- `FrameDecoder`, `FrameLaw`, `BoundedRead`, `TextWindow`, `TextFiles`, `TextLines`, `LineScan`, `DiffCollector`,
  `FileSearch`: incremental decoders and collectors, each equal to a description of the whole input for every chunking.
- `Sorting`, `GraphSnapshot`, `SnapshotLaw`, `GraphTrace`, `TraceLaw`, `CodeGraph`, `Impact`, `ImpactReport`: canonical
  snapshots and the two bounded breadth-first searches.
- `Json`, `JsonGrammar`, `ReceiptPrinter`, `Receipt`, `ReceiptLaw`, `AdmissionSubject`, `SubjectLaw`: the canonical
  printer in its two copies, what receipts and subjects record, and what digests over their texts can be trusted for.
- `CodeIndex`, `CodeIndexLaw`, `ContextRouter`, `Sync`, `RequestLimiter`, `MutationMutex`, `ChangeBatch`, `BatchLaw`,
  `Provenance`, `ProvenanceLaw`: index, cursor and concurrency protocols.
- `Arithmetic`, `Bytes`, `Text`, `Wrappers`: shared vocabulary.

An operation of the program that updates state is a method proved against a function of the old state; the guarantees
are lemmas about these functions. Where a function does much at once, the module beside it whose name ends in `Law`
tells its result by its inputs, without the function and with the constants written out. Digests and hashed identifiers
are injective functions, random identifiers are new, time, answers of evaluators and outcomes of input and output are
parameters, and a store transaction is atomic. Concurrency in one process is a step relation: every interleaving of the
steps is a run.

## Where the code does not do what one would expect

Each of these has a lemma with a concrete input, and one that states exactly when the expected property holds.

- Completion never looks at blockers, so a done item may have unfinished dependencies: it has none exactly when it had
  no blockers before (`FinishedItems.DoneDespiteBlockersRun`, `FinishedItems.DoneDespiteBlockers`,
  `FinishedItems.DependenciesDoneAlways`).
- A done item can be claimed again, also beneath a done one that depends on it (`FinishedItems.ReopenedRun`,
  `FinishedItems.LeavingDone`, `FinishedItems.DoneMeansDependenciesDone`).
- Results are filed under a name in which the criterion's and the result's identifiers are joined by a colon, so two
  results of two criteria can have one name, and then the second is refused; a name stands for its row exactly as long
  as no criterion's identifier holds a colon (`EvaluationLaw.NamesCollide`, `EvaluationLaw.NameMeansRow`).
- The header bound of the frame decoder is checked only when a push ends inside a header, so whether a stream is
  accepted depends on where it is cut (`FrameDecoder.HeaderBoundDependsOnChunks`, `FrameDecoder.ChunkInvariance`).
- Paging covers a file exactly when the window is as wide as the widest character (`BoundedRead.NarrowWindowsSkip`,
  `BoundedRead.PagingTilesFile`).
- The texts of adjacent pages need not add up to the file's text: a byte-order mark at the beginning of a page is
  dropped (`TextWindow.MarkLostBetweenPages`, `TextWindow.PagedTextExactly`).
- What a search sees of a line beyond the bound depends on where the file is cut: a chunk that ends inside the line
  too late makes it a blank line, which can match; the chunking is without effect exactly when that happens to no line
  that a newline ends (`FileSearch.ChunksDecide`, `FileSearch.ChunksDecideExactly`, `FileSearch.LineFates`).
- The subject digest depends on the order of the changes exactly when two of their sort keys collate as equals
  (`AdmissionSubject.OrderMatters`, `AdmissionSubject.OrderFreeExactly`); the English collation ignores some control
  characters.
- The receipts' copy of the printer differs from the shared one exactly for values with absent parts, and an absent
  array item leaves no trace in it (`ReceiptPrinter.AbsentItemVanishes`, `ReceiptPrinter.PrintersAgreeExactly`).
- The index in memory drops every dangling edge on invalidation, the store only those it touches
  (`CodeIndex.SweptFromMemoryOnly`, `CodeIndex.InvalidateKeepsMirror`).
- When the first provider fails on a path that was not written canonically, stale entities stay in the index; the
  latest reports are held exactly as long as no call changes what belongs to another path
  (`CodeIndex.StaleAfterFailedProvider`, `CodeIndex.EntitiesAreLatest`).
- A truncated diff's inline lines are a selection, and a beginning exactly when the lines can be cut at some place
  behind which none fits (`DiffCollector.InlineIsNotAPrefix`, `DiffCollector.InlineIsPrefixExactly`).
- Observed paths are normalised twice, and normalising again changes a path exactly when it started with `./` twice
  (`Provenance.NormalizeIsNotIdempotent`, `Provenance.NormalizeAgain`). The chain of managed verdicts is therefore one
  of keys, not of reported paths (`Provenance.TwoKeysOnePath`, `Provenance.ManagedVerdictsChain`).

## Model

| member | source | states |
|---|---|---|
| `ProtocolTheorems.EvaluationGate` | packages/coordination-runtime/src/runtime.ts:286-310 | in every reachable database, an item that is accepted, or gated and done, names a completed run of this item and its specification, decided as accepted, whose every required criterion has verified results, all passing with evidence bound to the run's target, and all from the evaluator the criterion names |
| `ProtocolTheorems.GateIsFinal` | packages/coordination-runtime/src/runtime.ts:224-310 | whatever transactions follow, an item past the gate stays accepted or done by the same run, and a gated done item never changes again |
| `ProtocolTheorems.ItemsMoveLegally` | packages/coordination-runtime/src/runtime.ts:117-310 | every transaction leaves each existing item as it is or makes one of the listed moves of the work-item state machine, with a higher version |
| `FinishedItems.DoneExactly` | packages/coordination-runtime/src/runtime.ts:94-310 | an item is done after a transaction exactly when the transaction is a completion that finishes it, or it was done and the transaction is no claim that reopens it; new items start ready |
| `FinishedItems.LeavingDone` | packages/coordination-runtime/src/runtime.ts:117-147 | a done item leaves done exactly through a claim of it by a live session with its version, of an item without specification that has blockers, or that nobody else holds, or that is shared; it is then blocked or active under that session, and every other transaction leaves it untouched |
| `FinishedItems.ReopenedRun` | packages/coordination-runtime/src/runtime.ts:94-252 | a run from the empty store in which both items are completed in order and the first is then claimed again beneath the second, which stays done |
| `WorkItemLaw.ItemsFollowTheLaw` | packages/coordination-runtime/src/runtime.ts:94-310 | the law of every transaction for every item: the whole item after it is told by the tables before it; exactly the stated claim, completion, release and decision change an item, everything else leaves it as it is |
| `WorkItemLaw.CreationFollows` | packages/coordination-runtime/src/runtime.ts:94-115 | a creation adds the item, ready and without a holder, together with exactly the dependencies asked for, if the specification and all targets exist and none is the item itself; otherwise nothing |
| `WorkItemLaw.ClaimAnswers` | packages/coordination-runtime/src/runtime.ts:117-147 | what the caller of a claim is told in every case: which error, or the item as it is afterwards |
| `WorkItemLaw.HandsChangeExactly` | packages/coordination-runtime/src/runtime.ts:117-147 | the holder of an item changes exactly when a live session that does not hold it takes it by a claim with its version, of an item not settled under a gate; and then the item was blocked, or nobody held it, or the caller asked to share it |
| `WorkItemLaw.HolderKeepsItem` | packages/coordination-runtime/src/runtime.ts:140 | over any run an item that a session holds stays with it while nothing blocks it and nobody asks to share it |
| `WorkItemLaw.VerdictIsCarriedOut` | packages/coordination-runtime/src/runtime.ts:286-310 | a gated item that awaits evaluation under the specification of a completed run becomes accepted, to be retried, or to be reviewed, exactly as the run's decision is accepted, rejected or anything else, and the matching event is the last of the log |
| `WorkItemLaw.VerdictsHaveReasons` | packages/coordination-runtime/src/runtime.ts:286-310 | in every reachable database an item to be retried has a completed run of itself whose results refute its specification, and an item to be reviewed one whose results neither refute nor satisfy it |
| `WorkItemLaw.NextKeepsVerdicts` | packages/coordination-runtime/src/runtime.ts:94-310 | every transaction keeps behind each judged item the completed run that judged it |
| `SessionLaw.SidesFollowTheLaw` | packages/coordination-runtime/src/runtime.ts:60-283 | the law of every transaction for sessions, intents, scopes and published context: the whole tables after it, told by those before it |
| `AnswerLaw.LogFollows` | packages/coordination-runtime/src/runtime.ts:60-310 | the log is only added to, and every transaction that finishes no item adds exactly the events named, in their order |
| `AnswerLaw.FinishLogged` | packages/coordination-runtime/src/runtime.ts:251-281 | finishing an item adds its completion, then one event for each intent it closes, each scope it releases and each item it frees |
| `AnswerLaw.CompletionAnswers` | packages/coordination-runtime/src/runtime.ts:224-283 | what a completion is told in every case: which error, or the item as it is afterwards |
| `AnswerLaw.DecisionAnswers` | packages/coordination-runtime/src/runtime.ts:286-310 | what carrying out a decision is told in every case: which error, or the item as it is afterwards |
| `AnswerLaw.CreationAnswers` | packages/coordination-runtime/src/runtime.ts:94-115 | what a creation is told in every case: the new item, or what is wrong with project, specification, or the first wrong dependency |
| `AnswerLaw.HeartbeatAnswers` | packages/coordination-runtime/src/runtime.ts:190-199 | what a heartbeat is told: the refreshed session, or that it is unknown or expired; a join is told its new session |
| `AnswerLaw.SpeakingAnswers` | packages/coordination-runtime/src/runtime.ts:149-185 | what a declared intent or a publication is told in every case |
| `ProtocolTheorems.BlockedItemsWait` | packages/coordination-runtime/src/runtime.ts:132-139 | in every reachable database, a blocked item has a `depends_on` target that exists and is not done |
| `ProtocolTheorems.DependenciesAcyclic` | packages/coordination-runtime/src/runtime.ts:105-112 | in every reachable database, no chain of dependencies, of whatever kinds and length, returns to its start |
| `ProtocolTheorems.SomethingCanProceed` | packages/coordination-runtime/src/runtime.ts:105-147 | in every reachable database, while some item is not done, some item that is not done has no blockers |
| `FinishedItems.CompletionGrounds` | packages/coordination-runtime/src/runtime.ts:224-283 | a completion turns an item done exactly when its holder asks and it is ungated, or accepted by the run the caller names or leaves out; blockers play no part |
| `FinishedItems.DoneDespiteBlockers` | packages/coordination-runtime/src/runtime.ts:224-283 | whoever may finish an item, gated or not and in whatever state, finishes it and leaves its blockers as they were, so that what it depends on is done exactly when it had none before |
| `FinishedItems.DoneMeansDependenciesDone` | packages/coordination-runtime/src/runtime.ts:94-310 | while everything that done items depend on is done, any transaction keeps it so exactly when it neither completes an item that has blockers nor reopens an item on which a done one depends |
| `FinishedItems.DependenciesDoneAlways` | packages/coordination-runtime/src/runtime.ts:94-310 | over a whole run of all operations: what done items depend on is done after every transaction exactly when no transaction of the run does either |
| `FinishedItems.DoneDespiteBlockersRun` | packages/coordination-runtime/src/runtime.ts:94-252 | a run from the empty store that ends with a done item whose dependency is still ready: join, create two items, claim, complete |
| `ProtocolTheorems.CompletionReleases` | packages/coordination-runtime/src/runtime.ts:251-281 | a finished item closes exactly its holder's active intents for it, releases exactly the holder's scopes, and makes ready exactly the blocked items that waited for nothing else |
| `ProtocolTheorems.LogIsAuthoritative` | packages/coordination-store/src/sqlite-store.ts:273-310 | in every reachable database sequences are 1 to n, the projections are the replay of the log, and the k-th event of an item carries version k |
| `ProtocolTheorems.ClaimsNeverShareVersion` | packages/coordination-runtime/src/runtime.ts:117-147 | after a claim that changed an item, whatever runs in between, no claim with the same expected version changes it again |
| `EventLog.ReplayIsLastWriter` | packages/coordination-store/src/projections.ts:306-356 | replaying a log leaves under every record exactly what its last event wrote, and nothing where no event wrote |
| `EventLog.ApplyAllKeepsLog` | packages/coordination-store/src/sqlite-store.ts:273-310 | transactions that write the next version of each item keep sequences dense, projections equal to the replay, and versions equal to event counts |
| `EventLog.CreatedAtStable` | packages/coordination-store/src/sqlite-store.ts:273-310 | no later write moves the position at which an item was created |
| `ProtocolInvariants.RunKeepsInv` | packages/coordination-runtime/src/runtime.ts:60-310 | every legal interleaving of all coordination and evaluation transactions keeps the whole invariant: log, dependencies, blocked items, runs, genuine results, gate |
| `ProtocolInvariants.NextKeepsInv` | packages/coordination-runtime/src/runtime.ts:60-310 | each single transaction keeps that invariant |
| `ProtocolInvariants.CreateKeepsInv` | packages/coordination-runtime/src/runtime.ts:94-115 | creation keeps it: dependencies lead only to items created earlier |
| `ProtocolInvariants.CompletionKeepsBlocked` | packages/coordination-runtime/src/runtime.ts:269-280 | after a completion whoever is still blocked still waits for something |
| `ProtocolInvariants.CompletionEffect` | packages/coordination-runtime/src/runtime.ts:251-281 | the items after a completion: the item done, the items that waited only for it ready, all others unchanged |
| `ProtocolInvariants.AddResult` | packages/evaluation-runtime/src/runtime.ts:77-100 | a recorded result belongs to a run that is still open, so no decision is ever taken on other results than those stored |
| `ProtocolInvariants.CloseRun` | packages/evaluation-runtime/src/runtime.ts:133-157 | closing a run stores the verdict on exactly the results recorded for it |
| `EvaluationLaw.TablesFollowTheLaw` | packages/evaluation-runtime/src/runtime.ts:33-181 | the law of every transaction for specifications, runs, results and decisions: the whole tables after it, told by those before it |
| `AnswerLaw.RecordAnswers` | packages/evaluation-runtime/src/runtime.ts:77-100 | what recording a result is told in every case: the result if it is or was stored, otherwise the first error that applies |
| `AnswerLaw.EvaluateAnswers` | packages/evaluation-runtime/src/runtime.ts:101-132 | what an evaluation is told: the result that it is about, exactly if that is taken |
| `AnswerLaw.RequestAnswers` | packages/evaluation-runtime/src/runtime.ts:43-57 | what requesting a run is told in every case |
| `AnswerLaw.RunAnswers` | packages/evaluation-runtime/src/runtime.ts:133-181 | starting and closing a run answer with the run as it is afterwards, also when there is nothing to do |
| `AnswerLaw.SpecificationAnswers` | packages/evaluation-runtime/src/runtime.ts:33-42 | what registering a specification is told in every case |
| `EvaluationLaw.EvaluationStores` | packages/evaluation-runtime/src/runtime.ts:101-132 | evaluating a criterion of an open run stores the registered evaluator's own outcome and evidence, as a verified result under the answer's identifier, when the answer is for this criterion, admissible and not under a name used for another result; otherwise an error without evidence under the fallback identifier of the case, unless that name is used |
| `EvaluationLaw.ResultsAreBrought` | packages/evaluation-runtime/src/runtime.ts:77-132 | over any run every verified result that is no error is the answer of some evaluation of its run, with that outcome and that evidence, and every unverified one was sent in by a caller as it is |
| `EvaluationLaw.RunKeepsResults` | packages/evaluation-runtime/src/runtime.ts:77-100 | over whole runs no result is ever changed or removed, and each stays named by a criterion of its run |
| `EvaluationLaw.ReachableResults` | packages/evaluation-runtime/src/runtime.ts:77-100 | in every reachable database the records and the results agree |
| `EvaluationLaw.NameMeansRow` | packages/evaluation-runtime/src/runtime.ts:90 | where no criterion identifier contains a colon, a result's name is in use exactly when its row exists |
| `EvaluationLaw.NamesCollide` | packages/evaluation-runtime/src/runtime.ts:90 | two results of different criteria, one with a colon in its identifier, that share one name |
| `Acceptance.DecisionMeaning` | packages/evaluation-runtime/src/acceptance.ts:13-51 | accepted exactly when every required criterion has verified results that all pass with bound evidence; rejected exactly when a verified result of a required criterion failed; inconclusive otherwise |
| `Acceptance.EvaluateAcceptance` | packages/evaluation-runtime/src/acceptance.ts:13-51 | the loop computes that decision and collects the failed and the inconclusive criteria in order |
| `Acceptance.GroupByCriterion` | packages/evaluation-runtime/src/acceptance.ts:14-15 | every result is filed under its own criterion, and nothing else is |
| `Acceptance.Judge` | packages/evaluation-runtime/src/acceptance.ts:20-46 | the chain of checks on one criterion gives its standing |
| `EventStore.SortedIds` | packages/coordination-store/src/projections.ts:188-200 | a listing holds each identifier once, in increasing order |
| `EventStore.SqliteCoordinationStore.Rollback` | packages/coordination-store/src/sqlite-store.ts:83-105 | a failed transaction restores the database as it was when the transaction began |
| `EventStore.SqliteCoordinationStore.AppendEvent` | packages/coordination-store/src/sqlite-store.ts:273-310 | appending stores the event under the next sequence and updates the projection its type names |
| `CoordinationRuntime.CoordinationRuntime.Join` | packages/coordination-runtime/src/runtime.ts:60-92 | the store moves by exactly the writes of the specified transaction and the caller gets its reply: opens the project on the first join and registers a session |
| `CoordinationRuntime.CoordinationRuntime.RefreshHeartbeat` | packages/coordination-runtime/src/runtime.ts:190-199 | the store moves by exactly the writes of the specified transaction and the caller gets its reply: refreshes the heartbeat of a live session without touching the log |
| `CoordinationRuntime.CoordinationRuntime.CreateWorkItem` | packages/coordination-runtime/src/runtime.ts:94-115 | the store moves by exactly the writes of the specified transaction and the caller gets its reply: a bad dependency undoes the whole creation |
| `CoordinationRuntime.CoordinationRuntime.Claim` | packages/coordination-runtime/src/runtime.ts:117-147 | the store moves by exactly the writes of the specified transaction and the caller gets its reply: a claim that finds blockers commits the blocked state and still fails |
| `CoordinationRuntime.CoordinationRuntime.DeclareIntent` | packages/coordination-runtime/src/runtime.ts:149-166 | the store moves by exactly the writes of the specified transaction and the caller gets its reply: only for a live session and an item the agent may work on |
| `CoordinationRuntime.CoordinationRuntime.Publish` | packages/coordination-runtime/src/runtime.ts:169-185 | the store moves by exactly the writes of the specified transaction and the caller gets its reply: only for a live session |
| `CoordinationRuntime.CoordinationRuntime.Complete` | packages/coordination-runtime/src/runtime.ts:224-283 | the store moves by exactly the writes of the specified transaction and the caller gets its reply: the whole chain of cases, from refusal over hand-in to completion |
| `CoordinationRuntime.CoordinationRuntime.Finish` | packages/coordination-runtime/src/runtime.ts:251-282 | the store moves by exactly the writes of the specified transaction and the caller gets its reply: the last part of completion, all in one transaction |
| `CoordinationRuntime.CoordinationRuntime.CloseIntents` | packages/coordination-runtime/src/runtime.ts:254-261 | the store moves by exactly the writes of the specified transaction and the caller gets its reply: closes the agent's active intents for the item, in listing order |
| `CoordinationRuntime.CoordinationRuntime.ReleaseScopes` | packages/coordination-runtime/src/runtime.ts:262-268 | the store moves by exactly the writes of the specified transaction and the caller gets its reply: releases the agent's scopes, in listing order |
| `CoordinationRuntime.CoordinationRuntime.ReleaseWaiting` | packages/coordination-runtime/src/runtime.ts:269-280 | the store moves by exactly the writes of the specified transaction and the caller gets its reply: makes the freed items ready, in listing order |
| `CoordinationRuntime.CoordinationRuntime.ApplyEvaluationDecision` | packages/coordination-runtime/src/runtime.ts:286-310 | the store moves by exactly the writes of the specified transaction and the caller gets its reply: carries a stored decision over to the item it was taken for |
| `EvaluationRuntime.EvaluationRuntime.RegisterSpec` | packages/evaluation-runtime/src/runtime.ts:33-42 | the store moves by exactly the writes of the specified transaction: criteria are checked and stored under a new identifier |
| `EvaluationRuntime.EvaluationRuntime.RequestRun` | packages/evaluation-runtime/src/runtime.ts:43-57 | the store moves by exactly the writes of the specified transaction: a run is requested for an item and its own specification |
| `EvaluationRuntime.EvaluationRuntime.RecordResult` | packages/evaluation-runtime/src/runtime.ts:77-100 | the store moves by exactly the writes of the specified transaction: a replayed result is answered from the store, a differing one refused, a new one stored only in an open run |
| `EvaluationRuntime.EvaluationRuntime.EvaluateCriterion` | packages/evaluation-runtime/src/runtime.ts:101-132 | the store moves by exactly the writes of the specified transaction: the registered evaluator's answer, or an error in its place |
| `EvaluationRuntime.EvaluationRuntime.StartRun` | packages/evaluation-runtime/src/runtime.ts:170-181 | the store moves by exactly the writes of the specified transaction: a pending run starts, once |
| `EvaluationRuntime.EvaluationRuntime.CompleteRun` | packages/evaluation-runtime/src/runtime.ts:133-157 | the store moves by exactly the writes of the specified transaction: the decision on the stored results is stored with the closed run |
| `FrameDecoder.ParseContentLength` | packages/lsp/src/frame-decoder.ts:20-34 | the loop over the header lines finds the one declared length, or fails as specified |
| `FrameDecoder.ContentLengthUnique` | packages/lsp/src/frame-decoder.ts:20-34 | a length is found exactly when some line declares one, no two lines do, and the value is a safe integer; it is that value |
| `FrameLaw.FieldExactly` | packages/lsp/src/frame-decoder.ts:23 | a line declares a length exactly when it is the name in whatever letter case, blanks, digits and blanks, and the length is the number of the digits |
| `FrameLaw.LinesExactly` | packages/lsp/src/frame-decoder.ts:22 | the header's lines hold no line end, and joined by line ends they are the header |
| `FrameLaw.HeaderVerdict` | packages/lsp/src/frame-decoder.ts:20-34 | which header is accepted and which error any other gives: missing without a length, invalid if the first is unsafe, duplicate if there is a second |
| `FrameDecoder.LspFrameDecoder.Push` | packages/lsp/src/frame-decoder.ts:45-76 | the loop that cuts the buffer returns what draining the old buffer with the chunk gives, and keeps the rest |
| `FrameDecoder.LspFrameDecoder.Reset` | packages/lsp/src/frame-decoder.ts:78-80 | forgets the buffered bytes |
| `FrameDecoder.DrainSound` | packages/lsp/src/frame-decoder.ts:45-76 | what was drained is a framing of a prefix of the bytes: each frame is a header that declares its body's length, a blank line, and the body; the rest is the remaining bytes |
| `FrameLaw.StopsExactly` | packages/lsp/src/frame-decoder.ts:45-76 | decoding stops without an error exactly when what is left waits for more bytes, and with each error exactly when what is left is a header without end beyond the bound, or one that declares no length, an unsafe one, a second one, or one over the limit |
| `FrameDecoder.DrainSplit` | packages/lsp/src/frame-decoder.ts:45-76 | draining some bytes and then the rest with more is draining all at once |
| `FrameDecoder.DrainErrorPersists` | packages/lsp/src/frame-decoder.ts:45-76 | bytes that fail still fail when more follow |
| `FrameDecoder.ChunkInvariance` | packages/lsp/src/frame-decoder.ts:45-76 | for every way of cutting a stream, the pushes succeed exactly when one push of the whole does and no unfinished header outgrows the bound at a cut; then frames and rest are the same |
| `FrameDecoder.RoundTrip` | packages/lsp/src/client.ts:326-327 | bodies within the limit, encoded one after the other and cut anywhere, come back exactly, and nothing is left in the buffer |
| `FrameDecoder.EncodedPrefixAccepted` | packages/lsp/src/frame-decoder.ts:45-76 | no cut of an encoded stream is ever rejected |
| `FrameDecoder.HeaderBoundDependsOnChunks` | packages/lsp/src/frame-decoder.ts:56-57 | the header bound depends on chunking: a stream that one push accepts and a push of its first bytes rejects |
| `BoundedRead.SafeUtf8Range` | packages/fs/src/bounded-read.ts:94-132 | on the retained bytes alone, the range starts at the last character boundary at or before the request and ends at the last one within the limit |
| `BoundedRead.SafeUtf16Range` | packages/fs/src/bounded-read.ts:141-170 | the same for UTF-16 from a boundary; from the middle of a pair it is told what the range still guarantees |
| `BoundedRead.PullBackFromPair` | packages/fs/src/bounded-read.ts:150-168 | the scan gives up the last unit exactly when it opens a pair that the window cuts |
| `TextWindow.Stream` | packages/fs/src/bounded-read.ts:222-248 | streaming in chunks keeps exactly the bytes around the window, recognises binary files by their first kilobyte, digests every byte, and passes the text of the body to the tracker |
| `TextWindow.TextMetadataTracker.Update` | packages/fs/src/bounded-read.ts:45-54 | whatever the pieces, the tracker notes of the text seen so far whether a newline follows a carriage return, whether one does not, and the last unit |
| `TextWindow.ReadBoundedFile` | packages/fs/src/bounded-read.ts:196-293 | for every file, offset and size the whole operation returns the specified error, or size, digest, encoding, line ends of the file's text, and text, place and successor of the specified window |
| `BoundedRead.AlignAndDecode` | packages/fs/src/bounded-read.ts:261-276 | the range is aligned on the retained bytes and refused exactly when it starts inside a surrogate pair and is wide enough to show it |
| `BoundedRead.PageIsAligned` | packages/fs/src/bounded-read.ts:94-170 | every returned window lies on character boundaries, is well-formed text of its own, and does not exceed the requested size, whatever the request |
| `BoundedRead.PageAdvances` | packages/fs/src/bounded-read.ts:274-276 | the offset to continue at lies behind the requested one, so paging ends |
| `BoundedRead.PagingTilesFile` | packages/fs/src/bounded-read.ts:196-293 | following the offsets from 0 returns adjacent windows that cover the whole text exactly when no character of the file is wider than a window |
| `BoundedRead.TilingFitsWidest` | packages/fs/src/bounded-read.ts:94-170 | windows that tile a file are at least as wide as its widest character |
| `BoundedRead.NarrowWindowsSkip` | packages/fs/src/bounded-read.ts:94-132 | a file of one character of three bytes, read two bytes at a time, comes in empty windows only |
| `TextWindow.PagedText` | packages/fs/src/bounded-read.ts:172-176 | when windows are wide enough, the texts of the pages add up to the file's text exactly when no page opens with the bytes of a byte-order mark, which the decoder would drop |
| `TextWindow.PagesArePacked` | packages/fs/src/bounded-read.ts:94-170 | pages begin where packing the file's characters greedily into the width puts them |
| `TextWindow.PagedTextExactly` | packages/fs/src/bounded-read.ts:172-176 | the same condition on the file and the width alone: no byte-order mark stands where a packed page begins |
| `TextWindow.MarklessTextIsPaged` | packages/fs/src/bounded-read.ts:172-176 | a file whose text holds no byte-order mark behind the first is had whole by paging, with windows of any sufficient width |
| `TextWindow.MarkLostBetweenPages` | packages/fs/src/bounded-read.ts:172-176 | three letters and a byte-order mark, read three bytes at a time: the mark is in the file's text and in no page |
| `TextWindow.FileTextLosesNothing` | packages/fs/src/bounded-read.ts:172-176 | encoding the decoded text again gives the bytes of the file, for UTF-8 and both orders of UTF-16 |
| `TextFiles.DetectionExactly` | packages/contracts/src/encoding.ts:20-33 | each encoding is detected exactly from its first bytes, and UTF-8 without a mark from any others |
| `TextFiles.MarkedTextIsRead` | packages/fs/src/bounded-read.ts:196-293 | every text without lone surrogates, in every encoding behind its byte-order mark, is detected as that encoding with the length of the mark, and read as that text |
| `TextFiles.ReadExactly` | packages/fs/src/bounded-read.ts:196-293 | a file is read under an encoding and as a text exactly when it is that text in that encoding, behind the mark or in UTF-8 without one, and not full of NULs |
| `TextFiles.RefusedExactly` | packages/fs/src/bounded-read.ts:205-258 | why any other file is refused: for its encoding when it is no text, as binary when it has no mark and more than one NUL in twenty of its first 1024 bytes, the size deciding when it is both |
| `TextFiles.PageFailsExactly` | packages/fs/src/bounded-read.ts:196-277 | why a request fails: for a size that is not from one byte to one mebibyte, for the file, or in UTF-16 because it begins inside a pair whose rest the window holds |
| `GraphSnapshot.NormalizeIsCanonical` | packages/graph-model/src/model.ts:267-299 | the result is ordered by unique identifiers, within both bounds, with clean parts and no edge to a missing node |
| `GraphSnapshot.NormalizeIdempotent` | packages/graph-model/src/model.ts:267-299 | normalising the result again changes nothing, and the result always validates |
| `GraphSnapshot.NormalizeOrderFree` | packages/graph-model/src/model.ts:267-299 | the result, or the failure, does not depend on the order in which nodes and edges are listed |
| `GraphSnapshot.TruncatedIsHonest` | packages/graph-model/src/model.ts:278-280 | the flag is set exactly when it was set before or a node or an edge was left out; otherwise the result has exactly the input's nodes and edges |
| `SnapshotLaw.AcceptedExactly` | packages/graph-model/src/model.ts:164-299 | which inputs are accepted: those whose texts, attributes, evidence and bounds are within the limits and whose identifiers are unique |
| `SnapshotLaw.TakenOver` | packages/graph-model/src/model.ts:225-299 | a snapshot takes over its header, the requested or usual bounds, and nodes and edges of the input in all their parts, only with their evidence in order |
| `SnapshotLaw.TruncatedExactly` | packages/graph-model/src/model.ts:267-299 | a snapshot is truncated exactly when its input was, or has more nodes or edges than the bounds allow, or an edge that leads out of it |
| `GraphSnapshot.CutsFromTheEnd` | packages/graph-model/src/model.ts:272-279 | what is cut comes after what is kept, and as much is kept as the bounds allow, for the nodes and for the edges between kept nodes |
| `GraphSnapshot.CanonicalValidates` | packages/graph-model/src/model.ts:380-398 | every snapshot in canonical form passes validation |
| `SnapshotLaw.ValidatesExactly` | packages/graph-model/src/model.ts:380-399 | a snapshot passes validation exactly when it is within the limits and normalisation would leave nothing out |
| `GraphTrace.BuildAdjacency` | packages/graph-model/src/model.ts:308-313 | the loop files every edge under its source, in order |
| `GraphTrace.Search` | packages/graph-model/src/model.ts:315-333 | breadth-first search ends; a reached goal lies at its distance, and an unreached one leaves no reached node below the bound with an edge unfollowed |
| `GraphTrace.Expand` | packages/graph-model/src/model.ts:323-332 | one turn keeps the tree and the layers and follows every edge of the current node, unless it reaches the goal |
| `GraphTrace.WalkIsCovered` | packages/graph-model/src/model.ts:322-333 | a walk no longer than the current layer ends at a reached node, at no greater depth than its length |
| `GraphTrace.Backtrack` | packages/graph-model/src/model.ts:339-347 | following the parents back selects the nodes and edges of a walk as long as the goal is deep |
| `GraphTrace.TraceGraphSnapshot` | packages/graph-model/src/model.ts:301-378 | found exactly when the canonical snapshot has a walk within the bound; the selected edges form a shortest one; the frontier flag is set exactly when some node at distance equal to the bound has an edge |
| `TraceLaw.AnswerableExactly` | packages/graph-model/src/model.ts:301-306 | which requests are searched: acceptable snapshot, two identifiers, a depth from 1 to 8 |
| `TraceLaw.AnsweredExactly` | packages/graph-model/src/model.ts:349-359 | a request that is searched gets no answer exactly when the bounds it asks for are out of range or what it would list has longer attributes than they allow |
| `TraceLaw.TraceTells` | packages/graph-model/src/model.ts:301-378 | what an answer tells: the request and the snapshot it took over, found exactly when the goal is within the depth bound, and truncated exactly when the snapshot was, or the shortest walk or the ends do not fit the bounds, or some edge leaves a node at the depth bound of a search that found nothing |
| `GraphTrace.FoundShowsPath` | packages/graph-model/src/model.ts:338-377 | a positive answer that is not truncated lists exactly the edges and nodes of a shortest walk |
| `GraphTrace.NotFoundIsConclusive` | packages/graph-model/src/model.ts:363-376 | a negative answer that is not truncated means that the input's own edges hold no walk of any length |
| `GraphTrace.AnsweredUnderOwnBounds` | packages/graph-model/src/model.ts:354-362 | without bounds of its own a valid request is always answered |
| `Sorting.SortCanonical` | packages/graph-model/src/model.ts:272-277 | sorting by unique keys does not depend on the order of its input |
| `Sorting.LessTransitive` | packages/graph-model/src/model.ts:164-166 | the order of texts by code unit is transitive |
| `Sorting.LessExactly` | packages/graph-model/src/model.ts:164-166 | a text comes before another when it is a proper beginning of it or has the smaller code unit at the first difference |
| `Json.StableJsonDecides` | packages/change-runtime/src/admission-subject.ts:45-52 | texts are equal exactly when the values are equal up to the order of object keys, an absent value counting as null |
| `Json.Unambiguous` | packages/change-runtime/src/admission-subject.ts:45-52 | no value's text is the beginning of another's in any context: from equal texts the values and what follows them are read back equal |
| `Json.QuoteUnambiguous` | packages/change-runtime/src/admission-subject.ts:48 | a quoted text ends where its closing quote stands, for all texts, lone surrogates included |
| `JsonGrammar.EscapeReadsBack` | packages/change-runtime/src/admission-subject.ts:48 | read by the string grammar of RFC 8259, section 7, a quoted text is the text |
| `JsonGrammar.PrintsJson` | packages/change-runtime/src/admission-subject.ts:46-52 | what is printed is, by the grammar of RFC 8259, a JSON text of the value, its members in the order of their keys |
| `Json.StableJsonPaired` | packages/change-runtime/src/receipt.ts:11-13 | the text has no lone surrogate, so hashing its UTF-8 bytes is hashing the text |
| `Receipt.MadeReceiptVerifies` | packages/change-runtime/src/receipt.ts:15-40 | a receipt the runtime makes verifies |
| `ReceiptLaw.ReceiptRecords` | packages/change-runtime/src/receipt.ts:15-34 | what a made receipt records, key by key: each argument under its key, an optional one exactly if it is given, the outputs also as resources, verified exactly when applied, the digest of the outputs it lists, the digest of everything else, and no other key |
| `Receipt.SealVerifies` | packages/change-runtime/src/receipt.ts:33-40 | so does everything sealed in the same way |
| `Receipt.TamperingIsRejected` | packages/change-runtime/src/receipt.ts:36-40 | a receipt that carries a verified receipt's digest verifies exactly when all its other members are the same up to their order |
| `ReceiptPrinter.PrintersAgreeExactly` | packages/change-runtime/src/receipt.ts:5-9 | the receipts' copy of the printer prints what the shared one prints exactly for the values in which nothing is absent at any depth |
| `ReceiptPrinter.AbsentItemVanishes` | packages/change-runtime/src/receipt.ts:5-9 | an absent item of an array leaves no trace in the text of the receipts' copy |
| `AdmissionSubject.CanonicalizeAdmissionSubject` | packages/change-runtime/src/admission-subject.ts:87-111 | the loop over the sorted changes rejects exactly the subjects with a path twice |
| `SubjectLaw.ChangeFate` | packages/change-runtime/src/admission-subject.ts:72-85 | what becomes of a change, told by the input alone: dropped exactly when its paths are acceptable and one is in the provenance directory; rejected exactly when a path is not acceptable or, elsewhere, mode, old path, blob identifier or absence is faulty; otherwise kept with its status, mode, spelled paths and lower-case blob identifier |
| `SubjectLaw.PathExactly` | packages/change-runtime/src/admission-subject.ts:54-61 | a path is accepted exactly when it has 1 to 4096 units, holds no NUL, and no part between slashes is empty, `.` or `..`; it is then composed and has forward slashes |
| `SubjectLaw.CanonicalExactly` | packages/change-runtime/src/admission-subject.ts:87-100 | there is a subject exactly when the identifiers are of the right form, no change is rejected, and no two wanted changes are spelled alike |
| `SubjectLaw.SubjectContents` | packages/change-runtime/src/admission-subject.ts:91-100 | the changes of a subject are exactly the wanted changes of the input, each as it is recorded, no path twice, in the order in which path, old path, status, mode and result collate |
| `SubjectLaw.SubjectIsRecorded` | packages/change-runtime/src/admission-subject.ts:101-110 | the digest is that of a text that records, member by member, the schema, the identity, the commits in lower case, and each change in order |
| `AdmissionSubject.OrderMatters` | packages/change-runtime/src/admission-subject.ts:87-111 | two deletions whose names differ by a control character give two digests, one for each order in which they are listed |
| `AdmissionSubject.OrderFreeExactly` | packages/change-runtime/src/admission-subject.ts:91-100 | listing the changes in another order gives the same subject exactly when it is rejected or no two kept changes collate as equals |
| `AdmissionSubject.RejectionIsOrderFree` | packages/change-runtime/src/admission-subject.ts:72-100 | whether a subject is rejected does not depend on the order of its changes |
| `AdmissionSubject.SortStable` | packages/change-runtime/src/admission-subject.ts:91-95 | changes that collate as equals stay in the order in which they were listed |
| `AdmissionSubject.DigestIdentifiesSubject` | packages/change-runtime/src/admission-subject.ts:101-110 | equal digests come only from equal subjects |
| `Impact.BuildIndex` | packages/impact-engine/src/engine.ts:65-75 | the loop files every allowed edge under both its ends |
| `Impact.GraphTraversal` | packages/impact-engine/src/engine.ts:63-113 | what is found is within the depth bound and no more than the size bound or the targets; the flag is set exactly when something within the depth bound was left out; targets score 95, others 1 to 80; each reason tells of a real walk and of its last step, with what that step is worth; when nothing was left out, every score is the best step, and every step from an entity nearer than the bound is told by a reason |
| `Impact.StepExactly` | packages/impact-engine/src/engine.ts:69-95 | impact goes along an edge exactly when its kind is allowed, it is sure enough and the other end is known: from container to contained, and otherwise from what is depended on to what depends on it |
| `Impact.VisitFirst` | packages/impact-engine/src/engine.ts:80-111 | one turn keeps the layers and either shrinks the queue or finds something new |
| `Impact.Expand` | packages/impact-engine/src/engine.ts:87-110 | following the edges of an entity raises, adds or leaves out, and keeps what is recorded sound |
| `Impact.WayIsCovered` | packages/impact-engine/src/engine.ts:80-111 | a walk of impact no longer than the current layer ends at a found entity |
| `Impact.ScoreIsBest` | packages/impact-engine/src/engine.ts:96-101 | when nothing was left out, a score is the highest over all steps from entities nearer than the bound |
| `ImpactReport.MergeReasons` | packages/impact-engine/src/engine.ts:48-56 | the loop keeps one reason per key, and ranks them |
| `ImpactReport.MergedReasons` | packages/impact-engine/src/engine.ts:48-56 | merging invents nothing, keeps for each code and explanation the best-scoring reason and no other, and orders by score and code |
| `ImpactReport.AffectedAgents` | packages/impact-engine/src/engine.ts:150-159 | an agent is affected exactly through the affected items assigned to it, with the highest of their scores and all their reasons merged; the list holds each such agent once, by score and then by identifier |
| `ImpactReport.AgentReasons` | packages/impact-engine/src/engine.ts:150-159 | an agent's reasons come from its affected items, with the best of each kind, ranked |
| `CodeIndex.MergeDeltas` | packages/code-state/src/delta.ts:8-28 | the loops give the keyed union of the providers' deltas: for each key the place of the first and the value of the last |
| `CodeIndexLaw.MergedExactly` | packages/code-state/src/delta.ts:8-28 | in the merge each key stands once, where it was first reported, with what was last reported under it; of entities, edges and removed keys |
| `CodeIndexLaw.IndexedEdges` | packages/code-state/src/indexer.ts:45-71 | in memory and in the store, after a file is indexed, an edge that was reported is as it was last reported, and any other is there exactly as before unless an end of it was touched |
| `CodeIndex.MemoryMirrorsStore` | packages/code-state/src/indexer.ts:33-110 | after every run of indexing and invalidation memory and store hold the same entities; the memory's edges are among the store's, and equal when nothing was invalidated |
| `CodeIndex.IndexKeepsMirror` | packages/code-state/src/indexer.ts:45-71 | indexing a file keeps memory and store in step, and keeps equal edges equal |
| `CodeIndex.InvalidateKeepsMirror` | packages/code-state/src/indexer.ts:82-109 | invalidation keeps the entities in step; equal edges stay equal exactly when every dangling edge of the store has an end among the rows that the call invalidates |
| `CodeIndex.SweptFromMemoryOnly` | packages/code-state/src/indexer.ts:90-93 | a run after which the store holds an edge that the memory has swept |
| `CodeIndex.EntitiesAreLatest` | packages/code-state/src/indexer.ts:45-57 | over any run of calls whose entities carry the path their key names: after each call the entities are, under every key, what the latest call for the key's path reported, exactly when each call, looking at the index before it, reports or removes nothing of another path that would change what is held |
| `CodeIndex.NextHoldsLatest` | packages/code-state/src/indexer.ts:45-110 | the same for one call, of either kind, from any index that holds the latest reports |
| `CodeIndex.CoherentCallsKeepLatest` | packages/code-state/src/indexer.ts:38-57 | calls in which the providers agree on the path meet that condition, whatever the index holds |
| `CodeIndex.InterleavingIsFree` | packages/code-state/src/indexer.ts:33-110 | runs that meet that condition and have the same latest report for every path end with the same entities, whatever the interleaving |
| `CodeIndex.StaleAfterFailedProvider` | packages/code-state/src/indexer.ts:38-52 | the latest report does not always replace the earlier: when the first provider fails and the path was not written canonically, stale entities stay beside new ones |
| `CodeIndex.StoreDropsTouched` | packages/coordination-store/src/projections.ts:203-220 | the store's deletions, by path and then key by key, remove exactly the touched rows and the edges that touch them |
| `CodeIndex.CodeStateIndexer.IndexFile` | packages/code-state/src/indexer.ts:33-73 | memory and store are updated in place as specified |
| `CodeIndex.CodeStateIndexer.Invalidate` | packages/code-state/src/indexer.ts:82-110 | memory and store are updated in place as specified |
| `CodeIndex.CodeStateIndexer.Load` | packages/code-state/src/indexer.ts:22-31 | loading mirrors the rows that the queries return, which are all rows exactly up to the queries' limits |
| `CodeIndex.CodeStore.ApplyCodeStateDelta` | packages/coordination-store/src/projections.ts:203-261 | the statements, one after the other, come to the specified update |
| `ContextRouter.Route` | packages/context-router/src/router.ts:39-90 | the loop hands out, up to where it stops, exactly the deliverable events of each priority in order, with the cursor of that place, and is truncated exactly when it stops before the end |
| `ContextRouter.RouteDelivers` | packages/context-router/src/router.ts:52-90 | before the place where routing stops, the first event of each identifier is handed out exactly when it is not superseded in the page and names the agent, concerns an item of interest, or tells of an impact on either; and with high priority exactly in the listed cases |
| `ContextRouter.RoutingMeans` | packages/context-router/src/router.ts:57-79 | which events are routed, with which priority, and for which reason |
| `ContextRouter.CursorMeans` | packages/context-router/src/router.ts:49-90 | of consecutive events exactly those before the stop are up to the cursor, and after a truncated answer the next one is the first not looked at |
| `ContextRouter.StopsAsLateAsPossible` | packages/context-router/src/router.ts:80-87 | what is delivered fits the byte limit, and where routing stops before the event limit the next deliverable event would not fit |
| `ContextRouter.SupersededArtifactIds` | packages/context-router/src/router.ts:28-36 | collects exactly the artifacts that the page supersedes |
| `ContextRouter.NeverStopsEarly` | packages/context-router/src/router.ts:81-84 | a page within both limits is routed to its end |
| `ContextRouter.PickCount` | packages/context-router/src/router.ts:86 | the two lists together hand out each deliverable event once |
| `Sync.ListEvents` | packages/coordination-store/src/sqlite-store.ts:111-155 | the paging loop returns the specified page, or fails |
| `Sync.PageIsLongest` | packages/coordination-store/src/sqlite-store.ts:136-153 | a number of events after the cursor is within both limits exactly when the page holds that many, and more remain exactly when the page is not all of them |
| `Sync.PrintersMakeRoutedShorter` | packages/context-router/src/router.ts:11-13 | the router's measure of an event never exceeds the store's, because marking big integers only adds bytes |
| `Sync.Poll` | packages/coordination-runtime/src/runtime.ts:206-221 | a poll returns what paging and routing specify |
| `Sync.PollDeliversPage` | packages/coordination-runtime/src/runtime.ts:206-221 | a poll fails exactly when the next event alone exceeds the byte limit; otherwise it delivers exactly the deliverable events of its page, moves on at least one event unless the log is read, and says truly whether more remain |
| `Sync.PollReadsLongest` | packages/coordination-runtime/src/runtime.ts:206-221 | a poll reads as far as both its limits allow |
| `Sync.PollFailsExactly` | packages/coordination-store/src/sqlite-store.ts:111-148 | a poll fails exactly when a limit is out of range, by default 100 events and 256 KiB, or the first event alone exceeds the bytes |
| `Sync.EachEventIsRead` | packages/coordination-runtime/src/runtime.ts:187-222 | over any sequence of polls, with any limits and interests, against a growing log, each sequence between the first and the last cursor is read by some poll |
| `Sync.NoEventReadTwice` | packages/coordination-runtime/src/runtime.ts:187-222 | and by no other |
| `Sync.ReadPageIsDelivered` | packages/coordination-runtime/src/runtime.ts:187-222 | the poll that reads an event hands out its whole page of the log, filtered by its own interests and the page's own suppressions |
| `Sync.PollingReachesEnd` | packages/coordination-runtime/src/runtime.ts:187-222 | when every event fits, polling reaches the end of the log after at most as many polls as events remain |
| `RequestLimiter.RunKeepsInv` | packages/mcp-adapter/src/stdio.ts:42-89 | over every run of acquire, release and abort: holders number exactly the active count and never exceed the slots, nobody waits while a slot is free, the queue is bounded, and the requests not rejected are, in order of arrival, those granted and then those waiting |
| `RequestLimiter.SettledOnce` | packages/mcp-adapter/src/stdio.ts:51-88 | a settled request stays settled as it was |
| `RequestLimiter.SlotIsPassedOn` | packages/mcp-adapter/src/stdio.ts:75-88 | a freed slot goes to the first waiter that is not aborted, and stays free only when there is none; the recursion ends |
| `RequestLimiter.AcquireDecides` | packages/mcp-adapter/src/stdio.ts:51-73 | a request is rejected at once exactly when its signal is aborted, granted exactly when a slot is free, refused exactly when none is and the queue is full, and otherwise waits last |
| `RequestLimiter.AbortDecides` | packages/mcp-adapter/src/stdio.ts:63-68 | an aborted waiter is rejected and leaves the queue, and nobody else does |
| `RequestLimiter.ReleaseSettles` | packages/mcp-adapter/src/stdio.ts:75-88 | a freed slot rejects the aborted waiters in front and is granted to the first other one |
| `RequestLimiter.ReleaseSpares` | packages/mcp-adapter/src/stdio.ts:75-88 | and settles nobody else |
| `RequestLimiter.RequestLimiter.AcquireSlot` | packages/mcp-adapter/src/stdio.ts:51-73 | the fields move as specified, and the caller learns whether it was granted, rejected or waits |
| `RequestLimiter.RequestLimiter.ReleaseSlot` | packages/mcp-adapter/src/stdio.ts:75-88 | the fields move as specified for one release of a grant |
| `RequestLimiter.RequestLimiter.AbortWaiter` | packages/mcp-adapter/src/stdio.ts:63-68 | the listener of a waiting request removes and rejects it |
| `TextLines.LinesConcat` | packages/vcs/src/fallback.ts:284-293 | splitting a text piece by piece gives the lines of the whole |
| `DiffCollector.CollectDiff` | packages/vcs/src/fallback.ts:247-318 | for every chunking the result is that of the stream, or fails exactly when the stream exceeds the output limit |
| `DiffCollector.DiffMeaning` | packages/vcs/src/fallback.ts:247-318 | counts are those of the whole diff; inline lines are a selection in order, complete when not truncated; truncated exactly when the number of lines, their bytes or, with an artifact store, the stream exceed a limit; the artifact exists exactly when truncated and is the whole stream |
| `DiffCollector.OverflowExactly` | packages/vcs/src/fallback.ts:295-307 | lines are left out exactly when there are more than the limit or they take more bytes than the limit |
| `DiffCollector.InlineIsPrefixExactly` | packages/vcs/src/fallback.ts:295-307 | the inline lines are a beginning of the diff exactly when the lines can be cut at some place: those before it are within both limits, and no single line behind it fits any more |
| `DiffCollector.DiffIsPrefixExactly` | packages/vcs/src/fallback.ts:247-318 | the same for the result of a stream |
| `DiffCollector.InlineIsNotAPrefix` | packages/vcs/src/fallback.ts:300-306 | a stream of two lines under a bound of three bytes: the first line is left out and the second kept |
| `DiffCollector.DiffCollector.Append` | packages/vcs/src/fallback.ts:247-269 | a chunk moves the bytes into the prefix or the artifact and the text into the counters; the artifact always holds every byte so far |
| `DiffCollector.DiffCollector.Finish` | packages/vcs/src/fallback.ts:309-318 | ends with the result of the bytes seen |
| `FileSearch.SearchTextFile` | packages/search/src/fallback.ts:185-272 | for every file and every chunking the search takes the lines as it sees them: of those within the bound the first matching ones up to the limit are reported, each with its number among all lines, its column, exactly the lines within the bound before and after it, and all matching ones are counted; when no raw line exceeds the bound these are the lines of the file |
| `LineScan.ScanMeaning` | packages/search/src/fallback.ts:243-266 | piece by piece the buffer and the discarding flag come to what the whole text and the places of its cuts say of every line |
| `FileSearch.LineFates` | packages/search/src/fallback.ts:207-267 | a line that a newline ends is seen blank exactly when a chunk ends inside it with more than the bound of it read, and otherwise as it is (and skipped if beyond the bound); a last line without a newline is dropped exactly when it is beyond the bound, and then what the decoder held back of an unfinished character is seen in its place |
| `FileSearch.ChunksDecideExactly` | packages/search/src/fallback.ts:243-266 | a chunking shows the lines that one chunk would show exactly when no chunk ends, with more than the bound read, inside a line that a newline ends |
| `FileSearch.ChunksDecide` | packages/search/src/fallback.ts:243-266 | a file of one line beyond the bound: as one chunk nothing is found, as two an empty line that the file does not have |
| `FileSearch.SearchReports` | packages/search/src/fallback.ts:207-241 | line by line the search holds exactly the report of the lines so far |
| `FileSearch.FeedPending` | packages/search/src/fallback.ts:210-218 | the loop gives the line to every match that still lacks lines, and drops the others |
| `FileSearch.ConsumeLine` | packages/search/src/fallback.ts:207-241 | one line is counted, matched, fed and remembered as specified |
| `MutationMutex.RunKeepsInv` | packages/workspace-runtime/src/mutation-mutex.ts:27-46 | over every interleaving of callers: lock table, reads and writes keep their invariant |
| `MutationMutex.MutualExclusion` | packages/workspace-runtime/src/mutation-mutex.ts:39-45 | at most one body runs in a workspace |
| `MutationMutex.EntersInTurn` | packages/workspace-runtime/src/mutation-mutex.ts:28-39 | a body starts only when all that arrived before it in its workspace are done |
| `MutationMutex.TableMeans` | packages/workspace-runtime/src/mutation-mutex.ts:44 | the table has no entry for a workspace exactly when all its calls are done |
| `MutationMutex.NoDeadlock` | packages/workspace-runtime/src/mutation-mutex.ts:36-45 | while a call is unfinished, some call of its workspace that arrived no later can take a step |
| `MutationMutex.PublishesChain` | packages/change-runtime/src/publication.ts:8-22 | consecutive successful publishes to a path form a chain: the later found exactly the bytes that the earlier left, and its precondition named them |
| `MutationMutex.FinishDecides` | packages/change-runtime/src/publication.ts:8-22 | with reads as fresh as the lock keeps them, a body replaces the file exactly when its precondition holds of what the file holds then and the write goes through; a failed precondition is stale whatever the write would have done |
| `MutationMutex.MutationRuntime.Join` | packages/workspace-runtime/src/mutation-mutex.ts:28-37 | a caller enters the table behind the entry it found |
| `MutationMutex.MutationRuntime.Proceed` | packages/workspace-runtime/src/mutation-mutex.ts:39-41 | the body starts when the promise it awaits has resolved |
| `MutationMutex.MutationRuntime.ReadCurrent` | packages/change-runtime/src/publication.ts:11-16 | the body reads what the file holds now |
| `MutationMutex.MutationRuntime.Complete` | packages/change-runtime/src/publication.ts:17-21 | check, write, release and removal from the table, as specified |
| `ChangeBatch.ChangeRuntime.ApplyMany` | packages/change-runtime/src/runtime.ts:70-100 | the batch writes nothing when preflight fails; otherwise exactly the first n changes in path order are written, whatever other callers publish between any two reads or writes, and the receipt is APPLIED, PARTIAL or an error accordingly, with the versions that preflight read |
| `ChangeBatch.ChangeRuntime.PublishInOrder` | packages/change-runtime/src/runtime.ts:88-98 | n is the place of the first refused change; outputs and results are those of the changes written |
| `ChangeBatch.ChangeRuntime.Preflight` | packages/change-runtime/src/runtime.ts:102-121 | the loop reads each file when its turn comes, between what other callers publish, and reports the first duplicate path or failed precondition |
| `ChangeBatch.PreflightExactly` | packages/change-runtime/src/runtime.ts:102-121 | preflight finds nothing wrong exactly when no path comes twice and each precondition holds of what is read |
| `BatchLaw.FirstErrorExactly` | packages/change-runtime/src/runtime.ts:102-121 | preflight reports the first change that goes wrong: a duplicate path, or else a failed precondition |
| `BatchLaw.BatchStartsExactly` | packages/change-runtime/src/runtime.ts:70-75 | a batch starts exactly with 1 to 100 changes of distinct paths, met preconditions and one set of metadata, and reports what is missing in this order |
| `BatchLaw.SeenByPreflight` | packages/change-runtime/src/runtime.ts:70-121 | preflight sees what others publish before each read up to that of the first change that goes wrong, and nothing when the batch is of a wrong size |
| `BatchLaw.WrittenExactly` | packages/change-runtime/src/runtime.ts:88-98 | of each change written the precondition held when its turn came and the write went through; of the next, one or the other did not |
| `BatchLaw.LeavesExactly` | packages/change-runtime/src/runtime.ts:88-98 | without interference each path written holds its new content and every other path what it held before |
| `BatchLaw.ReceiptTells` | packages/change-runtime/src/runtime.ts:86-99 | the receipt tells what each path held, the new versions of those written, and of each what became of it; there is none exactly when the very first was refused |
| `BatchLaw.OrderTells` | packages/change-runtime/src/runtime.ts:73 | changes are written and listed in the order of their paths' collation |
| `ChangeBatch.AloneAllIsWritten` | packages/change-runtime/src/runtime.ts:70-100 | a batch that passes preflight, without interference or failing writes, is written whole |
| `Provenance.ManagedExactly` | packages/code-state/src/provenance.ts:130-156 | managed exactly when the change can be assessed and, of the receipts that produced the current version, the latest explains it |
| `Provenance.OtherVerdictsExactly` | packages/code-state/src/provenance.ts:130-156 | exactly when a verdict is exempt, stale or unmanaged |
| `ProvenanceLaw.VerdictRestsOn` | packages/code-state/src/provenance.ts:130-156 | what each of the ten reasons rests on, in the observation, the receipts and the receipt named, and which status goes with it |
| `Provenance.ManagedRestsOnReceipt` | packages/code-state/src/provenance.ts:159-185 | in every run a managed verdict rests on a registered receipt, verified, applied and in scope, with the observed version among its outputs and the previously observed one as its input |
| `Provenance.ManagedVerdictsChain` | packages/code-state/src/provenance.ts:171-185 | consecutive managed verdicts under one key link up: the later receipt starts from the version the earlier produced |
| `Provenance.UnchangedIsNotManaged` | packages/code-state/src/provenance.ts:135 | an unchanged observation is never managed |
| `Provenance.NormalizeAgain` | packages/code-state/src/provenance.ts:70-74 | normalising an accepted path again changes nothing exactly when the path does not start with `./` twice |
| `Provenance.NormalizeIsNotIdempotent` | packages/code-state/src/provenance.ts:70-74 | three spellings of a path: one leading `./` is taken off, not all |
| `Provenance.KeyAndReportedPath` | packages/code-state/src/provenance.ts:171-185 | an observation's verdict reports the path of its key exactly when the observed path does not start with `./` twice, or its key is no path |
| `Provenance.TwoKeysOnePath` | packages/code-state/src/provenance.ts:171-185 | two spellings are recorded under two keys and reported as one path, so that the second observation does not see the first: verdicts chain by key, not by reported path |
| `Provenance.ProvenanceReconciler.Register` | packages/code-state/src/provenance.ts:166-169 | the receipt joins those kept, and they are in order of time |
| `Provenance.ProvenanceReconciler.Judge` | packages/code-state/src/provenance.ts:171-185 | an observation is judged against what was last recorded under its key, and recorded |

## Left out

Whole parts of the repository:

- sockets, IPC, HTTP portal, stdio wiring, daemon start-up, user interface and theater, tree-sitter, language-server
  and git processes, file watching, attestation, policies, redaction: input and output, tables or foreign behaviour
- several projects in one store: all checks that a record belongs to the project, and cross-worktree ownership of code
  entities
- request parameter checks (lengths of titles, names of enumerations), timestamps, titles, summaries and other text
  that no decision depends on
- events of later features (`ImpactDetected`, `ChangeApplied` and others) enter the log as events without a
  projection; feedback packets and retry cycles; test-mode event insertion
- overflow of event sequences beyond the safe integers
- path canonicalisation, symbolic links, atomic rename and abort signals of publication: one check-and-write step
- deletion and expiry of sessions, of idempotency records and of audit records

Details of the modelled parts:

- ProtocolInvariants.RunKeepsInv: runs are legal when a new identifier is new also to what the caller sends along, so
  an item cannot name itself as its dependency.
- Acceptance.DecisionMeaning: the order of listed results and the explanatory texts are not modelled.
- EvaluationRuntime.EvaluationRuntime.RecordResult: a result's digest is its content, so a digest collision is not
  modelled.
- EvaluationRuntime.EvaluationRuntime.EvaluateCriterion: one turn of the loop; which criteria the loop passes over
  because they have results, cancellation, and the identifiers of error results are inputs.
- FrameDecoder.LspFrameDecoder.Push: the state of a decoder after an error is not specified.
- TextWindow.ReadBoundedFile: short reads and a file that changes while it is read are not modelled; that the strict
  streaming decoder throws is represented by its verdict on the whole body.
- GraphSnapshot.NormalizeIsCanonical: the JSON size of attributes is a parameter, and numbers are their finite
  literals.
- Json.StableJsonDecides: numbers are the literals that JavaScript prints for them, so numbers that print as null are
  null.
- Receipt.TamperingIsRejected: for values without `undefined`, on which alone the receipts' copy of the printer is
  unambiguous.
- AdmissionSubject.OrderFreeExactly: Unicode normalisation is a parameter, and collation is a parameter that maps each
  text to its sort key.
- Impact.GraphTraversal: the selection of targets by scope patterns and the graph version digest are not modelled;
  reasons explain by values, not by sentences.
- ImpactReport.AffectedAgents: the reasons that make a work item affected, the lists of items and of entities and the
  rounding of the confidence are not modelled.
- CodeIndex.EntitiesAreLatest: for providers whose entities carry the path that their stable key names, as those of
  the program do.
- CodeIndex.MemoryMirrorsStore: identifiers are the full digest of the stable key, of which the program keeps 48 bits.
- CodeIndex.CodeStateIndexer.Load: which rows the limited queries return beyond their limits is left open.
- Sync.Poll: the caller's interests are inputs; how they are read from the projections, and the blocker list of the
  answer, are not modelled.
- Sync.PrintersMakeRoutedShorter: leaves and keys are given by the bytes they print as, which the two printers share.
- DiffCollector.CollectDiff: the streaming decoder is any decoder that only adds to its output.
- FileSearch.SearchTextFile: matching is a parameter, and context sizes arrive capped; the test for binary files is
  not part of it.
- FileSearch.ChunksDecideExactly: the byte length of a text is a parameter that grows with the text and puts a single
  carriage return within the bound, as UTF-8 does.
- ChangeBatch.ChangeRuntime.Preflight: failing reads and the resolution of paths are not modelled.
- MutationMutex.PublishesChain: writers outside the process are not modelled.
- Provenance.ManagedExactly: exemption patterns and timestamp collation are parameters; reports are not modelled.
