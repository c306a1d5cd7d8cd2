/** What every coordination and evaluation transaction writes and answers, as a function of the database. */
module Protocol {
  import opened Wrappers
  import opened Contracts
  import opened EventStore
  import opened Acceptance

  datatype Error =
    | ProjectNotFound
    | SessionNotFound
    | SessionExpiredError
    | WorkItemNotFound
    | WorkItemConflict
    | WorkItemBlockedBy(blockers: set<Id>)
    | InvalidArgument
    | SpecInvalid
    | ResultConflict
    | ResultInvalid
    | TargetStale
    | EvaluationNotAccepted
    | EvaluationInconclusive

  /** The writes a transaction commits (none when it is refused) and what its caller gets. */
  datatype Outcome<T> = Outcome(writes: seq<Write>, reply: Result<T, Error>)

  function Refuse<T>(e: Error): Outcome<T> { Outcome([], Failure(e)) }

  // ---------- Work graph ----------

  function DependenciesOf(id: Id, dependencies: set<WorkDependency>): set<WorkDependency> {
    set d | d in dependencies && d.from == id && d.kind == DependsOn
  }

  /** The items an item waits for: its dependencies that exist and are not done. */
  function Blockers(id: Id, dependencies: set<WorkDependency>, items: map<Id, WorkItem>): set<Id> {
    set d | d in DependenciesOf(id, dependencies) && d.to in items && items[d.to].state != Done :: d.to
  }

  function Bump(item: WorkItem, state: WorkItemState): WorkItem {
    item.(state := state, version := item.version + 1)
  }

  // ---------- Sessions ----------

  function SessionProblem(db: Db, agent: Id, now: int): Option<Error> {
    if agent !in db.sessions then Some(SessionNotFound)
    else if SessionExpired(db.sessions[agent], now) then Some(SessionExpiredError)
    else None
  }

  function Join(db: Db, sessionId: Id, now: int): Outcome<AgentSession> {
    var session := AgentSession(sessionId, false, now);
    Outcome((if db.projectOpen then [] else [Emit(ProjectOpened, OtherPayload)]) +
      [Emit(AgentJoined, SessionPayload(session))],
            Success(session))
  }

  /** The heartbeat transaction at the start of every sync. */
  function Heartbeat(db: Db, agent: Id, now: int): Outcome<AgentSession> {
    if SessionProblem(db, agent, now).Some? then Refuse(SessionProblem(db, agent, now).value)
    else
      var updated := db.sessions[agent].(heartbeatAt := now);
      Outcome([PutSession(updated)], Success(updated))
  }

  // ---------- Work items ----------

  /** A requested dependency; `from` may be left out. */
  datatype DependencyInput = DependencyInput(from: Option<Id>, to: Id, kind: DependencyType)

  function DependencyProblem(items: map<Id, WorkItem>, id: Id, ds: seq<DependencyInput>): Option<Error> {
    if ds == [] then None
    else if ds[0].from.Some? && ds[0].from.value != id then Some(InvalidArgument)
    else if ds[0].to !in items then Some(WorkItemNotFound)
    else DependencyProblem(items, id, ds[1..])
  }

  function DependencyWrites(id: Id, ds: seq<DependencyInput>): (ws: seq<Write>)
    ensures |ws| == |ds|
    ensures forall k :: 0 <= k < |ds| ==> ws[k] == PutDependency(WorkDependency(id, ds[k].to, ds[k].kind))
  {
    seq(|ds|, k requires 0 <= k < |ds| => PutDependency(WorkDependency(id, ds[k].to, ds[k].kind)))
  }

  function CreateWorkItem(db: Db, id: Id, spec: Option<Id>, ds: seq<DependencyInput>): Outcome<WorkItem> {
    var item := WorkItem(id, spec, Ready, None, None, 0);
    if !db.projectOpen then Refuse(ProjectNotFound)
    else if spec.Some? && spec.value !in db.specs then Refuse(SpecInvalid)
    else
      var problem := DependencyProblem(db.views.workItems[id := item], id, ds);
      if problem.Some? then Refuse(problem.value)
      else Outcome([Emit(WorkItemCreated, ItemPayload(item))] + DependencyWrites(id, ds), Success(item))
  }

  /** States a gated item is not claimed from. */
  predicate Settled(s: WorkItemState) {
    s == ImplementationComplete || s == AwaitingEvaluation || s == Accepted || s == ReviewRequired || s == Done
  }

  datatype ClaimInput = ClaimInput(agent: Id, workItem: Id, expectedVersion: nat, allowShared: bool)

  /** A claim that finds blockers still commits the blocked state before it fails. */
  function Claim(db: Db, input: ClaimInput, now: int): Outcome<WorkItem> {
    if SessionProblem(db, input.agent, now).Some? then Refuse(SessionProblem(db, input.agent, now).value)
    else if input.workItem !in db.views.workItems then Refuse(WorkItemNotFound)
    else
      var item := db.views.workItems[input.workItem];
      var blockers := Blockers(item.id, db.dependencies, db.views.workItems);
      var mine := item.(assignee := Some(input.agent));
      if item.assignee == Some(input.agent) && (item.state == Claimed || item.state == Active)
        then Outcome([], Success(item))
      else if item.version != input.expectedVersion then Refuse(WorkItemConflict)
      else if item.evaluationSpecId.Some? && Settled(item.state) then Refuse(WorkItemConflict)
      else if blockers != {} then
        Outcome(if item.state == Blocked then [] else [Emit(WorkItemBlocked, ItemPayload(Bump(mine, Blocked)))],
                Failure(WorkItemBlockedBy(blockers)))
      else if item.assignee.Some? && item.assignee.value != input.agent && !input.allowShared
        then Refuse(WorkItemConflict)
      else Outcome([Emit(WorkItemClaimed, ItemPayload(Bump(mine, Active)))], Success(Bump(mine, Active)))
  }

  function ItemProblem(db: Db, agent: Id, workItem: Option<Id>): Option<Error> {
    if workItem.None? then None
    else if workItem.value !in db.views.workItems then Some(WorkItemNotFound)
    else
      var item := db.views.workItems[workItem.value];
      if item.assignee.Some? && item.assignee.value != agent then Some(WorkItemConflict) else None
  }

  function DeclareIntent(db: Db, id: Id, agent: Id, workItem: Option<Id>, now: int): Outcome<Intent> {
    var intent := Intent(id, agent, workItem, IntentActive);
    if SessionProblem(db, agent, now).Some? then Refuse(SessionProblem(db, agent, now).value)
    else if ItemProblem(db, agent, workItem).Some? then Refuse(ItemProblem(db, agent, workItem).value)
    else Outcome([Emit(IntentDeclared, IntentPayload(intent))], Success(intent))
  }

  function Publish(db: Db, artifact: ContextArtifact, now: int): Outcome<ContextArtifact> {
    if SessionProblem(db, artifact.author, now).Some? then Refuse(SessionProblem(db, artifact.author, now).value)
    else if ItemProblem(db, artifact.author, artifact.workItemId).Some? then
      Refuse(ItemProblem(db, artifact.author, artifact.workItemId).value)
    else Outcome([Emit(ContextPublished, ArtifactPayload(artifact))], Success(artifact))
  }

  // ---------- Completion ----------

  function ClosedIntents(intents: map<Id, Intent>, ids: seq<Id>, agent: Id, workItem: Id): seq<Write>
    requires forall x :: x in ids ==> x in intents
  {
    if ids == [] then []
    else
      var n := |ids| - 1;
      var i := intents[ids[n]];
      ClosedIntents(intents, ids[..n], agent, workItem) +
      if i.agentSessionId == agent && i.workItemId == Some(workItem) && i.state == IntentActive
      then [Emit(EventType.IntentSuperseded, IntentPayload(i.(state := IntentCompleted)))] else []
  }

  function ReleasedScopes(scopes: map<Id, Scope>, ids: seq<Id>, agent: Id): seq<Write>
    requires forall x :: x in ids ==> x in scopes
  {
    if ids == [] then []
    else
      var n := |ids| - 1;
      var s := scopes[ids[n]];
      ReleasedScopes(scopes, ids[..n], agent) +
      if s.agentSessionId == agent && !s.released
      then [Emit(ScopeReleased, ScopePayload(s.(released := true)))] else []
  }

  /** A blocked item whose last blocker is gone. */
  predicate Releasable(items: map<Id, WorkItem>, dependencies: set<WorkDependency>, id: Id) {
    id in items && items[id].state == Blocked && Blockers(items[id].id, dependencies, items) == {}
  }

  function UnblockedItems(items: map<Id, WorkItem>, dependencies: set<WorkDependency>, ids: seq<Id>): seq<Write>
    requires forall x :: x in ids ==> x in items
  {
    if ids == [] then []
    else
      var n := |ids| - 1;
      UnblockedItems(items, dependencies, ids[..n]) +
      if Releasable(items, dependencies, ids[n])
      then [Emit(WorkItemUnblocked, ItemPayload(Bump(items[ids[n]], Ready)))] else []
  }

  /** Everything a finished item sets off: intents closed, scopes released, waiting items made ready. */
  function CompletionWrites(db: Db, item: WorkItem, agent: Id): seq<Write> {
    var completed := Bump(item, Done);
    var items := db.views.workItems[item.id := completed];
    [Emit(WorkItemCompleted, ItemPayload(completed))]
    + ClosedIntents(db.views.intents, SortedIds(db.views.intents.Keys), agent, item.id)
    + ReleasedScopes(db.views.scopes, SortedIds(db.views.scopes.Keys), agent)
    + UnblockedItems(items, db.dependencies, SortedIds(items.Keys))
  }

  function Complete(db: Db, agent: Id, workItem: Id, runId: Option<Id>): Outcome<WorkItem> {
    if workItem !in db.views.workItems then Refuse(WorkItemNotFound)
    else
      var item := db.views.workItems[workItem];
      var finish := Outcome(CompletionWrites(db, item, agent), Success(Bump(item, Done)));
      if item.assignee != Some(agent) then Refuse(WorkItemConflict)
      else if item.state == Done then Outcome([], Success(item))
      else if item.evaluationSpecId.None? then finish
      else if item.state == Accepted then
        if item.acceptedEvaluationRunId.None? then Refuse(EvaluationNotAccepted)
        else if runId.Some? && runId != item.acceptedEvaluationRunId then Refuse(EvaluationNotAccepted)
        else finish
      else if item.state == ReviewRequired then Refuse(EvaluationNotAccepted)
      else if item.state == AwaitingEvaluation then Outcome([], Success(item))
      else if item.state == ImplementationComplete then
        var awaiting := Bump(item, AwaitingEvaluation);
        Outcome([Emit(WorkItemAwaitingEvaluation, ItemPayload(awaiting))], Success(awaiting))
      else
        var complete := Bump(item, ImplementationComplete);
        var awaiting := Bump(complete, AwaitingEvaluation);
        Outcome([Emit(WorkItemImplementationComplete, ItemPayload(complete)),
                 Emit(WorkItemAwaitingEvaluation, ItemPayload(awaiting))], Success(awaiting))
  }

  function DecidedState(d: DecisionKind): (EventType, WorkItemState) {
    match d
    case DecisionAccepted => (WorkItemEvaluationAccepted, Accepted)
    case DecisionRejected => (WorkItemEvaluationRejected, NeedsRetry)
    case _ => (WorkItemEvaluationReviewRequired, ReviewRequired)
  }

  function ApplyDecision(db: Db, runId: Id): Outcome<WorkItem> {
    if runId !in db.runs || db.runs[runId].state != Completed then Refuse(EvaluationNotAccepted)
    else if runId !in db.decisions then Refuse(EvaluationInconclusive)
    else
      var run := db.runs[runId];
      if run.specId !in db.specs then Refuse(SpecInvalid)
      else if run.workItemId !in db.views.workItems then Refuse(WorkItemNotFound)
      else
        var item := db.views.workItems[run.workItemId];
        var (event, state) := DecidedState(db.decisions[runId]);
        var updated := Bump(if state == Accepted then item.(acceptedEvaluationRunId := Some(run.id)) else item, state);
        if item.evaluationSpecId.None? then Outcome([], Success(item))
        else if item.evaluationSpecId != Some(run.specId) then Refuse(SpecInvalid)
        else if item.state != AwaitingEvaluation then Refuse(EvaluationNotAccepted)
        else Outcome([Emit(event, ItemPayload(updated))], Success(updated))
  }

  // ---------- Evaluation ----------

  predicate ValidCriteria(cs: seq<EvaluationCriterion>) {
    && 1 <= |cs| <= 100
    && (forall i :: 0 <= i < |cs| ==> 1 <= |cs[i].id| <= 128 && 1 <= |cs[i].evaluatorRef| <= 256)
    && (forall i, j :: 0 <= i < j < |cs| ==> cs[i].id != cs[j].id)
  }

  function RegisterSpec(db: Db, id: Id, criteria: seq<EvaluationCriterion>): Outcome<EvaluationSpec> {
    var spec := EvaluationSpec(id, 1, criteria);
    if !ValidCriteria(criteria) then Refuse(InvalidArgument)
    else if !db.projectOpen then Refuse(ProjectNotFound)
    else Outcome([PutSpec(spec), Emit(EvaluationSpecRegistered, OtherPayload)], Success(spec))
  }

  function RequestRun(db: Db, id: Id, specId: Id, workItem: Id, target: string, attempt: nat): Outcome<EvaluationRun> {
    if specId !in db.specs then Refuse(SpecInvalid)
    else if workItem !in db.views.workItems then Refuse(WorkItemNotFound)
    else
      var item := db.views.workItems[workItem];
      var run := EvaluationRun(id, specId, db.specs[specId].version, workItem, target, attempt, Pending);
      if item.evaluationSpecId.Some? && item.evaluationSpecId.value != specId then Refuse(SpecInvalid)
      else if !(1 <= |target| <= 1024 && 1 <= attempt <= 100) then Refuse(InvalidArgument)
      else Outcome([PutRun(run), Emit(EvaluationRequested, OtherPayload)], Success(run))
  }

  function FindCriterion(cs: seq<EvaluationCriterion>, id: string): (r: Option<EvaluationCriterion>)
    ensures r.Some? ==> r.value in cs && r.value.id == id
    ensures r.None? ==> forall c :: c in cs ==> c.id != id
  {
    if cs == [] then None else if cs[0].id == id then Some(cs[0]) else FindCriterion(cs[1..], id)
  }

  const RUNTIME_PROVIDER := "evaluation-runtime"
  const EXTERNAL_PROVIDER := "external-evidence"
  const MAX_EVIDENCE_REFS := 50

  function ResultProblem(input: ResultInput, target: string): Option<Error> {
    if !(1 <= |input.providerResultId| <= 256 && 1 <= |input.providerId| <= 128 && |input.criterionId| <= 128) then
      Some(ResultInvalid)
    else if |input.evidence| > MAX_EVIDENCE_REFS then Some(ResultInvalid)
    else if exists e :: e in input.evidence && e.targetStateRef != target then Some(TargetStale)
    else if exists e :: e in input.evidence && !(1 <= |e.provider| <= 128 && 1 <= |e.digest| <= 256)
      then Some(ResultInvalid)
    else None
  }

  function RecordResult(
      db: Db, runId: Id, input: ResultInput, provenance: Provenance, declared: Option<string>): Outcome<StoredResult>
  {
    if runId !in db.runs then Refuse(SpecInvalid)
    else
      var run := db.runs[runId];
      if run.specId !in db.specs || db.specs[run.specId].version != run.specVersion then Refuse(SpecInvalid)
      else
        var criterion := FindCriterion(db.specs[run.specId].criteria, input.criterionId);
        var expected := if provenance.VerifiedProvider? then Some(input.providerId) else declared;
        var stored := StoredResult(runId, input, provenance, declared);
        if criterion.None? then Refuse(ResultConflict)
        else if provenance.VerifiedProvider? && input.providerId != RUNTIME_PROVIDER &&
                input.providerId != criterion.value.evaluatorRef then Refuse(ResultConflict)
        else if exists e :: e in input.evidence && Some(e.provider) != expected then Refuse(ResultConflict)
        else if ResultProblem(input, run.repositoryStateRef).Some? then
          Refuse(ResultProblem(input, run.repositoryStateRef).value)
        else if run.state == Completed then Refuse(ResultConflict)
        else if RecordKey(stored) in db.resultRecords then
          if db.resultRecords[RecordKey(stored)] != stored then Refuse(ResultConflict)
          else Outcome([], Success(stored))
        else Outcome([PutResult(stored), Emit(EvaluationResultRecorded, OtherPayload)], Success(stored))
  }

  function RecordExternal(db: Db, runId: Id, input: ResultInput, declared: Option<string>): Outcome<StoredResult> {
    RecordResult(db, runId, input.(providerId := EXTERNAL_PROVIDER), ExternalUnverified,
                 Some(if declared.Some? then declared.value else input.providerId))
  }

  /** What asking the evaluator of a criterion came to. */
  datatype Answer =
    | Unsupported
    | Threw
    | Answered(providerResultId: string, criterionId: string, outcome: EvaluationOutcome, evidence: seq<EvidenceRef>)

  /** The identifier under which the runtime records an error in an evaluator's place. */
  datatype FallbackIds = FallbackIds(unavailable: string, error: string)

  /** One turn of the evaluation loop: the registered evaluator of the criterion answers, or an error
      is recorded in its place. */
  function EvaluateCriterion(
      db: Db, providers: set<string>, runId: Id, index: nat, answer: Answer, ids: FallbackIds): Outcome<StoredResult>
  {
    if runId !in db.runs || db.runs[runId].specId !in db.specs then Refuse(SpecInvalid)
    else if index >= |db.specs[db.runs[runId].specId].criteria| then Refuse(InvalidArgument)
    else
      var c := db.specs[db.runs[runId].specId].criteria[index];
      if c.evaluatorRef !in providers || answer.Unsupported? then
        RecordResult(db, runId, ResultInput(ids.unavailable, RUNTIME_PROVIDER, c.id, Error, []), VerifiedProvider, None)
      else
        var failed := RecordResult(db, runId, ResultInput(ids.error, c.evaluatorRef, c.id, Error, []), VerifiedProvider,
            None);
        if answer.Threw? || answer.criterionId != c.id then failed
        else
          var recorded := RecordResult(db, runId,
            ResultInput(answer.providerResultId, c.evaluatorRef, c.id, answer.outcome, answer.evidence),
              VerifiedProvider, None);
          if recorded.reply.Failure? then failed else recorded
  }

  function StartRun(db: Db, runId: Id): Outcome<EvaluationRun> {
    if runId !in db.runs then Refuse(SpecInvalid)
    else if db.runs[runId].state != Pending then Outcome([], Success(db.runs[runId]))
    else
      var started := db.runs[runId].(state := Running);
      Outcome([PutRun(started), Emit(EvaluationStarted, OtherPayload)], Success(started))
  }

  function ResultsOf(results: map<(Id, string, string), StoredResult>, runId: Id): set<StoredResult> {
    set k | k in results && k.0 == runId :: results[k]
  }

  function CompleteRun(db: Db, runId: Id): Outcome<EvaluationRun> {
    if runId !in db.runs || db.runs[runId].specId !in db.specs then Refuse(SpecInvalid)
    else
      var run := db.runs[runId];
      if run.state == Completed then Outcome([], Success(run))
      else
        var decision := Decide(db.specs[run.specId], run.repositoryStateRef, ResultsOf(db.results, runId));
        var completed := run.(state := Completed);
        Outcome([PutDecision(runId, decision), PutRun(completed),
                 Emit(EvaluationCompleted, OtherPayload), Emit(AcceptanceDecided, OtherPayload)], Success(completed))
  }

  // ---------- Runs of the system ----------

  datatype Op =
    | OpJoin(session: Id, now: int)
    | OpHeartbeat(agent: Id, now: int)
    | OpCreate(id: Id, spec: Option<Id>, dependencies: seq<DependencyInput>)
    | OpClaim(claim: ClaimInput, now: int)
    | OpIntent(id: Id, agent: Id, workItem: Option<Id>, now: int)
    | OpScope(scope: Scope)
    | OpPublish(artifact: ContextArtifact, now: int)
    | OpComplete(agent: Id, item: Id, runId: Option<Id>)
    | OpApplyDecision(run: Id)
    | OpUnprojected(name: string)
    | OpRegisterSpec(id: Id, criteria: seq<EvaluationCriterion>)
    | OpRequestRun(id: Id, specId: Id, item: Id, target: string, attempt: nat)
    | OpRecordExternal(run: Id, input: ResultInput, declared: Option<string>)
    | OpEvaluate(run: Id, index: nat, answer: Answer, ids: FallbackIds)
    | OpStartRun(run: Id)
    | OpCompleteRun(run: Id)

  function WritesOf(db: Db, providers: set<string>, op: Op): seq<Write> {
    match op
    case OpJoin(s, now) => Join(db, s, now).writes
    case OpHeartbeat(a, now) => Heartbeat(db, a, now).writes
    case OpCreate(id, spec, ds) => CreateWorkItem(db, id, spec, ds).writes
    case OpClaim(c, now) => Claim(db, c, now).writes
    case OpIntent(id, a, item, now) => DeclareIntent(db, id, a, item, now).writes
    case OpScope(s) => [Emit(ScopeDeclared, ScopePayload(s))]
    case OpPublish(artifact, now) => Publish(db, artifact, now).writes
    case OpComplete(a, item, run) => Complete(db, a, item, run).writes
    case OpApplyDecision(run) => ApplyDecision(db, run).writes
    case OpUnprojected(name) => [Emit(UnprojectedEvent(name), OtherPayload)]
    case OpRegisterSpec(id, cs) => RegisterSpec(db, id, cs).writes
    case OpRequestRun(id, spec, item, target, attempt) => RequestRun(db, id, spec, item, target, attempt).writes
    case OpRecordExternal(run, input, declared) => RecordExternal(db, run, input, declared).writes
    case OpEvaluate(run, index, answer, ids) => EvaluateCriterion(db, providers, run, index, answer, ids).writes
    case OpStartRun(run) => StartRun(db, run).writes
    case OpCompleteRun(run) => CompleteRun(db, run).writes
  }

  function Next(db: Db, providers: set<string>, op: Op): Db { ApplyAll(db, WritesOf(db, providers, op)) }

  /** Randomly drawn identifiers are new, also to whatever the caller sent along. */
  predicate Fresh(db: Db, op: Op) {
    match op
    case OpJoin(s, _) => s !in db.sessions
    case OpCreate(id, _, ds) => id !in db.views.workItems && forall k :: 0 <= k < |ds| ==> ds[k].to != id
    case OpIntent(id, _, _, _) => id !in db.views.intents
    case OpScope(s) => s.id !in db.views.scopes
    case OpPublish(a, _) => a.id !in db.views.artifacts
    case OpRegisterSpec(id, _) => id !in db.specs
    case OpRequestRun(id, _, _, _, _) => id !in db.runs
    case _ => true
  }

  /** Any interleaving of transactions, starting from any database. */
  predicate Legal(db: Db, providers: set<string>, ops: seq<Op>)
    decreases |ops|
  {
    ops == [] || (Fresh(db, ops[0]) && Legal(Next(db, providers, ops[0]), providers, ops[1..]))
  }

  function Run(db: Db, providers: set<string>, ops: seq<Op>): Db
    decreases |ops|
  {
    if ops == [] then db else Run(Next(db, providers, ops[0]), providers, ops[1..])
  }
}
