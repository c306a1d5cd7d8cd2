/** The records that the coordination and evaluation runtimes keep. Identifiers of stored records are
    numbers: the source draws them at random, and only equality and a fixed listing order matter. */
module Contracts {
  import opened Wrappers

  type Id = nat

  const DEFAULT_LEASE_MS := 30_000

  datatype WorkItemState =
    | Ready | Claimed | Active | ImplementationComplete | AwaitingEvaluation | Accepted
    | NeedsRetry | ReviewRequired | Blocked | Done | Cancelled

  datatype WorkItem = WorkItem(
    id: Id,
    evaluationSpecId: Option<Id>,
    state: WorkItemState,
    assignee: Option<Id>,
    acceptedEvaluationRunId: Option<Id>,
    version: nat)

  datatype DependencyType = DependsOn | Blocks | Implements | Verifies

  datatype WorkDependency = WorkDependency(from: Id, to: Id, kind: DependencyType)

  datatype AgentSession = AgentSession(id: Id, expired: bool, heartbeatAt: int)

  datatype IntentState = IntentActive | IntentSuperseded | IntentCompleted | IntentCancelled

  datatype Intent = Intent(id: Id, agentSessionId: Id, workItemId: Option<Id>, state: IntentState)

  datatype Scope = Scope(id: Id, agentSessionId: Id, released: bool)

  datatype ContextArtifact = ContextArtifact(id: Id, author: Id, workItemId: Option<Id>, supersedes: Option<Id>)

  datatype EvaluationCriterion = EvaluationCriterion(id: string, required: bool, evaluatorRef: string)

  datatype EvaluationSpec = EvaluationSpec(id: Id, version: nat, criteria: seq<EvaluationCriterion>)

  datatype RunState = Pending | Running | Completed | RunCancelled | RunExpired

  datatype EvaluationRun = EvaluationRun(
    id: Id,
    specId: Id,
    specVersion: nat,
    workItemId: Id,
    repositoryStateRef: string,
    attempt: nat,
    state: RunState)

  datatype EvaluationOutcome = Pass | Fail | Error | Skipped | Inconclusive

  datatype EvidenceRef = EvidenceRef(provider: string, digest: string, targetStateRef: string)

  datatype Provenance = VerifiedProvider | ExternalUnverified

  datatype ResultInput = ResultInput(
    providerResultId: string,
    providerId: string,
    criterionId: string,
    outcome: EvaluationOutcome,
    evidence: seq<EvidenceRef>)

  /** A recorded result. Its digest is modelled by its content: a digest is equal when the content is. */
  datatype StoredResult = StoredResult(
    runId: Id,
    input: ResultInput,
    provenance: Provenance,
    declaredProviderId: Option<string>)

  datatype DecisionKind = DecisionAccepted | DecisionRejected | DecisionInconclusive | DecisionReviewRequired

  predicate SessionExpired(session: AgentSession, now: int) {
    session.expired || session.heartbeatAt + DEFAULT_LEASE_MS <= now
  }
}
