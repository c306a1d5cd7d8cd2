/** What every transaction makes of sessions, intents, scopes and published context, told by the tables it finds. */
module SessionLaw {
  import opened Wrappers
  import opened Contracts
  import opened EventStore
  import opened EventLog
  import opened Acceptance
  import opened Protocol
  import opened ProtocolInvariants
  import opened ProtocolTheorems
  import opened FinishedItems
  import opened EvaluationLaw
  import opened WorkItemLaw

  // ---------- The law ----------

  /** The session may speak for the item: none is named, or it exists and nobody else holds it. */
  predicate MaySpeak(db: Db, agent: Id, workItem: Option<Id>) {
    workItem.Some? ==> workItem.value in db.views.workItems && Unheld(db.views.workItems[workItem.value], agent)
  }

  function SessionsAfter(db: Db, op: Op): map<Id, AgentSession> {
    if op.OpJoin? then db.sessions[op.session := AgentSession(op.session, false, op.now)]
    else if op.OpHeartbeat? && Live(db, op.agent, op.now) then
      db.sessions[db.sessions[op.agent].id := AgentSession(db.sessions[op.agent].id, false, op.now)]
    else db.sessions
  }

  predicate Declares(db: Db, op: Op) {
    op.OpIntent? && Live(db, op.agent, op.now) && MaySpeak(db, op.agent, op.workItem)
  }

  predicate FinishesAny(db: Db, op: Op) {
    op.OpComplete? && op.item in db.views.workItems && MayFinish(db.views.workItems[op.item], op.agent, op.runId)
  }

  /** A declared intent is active; a finished item completes its holder's active intents for it. */
  function IntentsThen(db: Db, op: Op): map<Id, Intent> {
    if Declares(db, op) then db.views.intents[op.id := Intent(op.id, op.agent, op.workItem, IntentActive)]
    else if FinishesAny(db, op) then
      map x | x in db.views.intents ::
        var i := db.views.intents[x];
        if i.agentSessionId == op.agent && i.workItemId == Some(op.item) && i.state == IntentActive
        then i.(state := IntentCompleted) else i
    else db.views.intents
  }

  /** A finished item releases its holder's scopes. */
  function ScopesThen(db: Db, op: Op): map<Id, Scope> {
    if op.OpScope? then db.views.scopes[op.scope.id := op.scope]
    else if FinishesAny(db, op) then
      map x | x in db.views.scopes ::
        var s := db.views.scopes[x];
        if s.agentSessionId == op.agent then s.(released := true) else s
    else db.views.scopes
  }

  function ArtifactsThen(db: Db, op: Op): map<Id, ContextArtifact> {
    if op.OpPublish? && Live(db, op.artifact.author, op.now) && MaySpeak(db, op.artifact.author, op.artifact.workItemId)
    then db.views.artifacts[op.artifact.id := op.artifact] else db.views.artifacts
  }

  ghost predicate SidesFollow(db: Db, op: Op, next: Db) {
    && next.projectOpen == (db.projectOpen || op.OpJoin?) && next.sessions == SessionsAfter(db, op)
    && next.views.intents == IntentsThen(db, op) && next.views.scopes == ScopesThen(db, op)
    && next.views.artifacts == ArtifactsThen(db, op)
  }

  // ---------- Which tables a write touches ----------

  datatype Table = Project | Sessions | Intents | Scopes | Artifacts

  function Touched(w: Write): set<Table> {
    match w
    case Emit(t, _) =>
      if t.ProjectOpened? then {Project}
      else if t.AgentJoined? then {Sessions}
      else if t.IntentDeclared? || t.IntentSuperseded? then {Intents}
      else if t.ScopeDeclared? || t.ScopeReleased? then {Scopes}
      else if t.ContextPublished? then {Artifacts}
      else {}
    case PutSession(_) => {Sessions}
    case _ => {}
  }

  predicate Keeps(a: Db, b: Db, t: Table) {
    match t
    case Project => a.projectOpen == b.projectOpen
    case Sessions => a.sessions == b.sessions
    case Intents => a.views.intents == b.views.intents
    case Scopes => a.views.scopes == b.views.scopes
    case Artifacts => a.views.artifacts == b.views.artifacts
  }

  ghost predicate Spares(ws: seq<Write>, t: Table) { forall k :: 0 <= k < |ws| ==> t !in Touched(ws[k]) }

  lemma WriteSpares(db: Db, w: Write, t: Table)
    requires t !in Touched(w)
    ensures Keeps(db, ApplyWrite(db, w), t)
  {
  }

  lemma {:induction false} WritesSpare(db: Db, ws: seq<Write>, t: Table)
    requires Spares(ws, t)
    ensures Keeps(db, ApplyAll(db, ws), t)
    decreases |ws|
  {
    if ws != [] {
      WriteSpares(db, ws[0], t);
      hide ApplyWrite, Touched;
      WritesSpare(ApplyWrite(db, ws[0]), ws[1..], t);
    }
  }

  ghost predicate SparesAll(ws: seq<Write>) { forall k :: 0 <= k < |ws| ==> Touched(ws[k]) == {} }

  lemma AllSpared(db: Db, ws: seq<Write>)
    requires SparesAll(ws)
    ensures forall t :: Keeps(db, ApplyAll(db, ws), t)
  {
    forall t ensures Keeps(db, ApplyAll(db, ws), t) { WritesSpare(db, ws, t); }
  }

  // ---------- Each operation ----------

  lemma LiveMeans(db: Db, agent: Id, now: int)
    ensures SessionProblem(db, agent, now).None? <==> Live(db, agent, now)
  {
  }

  lemma MaySpeakMeans(db: Db, agent: Id, workItem: Option<Id>)
    ensures ItemProblem(db, agent, workItem).None? <==> MaySpeak(db, agent, workItem)
  {
  }

  lemma JoinFollows(db: Db, session: Id, now: int)
    ensures SidesFollow(db, OpJoin(session, now), ApplyAll(db, Join(db, session, now).writes))
  {
    var joined := Emit(AgentJoined, SessionPayload(AgentSession(session, false, now)));
    var ws := Join(db, session, now).writes;
    hide ApplyAll;
    if db.projectOpen {
      assert ws == [joined];
      ApplyAllOne(db, joined);
    } else {
      assert ws == [Emit(ProjectOpened, OtherPayload), joined];
      ApplyTwo(db, Emit(ProjectOpened, OtherPayload), joined);
    }
  }

  lemma HeartbeatFollows(db: Db, agent: Id, now: int)
    ensures SidesFollow(db, OpHeartbeat(agent, now), ApplyAll(db, Heartbeat(db, agent, now).writes))
  {
    LiveMeans(db, agent, now);
    hide ApplyAll, SessionProblem;
    var ws := Heartbeat(db, agent, now).writes;
    if ws == [] { ApplyNone(db); } else { ApplyAllOne(db, ws[0]); }
  }

  lemma IntentFollows(db: Db, op: Op)
    requires op.OpIntent?
    ensures SidesFollow(db, op, ApplyAll(db, DeclareIntent(db, op.id, op.agent, op.workItem, op.now).writes))
  {
    LiveMeans(db, op.agent, op.now);
    MaySpeakMeans(db, op.agent, op.workItem);
    hide ApplyAll, SessionProblem, ItemProblem, Live, MaySpeak;
    var ws := DeclareIntent(db, op.id, op.agent, op.workItem, op.now).writes;
    if ws == [] { ApplyNone(db); } else { ApplyAllOne(db, ws[0]); }
  }

  lemma PublishFollows(db: Db, artifact: ContextArtifact, now: int)
    ensures SidesFollow(db, OpPublish(artifact, now), ApplyAll(db, Publish(db, artifact, now).writes))
  {
    LiveMeans(db, artifact.author, now);
    MaySpeakMeans(db, artifact.author, artifact.workItemId);
    hide ApplyAll, SessionProblem, ItemProblem, Live, MaySpeak;
    var ws := Publish(db, artifact, now).writes;
    if ws == [] { ApplyNone(db); } else { ApplyAllOne(db, ws[0]); }
  }

  lemma ScopeFollows(db: Db, scope: Scope)
    ensures SidesFollow(db, OpScope(scope), ApplyAll(db, [Emit(ScopeDeclared, ScopePayload(scope))]))
  {
    ApplyAllOne(db, Emit(ScopeDeclared, ScopePayload(scope)));
  }

  lemma ClaimSpares(db: Db, c: ClaimInput, now: int)
    ensures SparesAll(Claim(db, c, now).writes)
  {
    hide Blockers, SessionProblem;
  }

  lemma DecisionSpares(db: Db, run: Id)
    ensures SparesAll(ApplyDecision(db, run).writes)
  {
  }

  lemma RecordSpares(db: Db, r: StoredResult)
    ensures SparesAll(RecordResult(db, r.runId, r.input, r.provenance, r.declaredProviderId).writes)
  {
    hide ResultProblem, RecordKey, FindCriterion;
  }

  lemma EvaluateSpares(db: Db, providers: set<string>, run: Id, index: nat, answer: Answer, ids: FallbackIds)
    ensures SparesAll(EvaluateCriterion(db, providers, run, index, answer, ids).writes)
  {
    hide RecordResult, SparesAll;
    NoneSpared();
    if HasCriterion(db, run, index) {
      var c := db.specs[db.runs[run].specId].criteria[index];
      RecordSpares(db, ErrorResult(run, c, RUNTIME_PROVIDER, ids.unavailable));
      RecordSpares(db, ErrorResult(run, c, c.evaluatorRef, ids.error));
      if answer.Answered? { RecordSpares(db, AnswerResult(run, c, answer)); }
    }
  }

  lemma NoneSpared()
    ensures SparesAll([])
  {
  }

  lemma CreationSpares(db: Db, id: Id, spec: Option<Id>, ds: seq<DependencyInput>)
    ensures SparesAll(CreateWorkItem(db, id, spec, ds).writes)
  {
    hide DependencyProblem;
  }

  /** Handing in touches none of the tables. */
  lemma HandInSpares(db: Db, agent: Id, id: Id, run: Option<Id>)
    requires id in db.views.workItems ==> !MayFinish(db.views.workItems[id], agent, run)
    ensures SparesAll(Complete(db, agent, id, run).writes)
  {
    hide MayFinish;
    if id in db.views.workItems { HandInWrites(db, agent, id, run); } else { NoSuchItem(db, agent, id, run); }
    hide Complete;
  }

  /** Finishing writes intents and scopes only. */
  lemma FinishSpares(db: Db, item: WorkItem, agent: Id, t: Table)
    requires t == Project || t == Sessions || t == Artifacts
    ensures Spares(CompletionWrites(db, item, agent), t)
  {
    hide ClosedIntents, ReleasedScopes, UnblockedItems, Spares;
    SparesOne(Emit(WorkItemCompleted, ItemPayload(Bump(item, Done))), t);
    var items := db.views.workItems[item.id := Bump(item, Done)];
    IntentsSpare(db.views.intents, SortedIds(db.views.intents.Keys), agent, item.id, t);
    ScopesSpare(db.views.scopes, SortedIds(db.views.scopes.Keys), agent, t);
    UnblockedSpare(items, db.dependencies, SortedIds(items.Keys), t);
    SparesFour([Emit(WorkItemCompleted, ItemPayload(Bump(item, Done)))],
               ClosedIntents(db.views.intents, SortedIds(db.views.intents.Keys), agent, item.id),
               ReleasedScopes(db.views.scopes, SortedIds(db.views.scopes.Keys), agent),
               UnblockedItems(items, db.dependencies, SortedIds(items.Keys)), t);
  }

  lemma SparesOne(w: Write, t: Table)
    requires t !in Touched(w)
    ensures Spares([w], t)
  {
    hide Touched;
  }

  lemma SparesFour(a: seq<Write>, b: seq<Write>, c: seq<Write>, d: seq<Write>, t: Table)
    requires Spares(a, t) && Spares(b, t) && Spares(c, t) && Spares(d, t)
    ensures Spares(a + b + c + d, t)
  {
    hide Touched;
  }

  lemma {:induction false} IntentsSpare(intents: map<Id, Intent>, ids: seq<Id>, agent: Id, workItem: Id, t: Table)
    requires (forall x :: x in ids ==> x in intents) && t != Intents
    ensures Spares(ClosedIntents(intents, ids, agent, workItem), t)
  {
    if ids != [] { IntentsSpare(intents, ids[..|ids| - 1], agent, workItem, t); }
  }

  lemma {:induction false} ScopesSpare(scopes: map<Id, Scope>, ids: seq<Id>, agent: Id, t: Table)
    requires (forall x :: x in ids ==> x in scopes) && t != Scopes
    ensures Spares(ReleasedScopes(scopes, ids, agent), t)
  {
    if ids != [] { ScopesSpare(scopes, ids[..|ids| - 1], agent, t); }
  }

  lemma {:induction false} UnblockedSpare(
      items: map<Id, WorkItem>, dependencies: set<WorkDependency>, ids: seq<Id>, t: Table)
    requires forall x :: x in ids ==> x in items
    ensures Spares(UnblockedItems(items, dependencies, ids), t)
  {
    hide Releasable;
    if ids != [] { UnblockedSpare(items, dependencies, ids[..|ids| - 1], t); }
  }

  lemma FinishedSides(db: Db, op: Op)
    requires LogInv(db) && FinishesAny(db, op) && db.views.workItems[op.item].id == op.item
    ensures SidesFollow(db, op, ApplyAll(db, CompletionWrites(db, db.views.workItems[op.item], op.agent)))
  {
    hide LogInv, ApplyAll, CompletionWrites, MayFinish;
    var item := db.views.workItems[op.item];
    var ws := CompletionWrites(db, item, op.agent);
    CompletionReleases(db, item, op.agent);
    forall t | t == Project || t == Sessions || t == Artifacts ensures Keeps(db, ApplyAll(db, ws), t) {
      FinishSpares(db, item, op.agent, t);
      WritesSpare(db, ws, t);
    }
    assert Keeps(db, ApplyAll(db, ws), Project) && Keeps(db, ApplyAll(db, ws), Sessions) &&
        Keeps(db, ApplyAll(db, ws), Artifacts);
    hide AfterCompletion;
    assert IntentsThen(db, op) == IntentsAfter(db.views.intents, db.views.intents.Keys, op.agent, item.id);
    assert ScopesThen(db, op) == ScopesAfter(db.views.scopes, db.views.scopes.Keys, op.agent);
  }

  lemma Spared(db: Db, op: Op, ws: seq<Write>)
    requires SparesAll(ws) && !op.OpJoin? && !op.OpHeartbeat? && !op.OpIntent? && !op.OpScope? && !op.OpPublish?
    requires !FinishesAny(db, op)
    ensures SidesFollow(db, op, ApplyAll(db, ws))
  {
    hide SparesAll, ApplyAll, FinishesAny;
    AllSpared(db, ws);
    var next := ApplyAll(db, ws);
    assert Keeps(db, next, Project) && Keeps(db, next, Sessions) && Keeps(db, next, Intents);
    assert Keeps(db, next, Scopes) && Keeps(db, next, Artifacts);
  }

  lemma CompletionSides(db: Db, op: Op)
    requires LogInv(db) && op.OpComplete?
    ensures SidesFollow(db, op, ApplyAll(db, Complete(db, op.agent, op.item, op.runId).writes))
  {
    hide LogInv, ApplyAll, Complete, SidesFollow, CompletionWrites;
    KeysAreIds(db);
    if FinishesAny(db, op) {
      CompleteForm(db, op.agent, op.item, op.runId);
      FinishedSides(db, op);
    } else {
      HandInSpares(db, op.agent, op.item, op.runId);
      Spared(db, op, Complete(db, op.agent, op.item, op.runId).writes);
    }
  }

  /** Every transaction makes of sessions, intents, scopes and published context what the law says. */
  lemma SidesFollowTheLaw(db: Db, providers: set<string>, op: Op)
    requires Inv(db, providers) && Fresh(db, op)
    ensures SidesFollow(db, op, Next(db, providers, op))
  {
    InvParts(db, providers);
    hide Inv, LogInv, ApplyAll, SidesFollow, SparesAll, FinishesAny, Claim, Complete, ApplyDecision, EvaluateCriterion;
    hide CreateWorkItem, RecordResult, Join, Heartbeat, DeclareIntent, Publish;
    match op
    case OpJoin(session, now) => JoinFollows(db, session, now);
    case OpHeartbeat(agent, now) => HeartbeatFollows(db, agent, now);
    case OpIntent(_, _, _, _) => IntentFollows(db, op);
    case OpScope(scope) => ScopeFollows(db, scope);
    case OpPublish(artifact, now) => PublishFollows(db, artifact, now);
    case OpComplete(_, _, _) => CompletionSides(db, op);
    case _ => SparedOps(db, providers, op);
  }

  lemma SparedOps(db: Db, providers: set<string>, op: Op)
    requires !op.OpJoin? && !op.OpHeartbeat? && !op.OpIntent? && !op.OpScope? && !op.OpPublish? && !op.OpComplete?
    ensures SidesFollow(db, op, Next(db, providers, op))
  {
    OpSpares(db, providers, op);
    hide WritesOf, SidesFollow;
    Spared(db, op, WritesOf(db, providers, op));
  }

  lemma OpSpares(db: Db, providers: set<string>, op: Op)
    requires !op.OpJoin? && !op.OpHeartbeat? && !op.OpIntent? && !op.OpScope? && !op.OpPublish? && !op.OpComplete?
    ensures SparesAll(WritesOf(db, providers, op))
  {
    hide Claim, ApplyDecision, EvaluateCriterion, CreateWorkItem, RecordResult, Decide, ValidCriteria;
    match op
    case OpClaim(c, now) => ClaimSpares(db, c, now);
    case OpApplyDecision(run) => DecisionSpares(db, run);
    case OpCreate(id, spec, ds) => CreationSpares(db, id, spec, ds);
    case OpEvaluate(run, index, answer, ids) => EvaluateSpares(db, providers, run, index, answer, ids);
    case OpRecordExternal(run, input, declared) => RecordSpares(db, ExternalResult(run, input, declared));
    case _ =>
  }
}
