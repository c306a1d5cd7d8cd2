/** What every transaction answers its caller, and which events it adds to the log, told by the tables it finds. */
module AnswerLaw {
  import opened Wrappers
  import opened Contracts
  import opened EventStore
  import opened EventLog
  import opened Acceptance
  import opened Protocol
  import opened ProtocolInvariants
  import opened FinishedItems
  import opened EvaluationLaw
  import opened WorkItemLaw
  import opened SessionLaw

  // ---------- Sessions, intents and context ----------

  /** Why a session may not act. */
  function SessionError(db: Db, agent: Id): Error {
    if agent in db.sessions then SessionExpiredError else SessionNotFound
  }

  lemma HeartbeatAnswers(db: Db, agent: Id, now: int)
    ensures var reply := Heartbeat(db, agent, now).reply;
            reply == if Live(db, agent, now) then Success(AgentSession(db.sessions[agent].id, false, now))
                     else Failure(SessionError(db, agent))
    ensures Join(db, agent, now).reply == Success(AgentSession(agent, false, now))
  {
  }

  /** What a declaration or a publication is told: the thing itself, if a live session makes it and may speak for the
      item; otherwise what is wrong with the session, or else with the item. */
  lemma SpeakingAnswers(db: Db, id: Id, agent: Id, workItem: Option<Id>, artifact: ContextArtifact, now: int)
    requires artifact.author == agent && artifact.workItemId == workItem
    ensures var declared, published :=
            DeclareIntent(db, id, agent, workItem, now).reply, Publish(db, artifact, now).reply;
            if !Live(db, agent, now) then
              declared == Failure(SessionError(db, agent)) && published == Failure(SessionError(db, agent))
            else if workItem.Some? && workItem.value !in db.views.workItems then
              declared == Failure(WorkItemNotFound) && published == Failure(WorkItemNotFound)
            else if !MaySpeak(db, agent, workItem) then
              declared == Failure(WorkItemConflict) && published == Failure(WorkItemConflict)
            else
              declared == Success(Intent(id, agent, workItem, IntentActive)) && published == Success(artifact)
  {
  }

  // ---------- Items ----------

  /** The k-th dependency is the first that is wrong. */
  predicate FirstWrong(db: Db, id: Id, ds: seq<DependencyInput>, k: nat) {
    && k < |ds| && !GoodDependency(db, id, ds[k]) && forall j :: 0 <= j < k ==> GoodDependency(db, id, ds[j])
  }

  /** It leads from the new item, or says nothing, to an item that is there or to the new one. */
  predicate GoodDependency(db: Db, id: Id, d: DependencyInput) {
    (d.from.None? || d.from.value == id) && (d.to in db.views.workItems || d.to == id)
  }

  lemma {:induction false} DependencyAnswers(db: Db, id: Id, item: WorkItem, ds: seq<DependencyInput>)
    ensures var problem := DependencyProblem(db.views.workItems[id := item], id, ds);
            && (problem.None? <==> forall k :: 0 <= k < |ds| ==> GoodDependency(db, id, ds[k]))
            && forall k: nat :: FirstWrong(db, id, ds, k) ==>
                 problem == Some(if ds[k].from.Some? && ds[k].from.value != id then InvalidArgument
                                 else WorkItemNotFound)
  {
    if ds != [] && GoodDependency(db, id, ds[0]) {
      var rest := ds[1..];
      DependencyAnswers(db, id, item, rest);
      assert forall k :: 0 < k < |ds| ==> ds[k] == rest[k - 1];
      assert forall k :: 0 <= k < |rest| ==> rest[k] == ds[k + 1];
      forall k: nat | FirstWrong(db, id, ds, k) ensures k > 0 && FirstWrong(db, id, rest, k - 1) { }
    } else if ds != [] {
      forall k: nat | FirstWrong(db, id, ds, k) ensures k == 0 { }
    }
  }

  /** What a creation is told: the new item; or that there is no project, no such specification, or what is wrong with
      the first wrong dependency. */
  lemma CreationAnswers(db: Db, id: Id, spec: Option<Id>, ds: seq<DependencyInput>)
    ensures var reply := CreateWorkItem(db, id, spec, ds).reply;
            if !db.projectOpen then reply == Failure(ProjectNotFound)
            else if spec.Some? && spec.value !in db.specs then reply == Failure(SpecInvalid)
            else
              && ((forall k :: 0 <= k < |ds| ==> GoodDependency(db, id, ds[k])) ==>
                    reply == Success(WorkItem(id, spec, Ready, None, None, 0)))
              && forall k: nat :: FirstWrong(db, id, ds, k) ==>
                   reply == Failure(if ds[k].from.Some? && ds[k].from.value != id then InvalidArgument
                                    else WorkItemNotFound)
  {
    DependencyAnswers(db, id, WorkItem(id, spec, Ready, None, None, 0), ds);
    hide DependencyProblem, GoodDependency;
  }

  /** What a completion is told: the item as it is afterwards; or that there is no such item, that another holds it, or
      that it is under review or accepted by another run. */
  lemma CompletionAnswers(db: Db, agent: Id, id: Id, run: Option<Id>)
    requires id in db.views.workItems ==> db.views.workItems[id].id == id
    ensures var reply := Complete(db, agent, id, run).reply;
            if id !in db.views.workItems then reply == Failure(WorkItemNotFound)
            else
              var item := db.views.workItems[id];
              if item.assignee != Some(agent) then reply == Failure(WorkItemConflict)
              else if item.evaluationSpecId.Some? &&
                      (item.state == ReviewRequired || (item.state == Accepted && !MayFinish(item, agent, run)))
              then reply == Failure(EvaluationNotAccepted)
              else reply == Success(AfterComplete(db, agent, id, run, item))
  {
    hide CompletionWrites, WaitsFor;
  }

  /** What carrying a decision out is told: the item as it is afterwards, also if it is not gated; or that the run is
      not closed or not decided, that specification or item are missing or do not match, or that the item awaits
      nothing. */
  lemma DecisionAnswers(db: Db, run: Id)
    requires forall x :: x in db.views.workItems ==> db.views.workItems[x].id == x
    requires forall x :: x in db.runs ==> db.runs[x].id == x
    ensures var reply := ApplyDecision(db, run).reply;
            if run !in db.runs || db.runs[run].state != Completed then reply == Failure(EvaluationNotAccepted)
            else if run !in db.decisions then reply == Failure(EvaluationInconclusive)
            else if db.runs[run].specId !in db.specs then reply == Failure(SpecInvalid)
            else if db.runs[run].workItemId !in db.views.workItems then reply == Failure(WorkItemNotFound)
            else
              var item := db.views.workItems[db.runs[run].workItemId];
              if item.evaluationSpecId.Some? && item.evaluationSpecId != Some(db.runs[run].specId)
              then reply == Failure(SpecInvalid)
              else if item.evaluationSpecId.Some? && item.state != AwaitingEvaluation
              then reply == Failure(EvaluationNotAccepted)
              else reply == Success(AfterDecision(db, run, item))
  {
  }

  // ---------- Specifications, runs and results ----------

  lemma SpecificationAnswers(db: Db, id: Id, criteria: seq<EvaluationCriterion>)
    ensures var reply := RegisterSpec(db, id, criteria).reply;
            reply == if !GoodCriteria(criteria) then Failure(InvalidArgument)
                     else if !db.projectOpen then Failure(ProjectNotFound)
                     else Success(EvaluationSpec(id, 1, criteria))
  {
  }

  lemma RequestAnswers(db: Db, id: Id, specId: Id, item: Id, target: string, attempt: nat)
    ensures var reply := RequestRun(db, id, specId, item, target, attempt).reply;
            if specId !in db.specs then reply == Failure(SpecInvalid)
            else if item !in db.views.workItems then reply == Failure(WorkItemNotFound)
            else if db.views.workItems[item].evaluationSpecId.Some? &&
                    db.views.workItems[item].evaluationSpecId.value != specId then reply == Failure(SpecInvalid)
            else if Requests(db, OpRequestRun(id, specId, item, target, attempt)) then
              reply == Success(EvaluationRun(id, specId, db.specs[specId].version, item, target, attempt, Pending))
            else reply == Failure(InvalidArgument)
  {
  }

  /** Starting and closing a run answer with the run as it is afterwards, also when there is nothing to do. */
  lemma RunAnswers(db: Db, run: Id)
    ensures StartRun(db, run).reply ==
            if run in db.runs then Success(RunsAfter(db, OpStartRun(run))[run]) else Failure(SpecInvalid)
    ensures CompleteRun(db, run).reply ==
            if run in db.runs && db.runs[run].specId in db.specs then Success(RunsAfter(db, OpCompleteRun(run))[run])
            else Failure(SpecInvalid)
  {
    hide Decide;
  }

  /** A run that could take results: its specification is there in its version. */
  predicate Bound(db: Db, run: Id) {
    run in db.runs && db.runs[run].specId in db.specs &&
    db.specs[db.runs[run].specId].version == db.runs[run].specVersion
  }

  /** The result is about a criterion of the run's specification, comes from its evaluator or from the runtime if it is
      verified, and rests on evidence of the one who vouches for it. */
  predicate Agrees(db: Db, r: StoredResult)
    requires Bound(db, r.runId)
  {
    var cs := db.specs[db.runs[r.runId].specId].criteria;
    && (exists c :: c in cs && c.id == r.input.criterionId)
    && (r.provenance.VerifiedProvider? ==>
          r.input.providerId == "evaluation-runtime" ||
          exists c :: c in cs && c.id == r.input.criterionId && c.evaluatorRef == r.input.providerId)
    && forall e :: e in r.input.evidence ==> Some(e.provider) == Vouching(r)
  }

  predicate Sized(input: ResultInput) {
    && 1 <= |input.providerResultId| <= 256 && 1 <= |input.providerId| <= 128 && |input.criterionId| <= 128
    && |input.evidence| <= 50
  }

  predicate WellMade(e: EvidenceRef) { 1 <= |e.provider| <= 128 && 1 <= |e.digest| <= 256 }

  /** What recording a result is told: the result if it is stored, or was before; otherwise the first of these: that the
      run cannot take results, that the result does not agree with it, that the result is of the wrong size, that its
      evidence is stale or ill-made, that the run is closed, or that its name is used for another result. */
  lemma RecordAnswers(db: Db, r: StoredResult)
    requires ReferenceInv(db)
    ensures var reply := RecordResult(db, r.runId, r.input, r.provenance, r.declaredProviderId).reply;
            if !Bound(db, r.runId) then reply == Failure(SpecInvalid)
            else if !Agrees(db, r) then reply == Failure(ResultConflict)
            else if !Sized(r.input) then reply == Failure(ResultInvalid)
            else if exists e :: e in r.input.evidence && e.targetStateRef != db.runs[r.runId].repositoryStateRef then
              reply == Failure(TargetStale)
            else if exists e :: e in r.input.evidence && !WellMade(e) then reply == Failure(ResultInvalid)
            else if db.runs[r.runId].state == Completed || (Known(db, r) && db.resultRecords[NameOf(r)] != r) then
              reply == Failure(ResultConflict)
            else reply == Success(r)
  {
    if Bound(db, r.runId) {
      var cs := db.specs[db.runs[r.runId].specId].criteria;
      FoundCriterion(cs, r.input.criterionId);
      if FindCriterion(cs, r.input.criterionId).Some? { UniqueCriterion(cs, r.input.criterionId, r.input.providerId); }
    }
    hide FindCriterion, ValidCriteria;
  }

  /** What an evaluation is told: the result it is about, exactly if that is taken; there is none to be about without
      the run, its specification and the criterion. */
  lemma EvaluateAnswers(db: Db, providers: set<string>, run: Id, index: nat, answer: Answer, ids: FallbackIds)
    requires ReferenceInv(db)
    ensures var reply := EvaluateCriterion(db, providers, run, index, answer, ids).reply;
            if !HasCriterion(db, run, index) then
              reply == Failure(if run in db.runs && db.runs[run].specId in db.specs then InvalidArgument
                  else SpecInvalid)
            else
              var r := ResultFor(db, providers, run, db.specs[db.runs[run].specId].criteria[index], answer, ids);
              (reply.Success? <==> Taken(db, r)) && (reply.Success? ==> reply.value == r)
  {
    hide ReferenceInv, RecordResult, Taken;
    if HasCriterion(db, run, index) {
      var c := db.specs[db.runs[run].specId].criteria[index];
      RecordFollows(db, ErrorResult(run, c, "evaluation-runtime", ids.unavailable));
      RecordFollows(db, ErrorResult(run, c, c.evaluatorRef, ids.error));
      if answer.Answered? { RecordFollows(db, AnswerResult(run, c, answer)); }
    }
  }

  // ---------- The log ----------

  function TypesOf(log: seq<Event>): (r: seq<EventType>)
    ensures |r| == |log| && forall i :: 0 <= i < |log| ==> r[i] == log[i].eventType
  {
    seq(|log|, i requires 0 <= i < |log| => log[i].eventType)
  }

  function Emitted(ws: seq<Write>): seq<EventType> {
    if ws == [] then [] else (if ws[0].Emit? then [ws[0].eventType] else []) + Emitted(ws[1..])
  }

  lemma EmittedStep(ws: seq<Write>)
    requires ws != []
    ensures Emitted(ws) == (if ws[0].Emit? then [ws[0].eventType] else []) + Emitted(ws[1..])
  {
  }

  lemma {:induction false} EmittedConcat(a: seq<Write>, b: seq<Write>)
    ensures Emitted(a + b) == Emitted(a) + Emitted(b)
  {
    if a == [] {
      assert a + b == b;
    } else {
      assert (a + b)[1..] == a[1..] + b && (a + b)[0] == a[0];
      EmittedConcat(a[1..], b);
      EmittedStep(a);
      EmittedStep(a + b);
      hide Emitted;
    }
  }

  lemma {:induction false} LogGrows(db: Db, ws: seq<Write>)
    ensures db.log <= ApplyAll(db, ws).log && TypesOf(ApplyAll(db, ws).log) == TypesOf(db.log) + Emitted(ws)
    decreases |ws|
  {
    if ws != [] {
      OneLogged(db, ws[0]);
      hide ApplyWrite;
      LogGrows(ApplyWrite(db, ws[0]), ws[1..]);
    }
  }

  lemma OneLogged(db: Db, w: Write)
    ensures db.log <= ApplyWrite(db, w).log
    ensures TypesOf(ApplyWrite(db, w).log) == TypesOf(db.log) + if w.Emit? then [w.eventType] else []
  {
  }

  /** The events that a transaction adds, unless it finishes an item. */
  ghost function Logged(db: Db, providers: set<string>, op: Op): seq<EventType> {
    match op
    case OpJoin(_, _) => if db.projectOpen then [AgentJoined] else [ProjectOpened, AgentJoined]
    case OpHeartbeat(_, _) => []
    case OpCreate(_, _, _) => if Creates(db, op) then [WorkItemCreated] else []
    case OpClaim(c, now) =>
      if c.workItem !in db.views.workItems || !Takes(db, c, now, db.views.workItems[c.workItem]) then []
      else if Waits(db, c.workItem) then [WorkItemBlocked] else [WorkItemClaimed]
    case OpIntent(_, _, _, _) => if Declares(db, op) then [IntentDeclared] else []
    case OpScope(_) => [ScopeDeclared]
    case OpPublish(artifact, now) =>
      if Live(db, artifact.author, now) && MaySpeak(db, artifact.author, artifact.workItemId) then [ContextPublished]
      else []
    case OpComplete(agent, id, _) =>
      if id !in db.views.workItems || !HandsIn(db.views.workItems[id], agent) then []
      else if db.views.workItems[id].state == ImplementationComplete then [WorkItemAwaitingEvaluation]
      else [WorkItemImplementationComplete, WorkItemAwaitingEvaluation]
    case OpApplyDecision(run) =>
      if run !in db.runs || db.runs[run].workItemId !in db.views.workItems ||
         !Awaits(db, run, db.views.workItems[db.runs[run].workItemId]) then []
      else if db.decisions[run] == DecisionAccepted then [WorkItemEvaluationAccepted]
      else if db.decisions[run] == DecisionRejected then [WorkItemEvaluationRejected]
      else [WorkItemEvaluationReviewRequired]
    case OpUnprojected(name) => [UnprojectedEvent(name)]
    case OpRegisterSpec(_, cs) => if db.projectOpen && GoodCriteria(cs) then [EvaluationSpecRegistered] else []
    case OpRequestRun(_, _, _, _, _) => if Requests(db, op) then [EvaluationRequested] else []
    case OpStartRun(_) => if Starts(db, op) then [EvaluationStarted] else []
    case OpCompleteRun(_) => if Closes(db, op) then [EvaluationCompleted, AcceptanceDecided] else []
    case _ =>
      var r := RecordedBy(db, providers, op);
      if r.Some? && Recordable(db, r.value) && !Known(db, r.value) then [EvaluationResultRecorded] else []
  }

  lemma EmitsNone()
    ensures Emitted([]) == []
  {
  }

  lemma EmitsOne(w: Write)
    ensures Emitted([w]) == if w.Emit? then [w.eventType] else []
  {
    assert [w][1..] == [];
  }

  lemma EmitsTwo(v: Write, w: Write)
    ensures Emitted([v, w]) == Emitted([v]) + Emitted([w])
  {
    EmittedConcat([v], [w]);
    assert [v] + [w] == [v, w];
  }

  lemma {:induction false} EmitsNothing(ws: seq<Write>)
    requires forall k :: 0 <= k < |ws| ==> !ws[k].Emit?
    ensures Emitted(ws) == []
  {
    if ws != [] { EmitsNothing(ws[1..]); }
  }

  lemma SessionsLogged(db: Db, providers: set<string>, op: Op)
    requires op.OpJoin? || op.OpHeartbeat? || op.OpIntent? || op.OpScope? || op.OpPublish?
    ensures Emitted(WritesOf(db, providers, op)) == Logged(db, providers, op)
  {
    var ws := WritesOf(db, providers, op);
    hide Emitted, Live, MaySpeak;
    EmitsNone();
    if |ws| == 1 { EmitsOne(ws[0]); assert ws == [ws[0]]; }
    if |ws| == 2 {
      EmitsTwo(ws[0], ws[1]);
      EmitsOne(ws[0]);
      EmitsOne(ws[1]);
      assert ws == [ws[0], ws[1]];
    }
    if op.OpHeartbeat? { LiveMeans(db, op.agent, op.now); }
    if op.OpIntent? { LiveMeans(db, op.agent, op.now); MaySpeakMeans(db, op.agent, op.workItem); }
    if op.OpPublish? {
      LiveMeans(db, op.artifact.author, op.now);
      MaySpeakMeans(db, op.artifact.author, op.artifact.workItemId);
    }
    hide SessionProblem, ItemProblem;
  }

  lemma CreationLogged(db: Db, providers: set<string>, op: Op)
    requires op.OpCreate? && Fresh(db, op)
    ensures Emitted(WritesOf(db, providers, op)) == Logged(db, providers, op)
  {
    var item := WorkItem(op.id, op.spec, Ready, None, None, 0);
    DependencyProblemMeans(db.views.workItems[op.id := item], op.id, op.dependencies);
    hide DependencyProblem;
    EmitsNone();
    var first, rest := Emit(WorkItemCreated, ItemPayload(item)), DependencyWrites(op.id, op.dependencies);
    EmitsOne(first);
    EmitsNothing(rest);
    EmittedConcat([first], rest);
    hide Emitted;
  }

  lemma ClaimLogged(db: Db, providers: set<string>, op: Op)
    requires LogInv(db) && op.OpClaim?
    ensures Emitted(WritesOf(db, providers, op)) == Logged(db, providers, op)
  {
    ClaimTakes(db, op.claim, op.now);
    var ws := Claim(db, op.claim, op.now).writes;
    EmitsNone();
    if |ws| == 1 { EmitsOne(ws[0]); assert ws == [ws[0]]; }
    hide Emitted, LogInv, Takes, Waits;
  }

  lemma HandInLogged(db: Db, providers: set<string>, op: Op)
    requires op.OpComplete? && !FinishesAny(db, op)
    ensures Emitted(WritesOf(db, providers, op)) == Logged(db, providers, op)
  {
    EmitsNone();
    if op.item in db.views.workItems {
      HandInWrites(db, op.agent, op.item, op.runId);
      var item := db.views.workItems[op.item];
      var complete := Bump(item, ImplementationComplete);
      var a := Emit(WorkItemAwaitingEvaluation, ItemPayload(Bump(item, AwaitingEvaluation)));
      var b := Emit(WorkItemImplementationComplete, ItemPayload(complete));
      var c := Emit(WorkItemAwaitingEvaluation, ItemPayload(Bump(complete, AwaitingEvaluation)));
      EmitsOne(a);
      EmitsOne(b);
      EmitsOne(c);
      EmitsTwo(b, c);
    }
    hide Emitted, HandsIn, MayFinish, CompletionWrites;
  }

  lemma DecisionLogged(db: Db, providers: set<string>, op: Op)
    requires op.OpApplyDecision?
    requires forall x :: x in db.views.workItems ==> db.views.workItems[x].id == x
    requires forall x :: x in db.runs ==> db.runs[x].id == x && db.runs[x].specId in db.specs
    ensures Emitted(WritesOf(db, providers, op)) == Logged(db, providers, op)
  {
    var ws := ApplyDecision(db, op.run).writes;
    EmitsNone();
    if |ws| == 1 { EmitsOne(ws[0]); assert ws == [ws[0]]; }
    hide Emitted;
  }

  lemma RequestsLogged(db: Db, providers: set<string>, op: Op)
    requires op.OpUnprojected? || op.OpRegisterSpec? || op.OpRequestRun?
    ensures Emitted(WritesOf(db, providers, op)) == Logged(db, providers, op)
  {
    var ws := WritesOf(db, providers, op);
    if op.OpRegisterSpec? { CriteriaMean(op.criteria); }
    EmitsNone();
    if |ws| == 1 { EmitsOne(ws[0]); assert ws == [ws[0]]; }
    if |ws| == 2 { EmitsBoth(ws[0], ws[1]); assert ws == [ws[0], ws[1]]; }
    hide Emitted, ValidCriteria, GoodCriteria;
  }

  lemma RunsLogged(db: Db, providers: set<string>, op: Op)
    requires op.OpStartRun? || op.OpCompleteRun?
    requires forall x :: x in db.runs ==> db.runs[x].specId in db.specs
    ensures Emitted(WritesOf(db, providers, op)) == Logged(db, providers, op)
  {
    hide Decide;
    var ws := WritesOf(db, providers, op);
    EmitsNone();
    if |ws| == 2 { EmitsBoth(ws[0], ws[1]); assert ws == [ws[0], ws[1]]; }
    if |ws| == 4 {
      EmitsBoth(ws[0], ws[1]);
      EmitsBoth(ws[2], ws[3]);
      EmittedConcat([ws[0], ws[1]], [ws[2], ws[3]]);
      assert ws == [ws[0], ws[1]] + [ws[2], ws[3]];
    }
    hide Emitted;
  }

  lemma CriteriaMean(cs: seq<EvaluationCriterion>)
    ensures ValidCriteria(cs) <==> GoodCriteria(cs)
  {
  }

  lemma EmitsBoth(v: Write, w: Write)
    ensures Emitted([v, w]) == (if v.Emit? then [v.eventType] else []) + (if w.Emit? then [w.eventType] else [])
  {
    EmitsTwo(v, w);
    EmitsOne(v);
    EmitsOne(w);
  }

  lemma ResultsLogged(db: Db, providers: set<string>, op: Op)
    requires ReferenceInv(db) && (op.OpRecordExternal? || op.OpEvaluate?)
    ensures Emitted(WritesOf(db, providers, op)) == Logged(db, providers, op)
  {
    EmitsNone();
    var r := RecordedBy(db, providers, op);
    if r.Some? {
      EmitsTwo(PutResult(r.value), Emit(EvaluationResultRecorded, OtherPayload));
      EmitsOne(PutResult(r.value));
      EmitsOne(Emit(EvaluationResultRecorded, OtherPayload));
    }
    if op.OpRecordExternal? { RecordFollows(db, r.value); }
    else if HasCriterion(db, op.run, op.index) { EvaluateFollows(db, providers, op.run, op.index, op.answer, op.ids); }
    hide Emitted, Recordable, Known, ReferenceInv, RecordResult, ResultFor;
  }

  /** The log keeps what it has, and every transaction that does not finish an item adds exactly the events named. */
  lemma LogFollows(db: Db, providers: set<string>, op: Op)
    requires Inv(db, providers) && Fresh(db, op) && !FinishesAny(db, op)
    ensures var next := Next(db, providers, op);
            db.log <= next.log && TypesOf(next.log) == TypesOf(db.log) + Logged(db, providers, op)
  {
    InvParts(db, providers);
    KeysAreIds(db);
    LogGrows(db, WritesOf(db, providers, op));
    hide Inv, LogInv, Emitted, Logged, WritesOf, ApplyAll, TypesOf, Fresh, FinishesAny;
    match op
    case OpCreate(_, _, _) => CreationLogged(db, providers, op);
    case OpClaim(_, _) => ClaimLogged(db, providers, op);
    case OpComplete(_, _, _) => HandInLogged(db, providers, op);
    case OpApplyDecision(_) => DecisionLogged(db, providers, op);
    case OpUnprojected(_) => RequestsLogged(db, providers, op);
    case OpRegisterSpec(_, _) => RequestsLogged(db, providers, op);
    case OpRequestRun(_, _, _, _, _) => RequestsLogged(db, providers, op);
    case OpStartRun(_) => RunsLogged(db, providers, op);
    case OpCompleteRun(_) => RunsLogged(db, providers, op);
    case OpRecordExternal(_, _, _) => ResultsLogged(db, providers, op);
    case OpEvaluate(_, _, _, _) => ResultsLogged(db, providers, op);
    case _ => SessionsLogged(db, providers, op);
  }

  // ---------- The events of a finished item ----------

  function Times(n: nat, t: EventType): (r: seq<EventType>)
    ensures |r| == n && forall i :: 0 <= i < n ==> r[i] == t
  {
    seq(n, _ => t)
  }

  lemma OneMoreTime(n: nat, t: EventType)
    ensures Times(n + 1, t) == Times(n, t) + [t]
  {
  }

  ghost predicate Distinct(ids: seq<Id>) { forall i, j :: 0 <= i < j < |ids| ==> ids[i] != ids[j] }

  /** Which of the identifiers are kept grows by one, or not at all, with one identifier more. */
  lemma OneMoreKept(ids: seq<Id>, keep: Id -> bool)
    requires ids != [] && Distinct(ids)
    ensures var init, last := ids[..|ids| - 1], ids[|ids| - 1];
            Distinct(init) && |(set x | x in ids && keep(x))| ==
                              |(set x | x in init && keep(x))| + if keep(last) then 1 else 0
  {
    var init, last := ids[..|ids| - 1], ids[|ids| - 1];
    assert ids == init + [last];
    InitAndLast(init, last);
    var now, before := set x | x in ids && keep(x), set x | x in init && keep(x);
    hide Distinct;
    if keep(last) {
      assert now == before + {last};
    } else {
      assert now == before;
    }
  }

  lemma InitAndLast(init: seq<Id>, last: Id)
    requires Distinct(init + [last])
    ensures Distinct(init) && last !in init && forall x :: x in init + [last] <==> x in init || x == last
  {
    var ids := init + [last];
    assert ids[|init|] == last && forall i :: 0 <= i < |init| ==> ids[i] == init[i];
  }

  predicate Closing(intents: map<Id, Intent>, agent: Id, workItem: Id, x: Id) {
    x in intents && intents[x].agentSessionId == agent && intents[x].workItemId == Some(workItem) &&
    intents[x].state == IntentActive
  }

  predicate Releasing(scopes: map<Id, Scope>, agent: Id, x: Id) {
    x in scopes && scopes[x].agentSessionId == agent && !scopes[x].released
  }

  lemma {:induction false} IntentsLogged(intents: map<Id, Intent>, ids: seq<Id>, agent: Id, workItem: Id)
    requires (forall x :: x in ids ==> x in intents) && Distinct(ids)
    ensures Emitted(ClosedIntents(intents, ids, agent, workItem)) ==
            Times(|set x | x in ids && Closing(intents, agent, workItem, x)|, EventType.IntentSuperseded)
  {
    if ids == [] {
      EmitsNone();
      assert (set x | x in ids && Closing(intents, agent, workItem, x)) == {};
    } else {
      var init, last := ids[..|ids| - 1], ids[|ids| - 1];
      var keep := (x: Id) => Closing(intents, agent, workItem, x);
      OneMoreKept(ids, keep);
      assert (set x | x in ids && keep(x)) == set x | x in ids && Closing(intents, agent, workItem, x);
      assert (set x | x in init && keep(x)) == set x | x in init && Closing(intents, agent, workItem, x);
      OneMoreTime(|set x | x in init && Closing(intents, agent, workItem, x)|, EventType.IntentSuperseded);
      IntentsLogged(intents, init, agent, workItem);
      var w := Emit(EventType.IntentSuperseded, IntentPayload(intents[last].(state := IntentCompleted)));
      var before := ClosedIntents(intents, init, agent, workItem);
      EmittedConcat(before, [w]);
      EmitsOne(w);
      assert before + [] == before;
      hide Emitted;
    }
  }

  lemma {:induction false} ScopesLogged(scopes: map<Id, Scope>, ids: seq<Id>, agent: Id)
    requires (forall x :: x in ids ==> x in scopes) && Distinct(ids)
    ensures Emitted(ReleasedScopes(scopes, ids, agent)) ==
            Times(|set x | x in ids && Releasing(scopes, agent, x)|, ScopeReleased)
  {
    if ids == [] {
      EmitsNone();
      assert (set x | x in ids && Releasing(scopes, agent, x)) == {};
    } else {
      var init, last := ids[..|ids| - 1], ids[|ids| - 1];
      var keep := (x: Id) => Releasing(scopes, agent, x);
      OneMoreKept(ids, keep);
      assert (set x | x in ids && keep(x)) == set x | x in ids && Releasing(scopes, agent, x);
      assert (set x | x in init && keep(x)) == set x | x in init && Releasing(scopes, agent, x);
      OneMoreTime(|set x | x in init && Releasing(scopes, agent, x)|, ScopeReleased);
      ScopesLogged(scopes, init, agent);
      var w := Emit(ScopeReleased, ScopePayload(scopes[last].(released := true)));
      var before := ReleasedScopes(scopes, init, agent);
      EmittedConcat(before, [w]);
      EmitsOne(w);
      assert before + [] == before;
      hide Emitted;
    }
  }

  lemma {:induction false} UnblockedLogged(items: map<Id, WorkItem>, dependencies: set<WorkDependency>, ids: seq<Id>)
    requires (forall x :: x in ids ==> x in items) && Distinct(ids)
    ensures Emitted(UnblockedItems(items, dependencies, ids)) ==
            Times(|set x | x in ids && Releasable(items, dependencies, x)|, WorkItemUnblocked)
  {
    hide Releasable;
    if ids == [] {
      EmitsNone();
      assert (set x | x in ids && Releasable(items, dependencies, x)) == {};
    } else {
      var init, last := ids[..|ids| - 1], ids[|ids| - 1];
      var keep := (x: Id) => Releasable(items, dependencies, x);
      OneMoreKept(ids, keep);
      assert (set x | x in ids && keep(x)) == set x | x in ids && Releasable(items, dependencies, x);
      assert (set x | x in init && keep(x)) == set x | x in init && Releasable(items, dependencies, x);
      OneMoreTime(|set x | x in init && Releasable(items, dependencies, x)|, WorkItemUnblocked);
      UnblockedLogged(items, dependencies, init);
      var w := Emit(WorkItemUnblocked, ItemPayload(Bump(items[last], Ready)));
      var before := UnblockedItems(items, dependencies, init);
      EmittedConcat(before, [w]);
      EmitsOne(w);
      assert before + [] == before;
      hide Emitted;
    }
  }

  ghost predicate Freed(db: Db, next: Db, x: Id) {
    x in db.views.workItems && db.views.workItems[x].state == Blocked && x in next.views.workItems &&
    next.views.workItems[x].state == Ready
  }

  lemma FreedMeans(db: Db, item: WorkItem, agent: Id, x: Id)
    requires LogInv(db) && item.id in db.views.workItems && db.views.workItems[item.id] == item
    ensures var items := db.views.workItems[item.id := Bump(item, Done)];
            x in items && Releasable(items, db.dependencies, x) <==>
            Freed(db, ApplyAll(db, CompletionWrites(db, item, agent)), x)
  {
    KeysAreIds(db);
    CompletionEffect(db, item, agent);
    hide LogInv, CompletionWrites, ApplyAll, Blockers;
  }

  /** A transaction that finishes an item adds its completion, and then one event for each intent it closes, each scope
      it releases and each item it frees. */
  lemma FinishLogged(db: Db, providers: set<string>, op: Op)
    requires Inv(db, providers) && FinishesAny(db, op)
    ensures var next := Next(db, providers, op);
            var closed := set x | x in db.views.intents && Closing(db.views.intents, op.agent, op.item, x);
            var released := set x | x in db.views.scopes && Releasing(db.views.scopes, op.agent, x);
            var freed := set x | x in db.views.workItems && Freed(db, next, x);
            && db.log <= next.log
            && TypesOf(next.log) == TypesOf(db.log) + ([WorkItemCompleted] +
                 Times(|closed|, EventType.IntentSuperseded) + Times(|released|, ScopeReleased) +
                 Times(|freed|, WorkItemUnblocked))
  {
    InvParts(db, providers);
    KeysAreIds(db);
    CompleteForm(db, op.agent, op.item, op.runId);
    var item := db.views.workItems[op.item];
    LogGrows(db, CompletionWrites(db, item, op.agent));
    hide Inv, LogInv, Emitted, ApplyAll, MayFinish, Complete, CompletionWrites, TypesOf;
    FinishEmits(db, item, op.agent);
  }

  lemma FinishEmits(db: Db, item: WorkItem, agent: Id)
    requires LogInv(db) && item.id in db.views.workItems && db.views.workItems[item.id] == item
    ensures var next := ApplyAll(db, CompletionWrites(db, item, agent));
            var closed := set x | x in db.views.intents && Closing(db.views.intents, agent, item.id, x);
            var released := set x | x in db.views.scopes && Releasing(db.views.scopes, agent, x);
            var freed := set x | x in db.views.workItems && Freed(db, next, x);
            Emitted(CompletionWrites(db, item, agent)) == [WorkItemCompleted] +
              Times(|closed|, EventType.IntentSuperseded) + Times(|released|, ScopeReleased) +
              Times(|freed|, WorkItemUnblocked)
  {
    var items := db.views.workItems[item.id := Bump(item, Done)];
    var intents, scopes, ids :=
        SortedIds(db.views.intents.Keys), SortedIds(db.views.scopes.Keys), SortedIds(items.Keys);
    var first := Emit(WorkItemCompleted, ItemPayload(Bump(item, Done)));
    hide LogInv, Emitted, ApplyAll, Closing, Releasing, Releasable, Freed, ClosedIntents, ReleasedScopes,
         UnblockedItems;
    EmitsOne(first);
    IntentsLogged(db.views.intents, intents, agent, item.id);
    ScopesLogged(db.views.scopes, scopes, agent);
    UnblockedLogged(items, db.dependencies, ids);
    FourEmit([first], ClosedIntents(db.views.intents, intents, agent, item.id),
             ReleasedScopes(db.views.scopes, scopes, agent), UnblockedItems(items, db.dependencies, ids));
    forall x ensures x in items && Releasable(items, db.dependencies, x) <==>
                     Freed(db, ApplyAll(db, CompletionWrites(db, item, agent)), x)
    {
      FreedMeans(db, item, agent, x);
    }
    assert (set x | x in intents && Closing(db.views.intents, agent, item.id, x)) ==
           set x | x in db.views.intents && Closing(db.views.intents, agent, item.id, x);
    assert (set x | x in scopes && Releasing(db.views.scopes, agent, x)) ==
           set x | x in db.views.scopes && Releasing(db.views.scopes, agent, x);
    var next := ApplyAll(db, CompletionWrites(db, item, agent));
    assert (set x | x in ids && Releasable(items, db.dependencies, x)) ==
           set x | x in db.views.workItems && Freed(db, next, x);
  }

  lemma FourEmit(a: seq<Write>, b: seq<Write>, c: seq<Write>, d: seq<Write>)
    ensures Emitted(a + b + c + d) == Emitted(a) + Emitted(b) + Emitted(c) + Emitted(d)
  {
    EmittedConcat(a, b);
    EmittedConcat(a + b, c);
    EmittedConcat(a + b + c, d);
  }
}
