/** The coordination runtime: every handler is one synchronous transaction on the store. */
module CoordinationRuntime {
  import opened Wrappers
  import opened Contracts
  import opened EventStore
  import opened Protocol
  import opened ProtocolInvariants

  /** The store moved by exactly the writes of the outcome, and the caller got its reply. */
  ghost predicate Performed<T>(before: Db, after: Db, out: Outcome<T>, reply: Result<T, Error>) {
    after == ApplyAll(before, out.writes) && reply == out.reply
  }

  lemma NoWrites(db: Db)
    ensures ApplyAll(db, []) == db
  {
  }

  lemma OneMoreWrite(db: Db, ws: seq<Write>, w: Write)
    ensures ApplyAll(db, ws + [w]) == ApplyWrite(ApplyAll(db, ws), w)
  {
    ApplyAllAppend(db, ws, [w]);
    ApplyAllOne(ApplyAll(db, ws), w);
  }

  class CoordinationRuntime {
    const store: SqliteCoordinationStore

    constructor (store: SqliteCoordinationStore)
      ensures this.store == store
    {
      this.store := store;
    }

    method Join(sessionId: Id, now: int) returns (r: Result<AgentSession, Error>)
      requires !store.inTransaction
      modifies store
      ensures !store.inTransaction
      ensures Performed(old(store.db), store.db, Protocol.Join(old(store.db), sessionId, now), r)
    {
      hide ApplyWrite, ApplyAll;
      ghost var before := store.db;
      store.Begin();
      if !store.db.projectOpen {
        store.AppendEvent(ProjectOpened, OtherPayload);
      }
      var session := AgentSession(sessionId, false, now);
      store.AppendEvent(AgentJoined, SessionPayload(session));
      store.Commit();
      var joined := Emit(AgentJoined, SessionPayload(session));
      if before.projectOpen { assert [] + [joined] == [joined]; ApplyAllOne(before, joined); }
      else {
        assert [Emit(ProjectOpened, OtherPayload)] + [joined] == [Emit(ProjectOpened, OtherPayload), joined];
        ApplyTwo(before, Emit(ProjectOpened, OtherPayload), joined);
      }
      return Success(session);
    }

    /** The transaction with which a sync refreshes the session's heartbeat. */
    method RefreshHeartbeat(agent: Id, now: int) returns (r: Result<AgentSession, Error>)
      requires !store.inTransaction
      modifies store
      ensures !store.inTransaction
      ensures Performed(old(store.db), store.db, Heartbeat(old(store.db), agent, now), r)
    {
      hide ApplyWrite, ApplyAll;
      ghost var before := store.db;
      NoWrites(before);
      store.Begin();
      if agent !in store.db.sessions { store.Rollback(); return Failure(SessionNotFound); }
      var session := store.db.sessions[agent];
      if SessionExpired(session, now) { store.Rollback(); return Failure(SessionExpiredError); }
      var updated := session.(heartbeatAt := now);
      store.Put(PutSession(updated));
      store.Commit();
      ApplyAllOne(before, PutSession(updated));
      return Success(updated);
    }

    /** Appends the item, then checks and stores its dependencies one by one; a bad dependency undoes
        the whole transaction. */
    method CreateWorkItem(id: Id, spec: Option<Id>, dependencies: seq<DependencyInput>)
      returns (r: Result<WorkItem, Error>)
      requires !store.inTransaction
      modifies store
      ensures !store.inTransaction
      ensures Performed(old(store.db), store.db, Protocol.CreateWorkItem(old(store.db), id, spec, dependencies), r)
    {
      ghost var before := store.db;
      NoWrites(before);
      store.Begin();
      if !store.db.projectOpen { store.Rollback(); return Failure(ProjectNotFound); }
      if spec.Some? && spec.value !in store.db.specs { store.Rollback(); return Failure(SpecInvalid); }
      var item := WorkItem(id, spec, Ready, None, None, 0);
      store.AppendEvent(WorkItemCreated, ItemPayload(item));
      ghost var created := store.db;
      ghost var all := DependencyWrites(id, dependencies);
      var k := 0;
      while k < |dependencies|
        invariant 0 <= k <= |dependencies|
        invariant store.inTransaction && store.checkpoint == before
        invariant store.db == ApplyAll(created, all[..k])
        invariant store.db.views == created.views
        invariant DependencyProblem(created.views.workItems, id, dependencies) ==
                  DependencyProblem(created.views.workItems, id, dependencies[k..])
      {
        var d := dependencies[k];
        if d.from.Some? && d.from.value != id { store.Rollback(); return Failure(InvalidArgument); }
        if d.to !in store.db.views.workItems { store.Rollback(); return Failure(WorkItemNotFound); }
        store.Put(PutDependency(WorkDependency(id, d.to, d.kind)));
        OneMoreWrite(created, all[..k], all[k]);
        assert all[..k + 1] == all[..k] + [all[k]];
        k := k + 1;
      }
      store.Commit();
      assert all[..k] == all;
      ApplyAllAppend(before, [Emit(WorkItemCreated, ItemPayload(item))], all);
      ApplyAllOne(before, Emit(WorkItemCreated, ItemPayload(item)));
      return Success(item);
    }

    method Claim(input: ClaimInput, now: int) returns (r: Result<WorkItem, Error>)
      requires !store.inTransaction
      modifies store
      ensures !store.inTransaction
      ensures Performed(old(store.db), store.db, Protocol.Claim(old(store.db), input, now), r)
    {
      hide ApplyWrite, ApplyAll, Blockers, SessionExpired, Settled;
      ghost var before := store.db;
      NoWrites(before);
      store.Begin();
      if input.agent !in store.db.sessions { store.Rollback(); return Failure(SessionNotFound); }
      if SessionExpired(store.db.sessions[input.agent], now) { store.Rollback(); return Failure(SessionExpiredError); }
      if input.workItem !in store.db.views.workItems { store.Rollback(); return Failure(WorkItemNotFound); }
      var item := store.db.views.workItems[input.workItem];
      if item.assignee == Some(input.agent) && (item.state == Claimed || item.state == Active) {
        store.Commit();
        return Success(item);
      }
      if item.version != input.expectedVersion { store.Rollback(); return Failure(WorkItemConflict); }
      if item.evaluationSpecId.Some? && Settled(item.state) { store.Rollback(); return Failure(WorkItemConflict); }
      var blockers := Blockers(item.id, store.db.dependencies, store.db.views.workItems);
      if |blockers| > 0 {
        if item.state != Blocked {
          item := item.(state := Blocked, assignee := Some(input.agent), version := item.version + 1);
          store.AppendEvent(WorkItemBlocked, ItemPayload(item));
          ApplyAllOne(before, Emit(WorkItemBlocked, ItemPayload(item)));
        }
        store.Commit();
        return Failure(WorkItemBlockedBy(blockers));
      }
      if item.assignee.Some? && item.assignee.value != input.agent && !input.allowShared {
        store.Rollback();
        return Failure(WorkItemConflict);
      }
      var updated := item.(state := Active, assignee := Some(input.agent), version := item.version + 1);
      store.AppendEvent(WorkItemClaimed, ItemPayload(updated));
      store.Commit();
      ApplyAllOne(before, Emit(WorkItemClaimed, ItemPayload(updated)));
      return Success(updated);
    }

    method DeclareIntent(id: Id, agent: Id, workItem: Option<Id>, now: int) returns (r: Result<Intent, Error>)
      requires !store.inTransaction
      modifies store
      ensures !store.inTransaction
      ensures Performed(old(store.db), store.db, Protocol.DeclareIntent(old(store.db), id, agent, workItem, now), r)
    {
      hide ApplyWrite, ApplyAll;
      ghost var before := store.db;
      NoWrites(before);
      store.Begin();
      if agent !in store.db.sessions { store.Rollback(); return Failure(SessionNotFound); }
      if SessionExpired(store.db.sessions[agent], now) { store.Rollback(); return Failure(SessionExpiredError); }
      if workItem.Some? {
        if workItem.value !in store.db.views.workItems { store.Rollback(); return Failure(WorkItemNotFound); }
        var item := store.db.views.workItems[workItem.value];
        if item.assignee.Some? && item.assignee.value != agent { store.Rollback(); return Failure(WorkItemConflict); }
      }
      var intent := Intent(id, agent, workItem, IntentActive);
      store.AppendEvent(IntentDeclared, IntentPayload(intent));
      store.Commit();
      ApplyAllOne(before, Emit(IntentDeclared, IntentPayload(intent)));
      return Success(intent);
    }

    method Publish(artifact: ContextArtifact, now: int) returns (r: Result<ContextArtifact, Error>)
      requires !store.inTransaction
      modifies store
      ensures !store.inTransaction
      ensures Performed(old(store.db), store.db, Protocol.Publish(old(store.db), artifact, now), r)
    {
      hide ApplyWrite, ApplyAll;
      ghost var before := store.db;
      NoWrites(before);
      store.Begin();
      if artifact.author !in store.db.sessions { store.Rollback(); return Failure(SessionNotFound); }
      if SessionExpired(store.db.sessions[artifact.author], now) {
        store.Rollback();
        return Failure(SessionExpiredError);
      }
      if artifact.workItemId.Some? {
        if artifact.workItemId.value !in store.db.views.workItems {
          store.Rollback();
          return Failure(WorkItemNotFound);
        }
        var item := store.db.views.workItems[artifact.workItemId.value];
        if item.assignee.Some? && item.assignee.value != artifact.author {
          store.Rollback();
          return Failure(WorkItemConflict);
        }
      }
      store.AppendEvent(ContextPublished, ArtifactPayload(artifact));
      store.Commit();
      ApplyAllOne(before, Emit(ContextPublished, ArtifactPayload(artifact)));
      return Success(artifact);
    }

    method Complete(agent: Id, workItem: Id, runId: Option<Id>) returns (r: Result<WorkItem, Error>)
      requires !store.inTransaction
      modifies store
      ensures !store.inTransaction
      ensures Performed(old(store.db), store.db, Protocol.Complete(old(store.db), agent, workItem, runId), r)
    {
      hide ApplyWrite, ApplyAll, CompletionWrites;
      ghost var before := store.db;
      NoWrites(before);
      store.Begin();
      if workItem !in store.db.views.workItems { store.Rollback(); return Failure(WorkItemNotFound); }
      var item := store.db.views.workItems[workItem];
      if item.assignee != Some(agent) { store.Rollback(); return Failure(WorkItemConflict); }
      if item.state == Done { store.Commit(); return Success(item); }
      if item.evaluationSpecId.Some? {
        if item.state == Accepted {
          if item.acceptedEvaluationRunId.None? { store.Rollback(); return Failure(EvaluationNotAccepted); }
          if runId.Some? && runId != item.acceptedEvaluationRunId {
            store.Rollback();
            return Failure(EvaluationNotAccepted);
          }
        } else if item.state == ReviewRequired {
          store.Rollback();
          return Failure(EvaluationNotAccepted);
        } else if item.state == AwaitingEvaluation {
          store.Commit();
          return Success(item);
        } else {
          var complete := item;
          if item.state != ImplementationComplete {
            complete := item.(state := ImplementationComplete, version := item.version + 1);
            store.AppendEvent(WorkItemImplementationComplete, ItemPayload(complete));
          }
          var awaiting := complete.(state := AwaitingEvaluation, version := complete.version + 1);
          store.AppendEvent(WorkItemAwaitingEvaluation, ItemPayload(awaiting));
          store.Commit();
          ApplyAllOne(before, Emit(WorkItemAwaitingEvaluation, ItemPayload(awaiting)));
          ApplyTwo(before, Emit(WorkItemImplementationComplete, ItemPayload(complete)),
            Emit(WorkItemAwaitingEvaluation, ItemPayload(awaiting)));
          return Success(awaiting);
        }
      }
      Finish(item, agent);
      store.Commit();
      return Success(item.(state := Done, version := item.version + 1));
    }

    /** The last part of Complete: mark the item done, close its intents, release the agent's scopes and
        make ready whatever waited only for this item. */
    method Finish(item: WorkItem, agent: Id)
      requires store.inTransaction
      modifies store`db
      ensures store.db == ApplyAll(old(store.db), CompletionWrites(old(store.db), item, agent))
    {
      hide ApplyWrite, ApplyAll, ClosedIntents, ReleasedScopes, UnblockedItems, ProjectEvent;
      ghost var before := store.db;
      var completed := item.(state := Done, version := item.version + 1);
      store.AppendEvent(WorkItemCompleted, ItemPayload(completed));
      ghost var w0 := Emit(WorkItemCompleted, ItemPayload(completed));
      ApplyAllOne(before, w0);
      CompletedViews(before, completed);
      ghost var intents := CloseIntents(agent, item.id);
      ApplyAllAppend(before, [w0], intents);
      ghost var scopes := ReleaseScopes(agent);
      ApplyAllAppend(before, [w0] + intents, scopes);
      ghost var unblocked := ReleaseWaiting();
      ApplyAllAppend(before, [w0] + intents + scopes, unblocked);
    }

    method CloseIntents(agent: Id, workItem: Id) returns (ghost writes: seq<Write>)
      requires store.inTransaction
      modifies store`db
      ensures var v := old(store.db.views);
              && writes == ClosedIntents(v.intents, SortedIds(v.intents.Keys), agent, workItem)
              && store.db == ApplyAll(old(store.db), writes)
              && store.db.views.workItems == v.workItems && store.db.views.scopes == v.scopes
              && store.db.dependencies == old(store.db.dependencies)
    {
      hide ApplyAll, ApplyWrite, SortedIds, ClosedIntents;
      ghost var before := store.db;
      var intents := store.db.views.intents;
      var ids := SortedIds(intents.Keys);
      writes := [];
      NoWrites(before);
      NothingClosed(agent, workItem, intents, store.db.views.scopes);
      var k := 0;
      while k < |ids|
        invariant 0 <= k <= |ids|
        invariant writes == ClosedIntents(intents, ids[..k], agent, workItem)
        invariant store.db == ApplyAll(before, writes)
        invariant store.db.views.workItems == before.views.workItems && store.db.views.scopes == before.views.scopes
        invariant store.db.dependencies == before.dependencies
      {
        ClosedStep(intents, ids, k, agent, workItem);
        var intent := intents[ids[k]];
        if intent.agentSessionId == agent && intent.workItemId == Some(workItem) && intent.state == IntentActive {
          var w := Emit(EventType.IntentSuperseded, IntentPayload(intent.(state := IntentCompleted)));
          QuietEvent(store.db, w);
          store.AppendEvent(EventType.IntentSuperseded, IntentPayload(intent.(state := IntentCompleted)));
          OneMoreWrite(before, writes, w);
          writes := writes + [w];
        } else {
          assert writes + [] == writes;
        }
        k := k + 1;
      }
      assert ids[..k] == ids;
    }

    method ReleaseScopes(agent: Id) returns (ghost writes: seq<Write>)
      requires store.inTransaction
      modifies store`db
      ensures var v := old(store.db.views);
              && writes == ReleasedScopes(v.scopes, SortedIds(v.scopes.Keys), agent)
              && store.db == ApplyAll(old(store.db), writes)
              && store.db.views.workItems == v.workItems
              && store.db.dependencies == old(store.db.dependencies)
    {
      hide ApplyAll, ApplyWrite, SortedIds, ReleasedScopes;
      ghost var before := store.db;
      var scopes := store.db.views.scopes;
      var ids := SortedIds(scopes.Keys);
      writes := [];
      NoWrites(before);
      NothingClosed(agent, 0, store.db.views.intents, scopes);
      var k := 0;
      while k < |ids|
        invariant 0 <= k <= |ids|
        invariant writes == ReleasedScopes(scopes, ids[..k], agent)
        invariant store.db == ApplyAll(before, writes)
        invariant store.db.views.workItems == before.views.workItems && store.db.dependencies == before.dependencies
      {
        ReleasedScopesStep(scopes, ids, k, agent);
        var scope := scopes[ids[k]];
        if scope.agentSessionId == agent && !scope.released {
          var w := Emit(ScopeReleased, ScopePayload(scope.(released := true)));
          QuietEvent(store.db, w);
          store.AppendEvent(ScopeReleased, ScopePayload(scope.(released := true)));
          OneMoreWrite(before, writes, w);
          writes := writes + [w];
        } else {
          assert writes + [] == writes;
        }
        k := k + 1;
      }
      assert ids[..k] == ids;
    }

    method ReleaseWaiting() returns (ghost writes: seq<Write>)
      requires store.inTransaction
      modifies store`db
      ensures var items := old(store.db.views.workItems);
              && writes == UnblockedItems(items, old(store.db.dependencies), SortedIds(items.Keys))
              && store.db == ApplyAll(old(store.db), writes)
    {
      hide ApplyAll, SortedIds, Blockers, ApplyWrite, UnblockedItems;
      ghost var before := store.db;
      var items, dependencies := store.db.views.workItems, store.db.dependencies;
      var ids := SortedIds(items.Keys);
      writes := [];
      NoWrites(before);
      NothingUnblocked(items, dependencies);
      var k := 0;
      while k < |ids|
        invariant 0 <= k <= |ids|
        invariant writes == UnblockedItems(items, dependencies, ids[..k])
        invariant store.db == ApplyAll(before, writes)
      {
        UnblockedStep(items, dependencies, ids, k);
        var candidate := items[ids[k]];
        if candidate.state == Blocked && |Blockers(candidate.id, dependencies, items)| == 0 {
          var ready := candidate.(state := Ready, version := candidate.version + 1);
          store.AppendEvent(WorkItemUnblocked, ItemPayload(ready));
          OneMoreWrite(before, writes, Emit(WorkItemUnblocked, ItemPayload(ready)));
          writes := writes + [Emit(WorkItemUnblocked, ItemPayload(ready))];
        } else {
          assert writes + [] == writes;
        }
        k := k + 1;
      }
      assert ids[..k] == ids;
    }

    method ApplyEvaluationDecision(runId: Id) returns (r: Result<WorkItem, Error>)
      requires !store.inTransaction
      modifies store
      ensures !store.inTransaction
      ensures Performed(old(store.db), store.db, ApplyDecision(old(store.db), runId), r)
    {
      hide ApplyWrite, ApplyAll;
      ghost var before := store.db;
      NoWrites(before);
      store.Begin();
      if runId !in store.db.runs || store.db.runs[runId].state != Completed {
        store.Rollback();
        return Failure(EvaluationNotAccepted);
      }
      var run := store.db.runs[runId];
      if runId !in store.db.decisions { store.Rollback(); return Failure(EvaluationInconclusive); }
      var decision := store.db.decisions[runId];
      if run.specId !in store.db.specs { store.Rollback(); return Failure(SpecInvalid); }
      if run.workItemId !in store.db.views.workItems { store.Rollback(); return Failure(WorkItemNotFound); }
      var item := store.db.views.workItems[run.workItemId];
      if item.evaluationSpecId.None? { store.Commit(); return Success(item); }
      if item.evaluationSpecId.value != run.specId { store.Rollback(); return Failure(SpecInvalid); }
      if item.state != AwaitingEvaluation { store.Rollback(); return Failure(EvaluationNotAccepted); }
      if decision == DecisionAccepted {
        var accepted := item.(state := Accepted, acceptedEvaluationRunId := Some(run.id), version := item.version + 1);
        store.AppendEvent(WorkItemEvaluationAccepted, ItemPayload(accepted));
        store.Commit();
        ApplyAllOne(before, Emit(WorkItemEvaluationAccepted, ItemPayload(accepted)));
        return Success(accepted);
      }
      var nextState := if decision == DecisionRejected then NeedsRetry else ReviewRequired;
      var event := if decision == DecisionRejected then WorkItemEvaluationRejected
          else WorkItemEvaluationReviewRequired;
      var updated := item.(state := nextState, version := item.version + 1);
      store.AppendEvent(event, ItemPayload(updated));
      store.Commit();
      ApplyAllOne(before, Emit(event, ItemPayload(updated)));
      return Success(updated);
    }
  }

  /** Closing an intent or releasing a scope touches nothing else that completion reads. */
  lemma QuietEvent(db: Db, w: Write)
    requires w.Emit? && (w.eventType.IntentSuperseded? || w.eventType.ScopeReleased?)
    ensures var next := ApplyWrite(db, w);
            && next.views.workItems == db.views.workItems && next.dependencies == db.dependencies
            && (w.eventType.IntentSuperseded? ==> next.views.scopes == db.views.scopes)
  {
  }

  lemma CompletedViews(db: Db, completed: WorkItem)
    ensures var next := ApplyWrite(db, Emit(WorkItemCompleted, ItemPayload(completed)));
            && next.views == db.views.(workItems := db.views.workItems[completed.id := completed])
            && next.dependencies == db.dependencies
  {
  }
}
