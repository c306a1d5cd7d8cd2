/** The evaluation runtime: evaluation runs, their results and their decisions. */
module EvaluationRuntime {
  import opened Wrappers
  import opened Contracts
  import opened EventStore
  import opened Acceptance
  import opened Protocol
  import opened CoordinationRuntime

  class EvaluationRuntime {
    const store: SqliteCoordinationStore
    const providers: set<string>

    constructor (store: SqliteCoordinationStore, providers: set<string>)
      ensures this.store == store && this.providers == providers
    {
      this.store := store;
      this.providers := providers;
    }

    method RegisterSpec(id: Id, criteria: seq<EvaluationCriterion>) returns (r: Result<EvaluationSpec, Error>)
      requires !store.inTransaction
      modifies store
      ensures !store.inTransaction
      ensures Performed(old(store.db), store.db, Protocol.RegisterSpec(old(store.db), id, criteria), r)
    {
      hide ApplyWrite, ApplyAll, ValidCriteria;
      ghost var before := store.db;
      NoWrites(before);
      if !ValidCriteria(criteria) { return Failure(InvalidArgument); }
      var spec := EvaluationSpec(id, 1, criteria);
      store.Begin();
      if !store.db.projectOpen { store.Rollback(); return Failure(ProjectNotFound); }
      store.Put(PutSpec(spec));
      store.AppendEvent(EvaluationSpecRegistered, OtherPayload);
      store.Commit();
      ApplyTwo(before, PutSpec(spec), Emit(EvaluationSpecRegistered, OtherPayload));
      return Success(spec);
    }

    method RequestRun(
        id: Id, specId: Id, workItem: Id, target: string, attempt: nat) returns (r: Result<EvaluationRun, Error>)
      requires !store.inTransaction
      modifies store
      ensures !store.inTransaction
      ensures Performed(old(store.db), store.db,
              Protocol.RequestRun(old(store.db), id, specId, workItem, target, attempt), r)
    {
      hide ApplyWrite, ApplyAll;
      ghost var before := store.db;
      NoWrites(before);
      store.Begin();
      if specId !in store.db.specs { store.Rollback(); return Failure(SpecInvalid); }
      var spec := store.db.specs[specId];
      if workItem !in store.db.views.workItems { store.Rollback(); return Failure(WorkItemNotFound); }
      var item := store.db.views.workItems[workItem];
      if item.evaluationSpecId.Some? && item.evaluationSpecId.value != specId {
        store.Rollback();
        return Failure(SpecInvalid);
      }
      if |target| < 1 || |target| > 1024 || attempt < 1 || attempt > 100 {
        store.Rollback();
        return Failure(InvalidArgument);
      }
      var run := EvaluationRun(id, specId, spec.version, workItem, target, attempt, Pending);
      store.Put(PutRun(run));
      store.AppendEvent(EvaluationRequested, OtherPayload);
      store.Commit();
      ApplyTwo(before, PutRun(run), Emit(EvaluationRequested, OtherPayload));
      return Success(run);
    }

    method RecordResult(runId: Id, input: ResultInput, provenance: Provenance, declared: Option<string>)
      returns (r: Result<StoredResult, Error>)
      requires !store.inTransaction
      modifies store
      ensures !store.inTransaction
      ensures Performed(old(store.db), store.db,
              Protocol.RecordResult(old(store.db), runId, input, provenance, declared), r)
    {
      hide ApplyWrite, ApplyAll, ResultProblem, RecordKey;
      ghost var before := store.db;
      NoWrites(before);
      store.Begin();
      if runId !in store.db.runs { store.Rollback(); return Failure(SpecInvalid); }
      var run := store.db.runs[runId];
      if run.specId !in store.db.specs || store.db.specs[run.specId].version != run.specVersion {
        store.Rollback();
        return Failure(SpecInvalid);
      }
      var criterion := FindCriterion(store.db.specs[run.specId].criteria, input.criterionId);
      if criterion.None? { store.Rollback(); return Failure(ResultConflict); }
      if provenance.VerifiedProvider? && input.providerId != RUNTIME_PROVIDER &&
        input.providerId != criterion.value.evaluatorRef {
        store.Rollback();
        return Failure(ResultConflict);
      }
      if provenance.ExternalUnverified? && exists e :: e in input.evidence && Some(e.provider) != declared {
        store.Rollback();
        return Failure(ResultConflict);
      }
      if provenance.VerifiedProvider? && exists e :: e in input.evidence && e.provider != input.providerId {
        assert exists e :: e in input.evidence && Some(e.provider) != Some(input.providerId);
        store.Rollback();
        return Failure(ResultConflict);
      }
      var problem := ResultProblem(input, run.repositoryStateRef);
      if problem.Some? { store.Rollback(); return Failure(problem.value); }
      if run.state == Completed { store.Rollback(); return Failure(ResultConflict); }
      var stored := StoredResult(runId, input, provenance, declared);
      if RecordKey(stored) in store.db.resultRecords {
        var previous := store.db.resultRecords[RecordKey(stored)];
        if previous != stored { store.Rollback(); return Failure(ResultConflict); }
        store.Commit();
        return Success(previous);
      }
      store.Put(PutResult(stored));
      store.AppendEvent(EvaluationResultRecorded, OtherPayload);
      store.Commit();
      ApplyTwo(before, PutResult(stored), Emit(EvaluationResultRecorded, OtherPayload));
      return Success(stored);
    }

    /** One turn of the loop of evaluateRun. The evaluator's answer is an input. */
    method EvaluateCriterion(
        runId: Id, index: nat, answer: Answer, ids: FallbackIds) returns (r: Result<StoredResult, Error>)
      requires !store.inTransaction
      modifies store
      ensures !store.inTransaction
      ensures Performed(old(store.db), store.db,
                        Protocol.EvaluateCriterion(old(store.db), providers, runId, index, answer, ids), r)
    {
      hide ApplyWrite, ApplyAll, Protocol.RecordResult;
      ghost var before := store.db;
      NoWrites(before);
      if runId !in store.db.runs || store.db.runs[runId].specId !in store.db.specs { return Failure(SpecInvalid); }
      var spec := store.db.specs[store.db.runs[runId].specId];
      if index >= |spec.criteria| { return Failure(InvalidArgument); }
      var criterion := spec.criteria[index];
      if criterion.evaluatorRef !in providers || answer.Unsupported? {
        r := RecordResult(runId, ResultInput(ids.unavailable, RUNTIME_PROVIDER, criterion.id, Error, []),
            VerifiedProvider, None);
        return;
      }
      if answer.Answered? && answer.criterionId == criterion.id {
        r := RecordResult(runId,
            ResultInput(answer.providerResultId, criterion.evaluatorRef, criterion.id, answer.outcome, answer.evidence),
                          VerifiedProvider, None);
        if r.Success? { return; }
        RefusedWritesNothing(before, runId,
          ResultInput(answer.providerResultId, criterion.evaluatorRef, criterion.id, answer.outcome, answer.evidence),
            VerifiedProvider, None);
      }
      r := RecordResult(runId, ResultInput(ids.error, criterion.evaluatorRef, criterion.id, Error, []),
          VerifiedProvider, None);
    }

    method StartRun(runId: Id) returns (r: Result<EvaluationRun, Error>)
      requires !store.inTransaction
      modifies store
      ensures !store.inTransaction
      ensures Performed(old(store.db), store.db, Protocol.StartRun(old(store.db), runId), r)
    {
      hide ApplyWrite, ApplyAll;
      ghost var before := store.db;
      NoWrites(before);
      store.Begin();
      if runId !in store.db.runs { store.Rollback(); return Failure(SpecInvalid); }
      var run := store.db.runs[runId];
      if run.state != Pending { store.Commit(); return Success(run); }
      var started := run.(state := Running);
      store.Put(PutRun(started));
      store.AppendEvent(EvaluationStarted, OtherPayload);
      store.Commit();
      ApplyTwo(before, PutRun(started), Emit(EvaluationStarted, OtherPayload));
      return Success(started);
    }

    /** The rows of the results table that belong to a run. */
    method ListEvaluationResults(runId: Id) returns (results: seq<StoredResult>)
      ensures (set r | r in results) == ResultsOf(store.db.results, runId)
    {
      var table := store.db.results;
      var keys := table.Keys;
      results := [];
      while keys != {}
        invariant keys <= table.Keys
        invariant forall r :: r in results <==> exists k :: k in table && k !in keys && k.0 == runId && table[k] == r
        decreases |keys|
      {
        var k :| k in keys;
        keys := keys - {k};
        if k.0 == runId { results := results + [table[k]]; }
      }
    }

    method CompleteRun(runId: Id) returns (r: Result<EvaluationRun, Error>)
      requires !store.inTransaction
      modifies store
      ensures !store.inTransaction
      ensures Performed(old(store.db), store.db, Protocol.CompleteRun(old(store.db), runId), r)
    {
      hide ApplyWrite, ApplyAll, Decide, ResultsOf;
      ghost var before := store.db;
      NoWrites(before);
      store.Begin();
      if runId !in store.db.runs { store.Rollback(); return Failure(SpecInvalid); }
      var run := store.db.runs[runId];
      if run.specId !in store.db.specs { store.Rollback(); return Failure(SpecInvalid); }
      if run.state == Completed { store.Commit(); return Success(run); }
      var results := ListEvaluationResults(runId);
      var decision, _, _ := EvaluateAcceptance(store.db.specs[run.specId], run.repositoryStateRef, results);
      var completed := run.(state := Completed);
      store.Put(PutDecision(runId, decision));
      store.Put(PutRun(completed));
      store.AppendEvent(EvaluationCompleted, OtherPayload);
      store.AppendEvent(AcceptanceDecided, OtherPayload);
      store.Commit();
      FourWrites(before, PutDecision(runId, decision), PutRun(completed),
                 Emit(EvaluationCompleted, OtherPayload), Emit(AcceptanceDecided, OtherPayload));
      return Success(completed);
    }
  }

  lemma RefusedWritesNothing(db: Db, runId: Id, input: ResultInput, provenance: Provenance, declared: Option<string>)
    ensures var out := Protocol.RecordResult(db, runId, input, provenance, declared);
            out.reply.Failure? ==> out.writes == []
  {
    hide ResultProblem, RecordKey, FindCriterion;
  }

  lemma FourWrites(db: Db, a: Write, b: Write, c: Write, d: Write)
    ensures ApplyAll(db, [a, b, c, d]) == ApplyWrite(ApplyWrite(ApplyWrite(ApplyWrite(db, a), b), c), d)
  {
    hide ApplyWrite;
    assert [a, b, c, d] == [a, b] + [c, d];
    ApplyAllAppend(db, [a, b], [c, d]);
    ApplyTwo(db, a, b);
    ApplyTwo(ApplyWrite(ApplyWrite(db, a), b), c, d);
  }
}
