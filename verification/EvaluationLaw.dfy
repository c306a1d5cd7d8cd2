/** What every transaction makes of the evaluation tables, told by the tables it finds, and where results come from. */
module EvaluationLaw {
  import opened Wrappers
  import opened Contracts
  import opened EventStore
  import opened EventLog
  import opened Acceptance
  import opened Protocol
  import opened ProtocolInvariants
  import opened ProtocolTheorems

  // ---------- Results ----------

  /** The row under which the results table keeps a result. */
  function RowOf(r: StoredResult): (Id, string, string) { (r.runId, r.input.criterionId, r.input.providerResultId) }

  /** The text under which a result is recognised when it comes again. */
  function NameOf(r: StoredResult): (Id, string) { (r.runId, r.input.criterionId + ":" + r.input.providerResultId) }

  /** Whom the evidence of a result must come from. */
  function Vouching(r: StoredResult): Option<string> {
    if r.provenance.VerifiedProvider? then Some(r.input.providerId) else r.declaredProviderId
  }

  /** Identifiers within their lengths, and at most fifty pieces of evidence, each from the one who vouches and bound to
      the target. */
  predicate Proper(r: StoredResult, target: string) {
    && 1 <= |r.input.providerResultId| <= 256 && 1 <= |r.input.providerId| <= 128 && |r.input.criterionId| <= 128
    && |r.input.evidence| <= 50
    && forall e :: e in r.input.evidence ==>
         Some(e.provider) == Vouching(r) && e.targetStateRef == target && 1 <= |e.provider| <= 128 &&
           1 <= |e.digest| <= 256
  }

  /** The run is open and its specification, in the run's version, has the criterion; a verified result comes from the
      criterion's evaluator or from the runtime itself. */
  predicate Welcome(db: Db, r: StoredResult) {
    && r.runId in db.runs && db.runs[r.runId].state != Completed && db.runs[r.runId].specId in db.specs
    && var spec := db.specs[db.runs[r.runId].specId];
       && spec.version == db.runs[r.runId].specVersion
       && (exists c :: c in spec.criteria && c.id == r.input.criterionId)
       && (r.provenance.VerifiedProvider? ==>
             r.input.providerId == "evaluation-runtime" ||
             exists c :: c in spec.criteria && c.id == r.input.criterionId && c.evaluatorRef == r.input.providerId)
  }

  predicate Recordable(db: Db, r: StoredResult) { Welcome(db, r) && Proper(r, db.runs[r.runId].repositoryStateRef) }

  predicate Known(db: Db, r: StoredResult) { NameOf(r) in db.resultRecords }

  /** Recording a result succeeds: it is stored now, or it was before. */
  predicate Taken(db: Db, r: StoredResult) { Recordable(db, r) && (Known(db, r) ==> db.resultRecords[NameOf(r)] == r) }

  function ResultsWith(db: Db, r: StoredResult): map<(Id, string, string), StoredResult> {
    if Recordable(db, r) && !Known(db, r) then db.results[RowOf(r) := r] else db.results
  }

  function RecordsWith(db: Db, r: StoredResult): map<(Id, string), StoredResult> {
    if Recordable(db, r) && !Known(db, r) then db.resultRecords[NameOf(r) := r] else db.resultRecords
  }

  // ---------- Which result an operation records ----------

  /** What an evaluator answered, as a verified result of its criterion. */
  function AnswerResult(run: Id, c: EvaluationCriterion, answer: Answer): StoredResult
    requires answer.Answered?
  {
    StoredResult(run, ResultInput(answer.providerResultId, c.evaluatorRef, c.id, answer.outcome, answer.evidence),
                 VerifiedProvider, None)
  }

  function ErrorResult(run: Id, c: EvaluationCriterion, provider: string, id: string): StoredResult {
    StoredResult(run, ResultInput(id, provider, c.id, Error, []), VerifiedProvider, None)
  }

  /** A registered evaluator that supports the criterion. */
  predicate Available(providers: set<string>, c: EvaluationCriterion, answer: Answer) {
    c.evaluatorRef in providers && !answer.Unsupported?
  }

  /** The evaluator answered for its own criterion, and its answer is taken. */
  predicate Counts(db: Db, providers: set<string>, run: Id, c: EvaluationCriterion, answer: Answer) {
    && Available(providers, c, answer) && answer.Answered? && answer.criterionId == c.id
    && Taken(db, AnswerResult(run, c, answer))
  }

  /** The evaluator's answer if it counts; otherwise an error, in the name of the runtime when there is no evaluator. */
  function ResultFor(
      db: Db, providers: set<string>, run: Id, c: EvaluationCriterion, answer: Answer, ids: FallbackIds): StoredResult
  {
    if Counts(db, providers, run, c, answer) then AnswerResult(run, c, answer)
    else if Available(providers, c, answer) then ErrorResult(run, c, c.evaluatorRef, ids.error)
    else ErrorResult(run, c, "evaluation-runtime", ids.unavailable)
  }

  /** What a caller sent in is kept as unverified, under the name it declares. */
  function ExternalResult(run: Id, input: ResultInput, declared: Option<string>): StoredResult {
    StoredResult(run, input.(providerId := "external-evidence"), ExternalUnverified,
                 if declared.Some? then declared else Some(input.providerId))
  }

  predicate HasCriterion(db: Db, run: Id, index: nat) {
    run in db.runs && db.runs[run].specId in db.specs && index < |db.specs[db.runs[run].specId].criteria|
  }

  /** The result an operation is about, if it is about one. */
  function RecordedBy(db: Db, providers: set<string>, op: Op): Option<StoredResult> {
    match op
    case OpRecordExternal(run, input, declared) => Some(ExternalResult(run, input, declared))
    case OpEvaluate(run, index, answer, ids) =>
      if !HasCriterion(db, run, index) then None
      else Some(ResultFor(db, providers, run, db.specs[db.runs[run].specId].criteria[index], answer, ids))
    case _ => None
  }

  // ---------- Runs and specifications ----------

  predicate GoodCriteria(cs: seq<EvaluationCriterion>) {
    && 1 <= |cs| <= 100
    && (forall c :: c in cs ==> 1 <= |c.id| <= 128 && 1 <= |c.evaluatorRef| <= 256)
    && (forall i, j :: 0 <= i < |cs| && 0 <= j < |cs| && cs[i].id == cs[j].id ==> i == j)
  }

  function SpecsAfter(db: Db, op: Op): map<Id, EvaluationSpec> {
    if op.OpRegisterSpec? && db.projectOpen && GoodCriteria(op.criteria)
    then db.specs[op.id := EvaluationSpec(op.id, 1, op.criteria)] else db.specs
  }

  predicate Requests(db: Db, op: Op) {
    && op.OpRequestRun? && op.specId in db.specs && op.item in db.views.workItems
    && (db.views.workItems[op.item].evaluationSpecId.None? ||
       db.views.workItems[op.item].evaluationSpecId == Some(op.specId))
    && 1 <= |op.target| <= 1024 && 1 <= op.attempt <= 100
  }

  predicate Starts(db: Db, op: Op) { op.OpStartRun? && op.run in db.runs && db.runs[op.run].state == Pending }

  predicate Closes(db: Db, op: Op) {
    op.OpCompleteRun? && op.run in db.runs && db.runs[op.run].specId in db.specs && db.runs[op.run].state != Completed
  }

  function RunsAfter(db: Db, op: Op): map<Id, EvaluationRun> {
    if Requests(db, op) then
      var version := db.specs[op.specId].version;
      db.runs[op.id := EvaluationRun(op.id, op.specId, version, op.item, op.target, op.attempt, Pending)]
    else if Starts(db, op) then db.runs[op.run := db.runs[op.run].(state := Running)]
    else if Closes(db, op) then db.runs[op.run := db.runs[op.run].(state := Completed)]
    else db.runs
  }

  /** Rejected when a required criterion has failed, accepted when all are met, and undecided otherwise. */
  ghost function Verdict(spec: EvaluationSpec, target: string, results: set<StoredResult>): DecisionKind {
    if Refuted(spec, results) then DecisionRejected
    else if Satisfied(spec, target, results) then DecisionAccepted
    else DecisionInconclusive
  }

  ghost function DecisionsAfter(db: Db, op: Op): map<Id, DecisionKind> {
    if Closes(db, op) then
      var run := db.runs[op.run];
      db.decisions[op.run := Verdict(db.specs[run.specId], run.repositoryStateRef, ResultsOf(db.results, op.run))]
    else db.decisions
  }

  ghost predicate TablesFollow(db: Db, providers: set<string>, op: Op, next: Db) {
    && next.specs == SpecsAfter(db, op) && next.runs == RunsAfter(db, op) && next.decisions == DecisionsAfter(db, op)
    && (RecordedBy(db, providers, op).None? ==> next.results == db.results && next.resultRecords == db.resultRecords)
    && (RecordedBy(db, providers, op).Some? ==>
          var r := RecordedBy(db, providers, op).value;
          next.results == ResultsWith(db, r) && next.resultRecords == RecordsWith(db, r))
  }

  // ---------- The law ----------

  lemma {:induction false} FoundCriterion(cs: seq<EvaluationCriterion>, id: string)
    ensures FindCriterion(cs, id).Some? <==> exists c :: c in cs && c.id == id
  {
    var found := FindCriterion(cs, id);
  }

  lemma UniqueCriterion(cs: seq<EvaluationCriterion>, id: string, provider: string)
    requires ValidCriteria(cs) && FindCriterion(cs, id).Some?
    ensures FindCriterion(cs, id).value.evaluatorRef == provider <==>
            exists c :: c in cs && c.id == id && c.evaluatorRef == provider
  {
    var found := FindCriterion(cs, id).value;
    if c :| c in cs && c.id == id && c.evaluatorRef == provider {
      var i :| 0 <= i < |cs| && cs[i] == found;
      var j :| 0 <= j < |cs| && cs[j] == c;
      assert i == j;
    }
  }

  lemma ProperMeans(r: StoredResult, target: string)
    ensures Proper(r, target) <==>
            !(exists e :: e in r.input.evidence && Some(e.provider) != Vouching(r)) &&
                ResultProblem(r.input, target).None?
  {
  }

  lemma RecordFollows(db: Db, r: StoredResult)
    requires ReferenceInv(db)
    ensures var out := RecordResult(db, r.runId, r.input, r.provenance, r.declaredProviderId);
            && (out.reply.Success? <==> Taken(db, r)) && (out.reply.Success? ==> out.reply.value == r)
            && out.writes == if Recordable(db, r) && !Known(db, r)
                             then [PutResult(r), Emit(EvaluationResultRecorded, OtherPayload)] else []
  {
    if r.runId in db.runs && db.runs[r.runId].specId in db.specs {
      var cs := db.specs[db.runs[r.runId].specId].criteria;
      FoundCriterion(cs, r.input.criterionId);
      if FindCriterion(cs, r.input.criterionId).Some? { UniqueCriterion(cs, r.input.criterionId, r.input.providerId); }
      ProperMeans(r, db.runs[r.runId].repositoryStateRef);
    }
    hide ResultProblem, Proper, FindCriterion, ValidCriteria;
  }

  lemma EvaluateFollows(db: Db, providers: set<string>, run: Id, index: nat, answer: Answer, ids: FallbackIds)
    requires ReferenceInv(db) && HasCriterion(db, run, index)
    ensures var r := ResultFor(db, providers, run, db.specs[db.runs[run].specId].criteria[index], answer, ids);
            EvaluateCriterion(db, providers, run, index, answer, ids).writes ==
              if Recordable(db, r) && !Known(db, r) then [PutResult(r), Emit(EvaluationResultRecorded, OtherPayload)]
                else []
  {
    hide ReferenceInv, RecordResult, Recordable, Known;
    var c := db.specs[db.runs[run].specId].criteria[index];
    RecordFollows(db, ErrorResult(run, c, "evaluation-runtime", ids.unavailable));
    RecordFollows(db, ErrorResult(run, c, c.evaluatorRef, ids.error));
    if answer.Answered? {
      RecordFollows(db, AnswerResult(run, c, answer));
      if answer.criterionId == c.id { TakenAnswer(db, AnswerResult(run, c, answer)); }
    }
  }

  lemma TakenAnswer(db: Db, r: StoredResult)
    ensures Taken(db, r) ==> Recordable(db, r)
  {
  }

  lemma ResultWrite(db: Db, r: StoredResult)
    ensures var next := ApplyAll(db, [PutResult(r), Emit(EvaluationResultRecorded, OtherPayload)]);
            && next.results == db.results[RowOf(r) := r] && next.resultRecords == db.resultRecords[NameOf(r) := r]
            && next.specs == db.specs && next.runs == db.runs && next.decisions == db.decisions
  {
    ApplyTwo(db, PutResult(r), Emit(EvaluationResultRecorded, OtherPayload));
  }

  lemma EventsOnly(db: Db, ws: seq<Write>)
    requires Tableless(ws)
    ensures var next := ApplyAll(db, ws);
            && next.specs == db.specs && next.runs == db.runs && next.decisions == db.decisions
            && next.results == db.results && next.resultRecords == db.resultRecords
    decreases |ws|
  {
    if ws != [] {
      EventOnly(db, ws[0]);
      hide ApplyWrite;
      EventsOnly(ApplyWrite(db, ws[0]), ws[1..]);
    }
  }

  lemma EventOnly(db: Db, w: Write)
    requires w.Emit? || w.PutSession? || w.PutDependency?
    ensures var next := ApplyWrite(db, w);
            && next.specs == db.specs && next.runs == db.runs && next.decisions == db.decisions
            && next.results == db.results && next.resultRecords == db.resultRecords
  {
  }

  lemma RecordedFollows(db: Db, providers: set<string>, op: Op)
    requires ReferenceInv(db) && (op.OpRecordExternal? || op.OpEvaluate?)
    ensures TablesFollow(db, providers, op, Next(db, providers, op))
  {
    OtherTablesStay(db, op);
    hide ApplyAll, RecordResult, EvaluateCriterion, ResultFor, Recordable, Known, SpecsAfter, RunsAfter, DecisionsAfter;
    hide ReferenceInv;
    if op.OpRecordExternal? {
      var r := ExternalResult(op.run, op.input, op.declared);
      RecordFollows(db, r);
      RecordedEffect(db, r, WritesOf(db, providers, op));
    } else if HasCriterion(db, op.run, op.index) {
      EvaluateFollows(db, providers, op.run, op.index, op.answer, op.ids);
      var c := db.specs[db.runs[op.run].specId].criteria[op.index];
      RecordedEffect(db, ResultFor(db, providers, op.run, c, op.answer, op.ids), WritesOf(db, providers, op));
    } else {
      NothingToEvaluate(db, providers, op);
      ApplyNone(db);
    }
  }

  lemma RecordedEffect(db: Db, r: StoredResult, ws: seq<Write>)
    requires ws == if Recordable(db, r) && !Known(db, r)
             then [PutResult(r), Emit(EvaluationResultRecorded, OtherPayload)] else []
    ensures var next := ApplyAll(db, ws);
            && next.specs == db.specs && next.runs == db.runs && next.decisions == db.decisions
            && next.results == ResultsWith(db, r) && next.resultRecords == RecordsWith(db, r)
  {
    hide ApplyAll, Recordable, Known;
    if ws == [] { ApplyNone(db); } else { ResultWrite(db, r); }
  }

  lemma OtherTablesStay(db: Db, op: Op)
    requires op.OpRecordExternal? || op.OpEvaluate?
    ensures SpecsAfter(db, op) == db.specs && RunsAfter(db, op) == db.runs && DecisionsAfter(db, op) == db.decisions
  {
    hide GoodCriteria;
  }

  lemma NothingToEvaluate(db: Db, providers: set<string>, op: Op)
    requires op.OpEvaluate? && !HasCriterion(db, op.run, op.index)
    ensures WritesOf(db, providers, op) == []
  {
  }

  lemma SpecFollows(db: Db, providers: set<string>, op: Op)
    requires op.OpRegisterSpec?
    ensures TablesFollow(db, providers, op, Next(db, providers, op))
  {
    assert ValidCriteria(op.criteria) <==> GoodCriteria(op.criteria);
    hide ValidCriteria, GoodCriteria, ApplyAll;
    if db.projectOpen && GoodCriteria(op.criteria) {
      ApplyTwo(db, PutSpec(EvaluationSpec(op.id, 1, op.criteria)), Emit(EvaluationSpecRegistered, OtherPayload));
    } else {
      ApplyNone(db);
    }
  }

  lemma RequestFollows(db: Db, providers: set<string>, op: Op)
    requires op.OpRequestRun?
    ensures TablesFollow(db, providers, op, Next(db, providers, op))
  {
    hide GoodCriteria, ApplyAll;
    var ws := WritesOf(db, providers, op);
    if Requests(db, op) {
      ApplyTwo(db, ws[0], ws[1]);
    } else {
      ApplyNone(db);
    }
  }

  lemma StartFollows(db: Db, providers: set<string>, op: Op)
    requires op.OpStartRun? && ReferenceInv(db)
    ensures TablesFollow(db, providers, op, Next(db, providers, op))
  {
    hide GoodCriteria, ValidCriteria, ApplyAll;
    if Starts(db, op) {
      var started := db.runs[op.run].(state := Running);
      ApplyTwo(db, PutRun(started), Emit(EvaluationStarted, OtherPayload));
    } else {
      ApplyNone(db);
    }
  }

  lemma CloseFollows(db: Db, providers: set<string>, op: Op)
    requires op.OpCompleteRun? && ReferenceInv(db)
    ensures TablesFollow(db, providers, op, Next(db, providers, op))
  {
    hide ApplyAll, Decide, ResultsOf, Satisfied, Refuted, ValidCriteria;
    var ws := WritesOf(db, providers, op);
    if Closes(db, op) {
      var run := db.runs[op.run];
      DecisionMeaning(db.specs[run.specId], run.repositoryStateRef, ResultsOf(db.results, op.run));
      assert ws == [ws[0], ws[1]] + [ws[2], ws[3]];
      ApplyAllAppend(db, [ws[0], ws[1]], [ws[2], ws[3]]);
      ApplyTwo(db, ws[0], ws[1]);
      EventsOnly(ApplyAll(db, [ws[0], ws[1]]), [ws[2], ws[3]]);
    } else {
      ApplyNone(db);
    }
  }

  predicate Tableless(ws: seq<Write>) {
    forall k :: 0 <= k < |ws| ==> ws[k].Emit? || ws[k].PutSession? || ws[k].PutDependency?
  }

  /** The other transactions write no evaluation table. */
  lemma OthersTableless(db: Db, providers: set<string>, op: Op)
    requires Inv(db, providers)
    requires !op.OpRecordExternal? && !op.OpEvaluate? && !op.OpRegisterSpec? && !op.OpRequestRun? && !op.OpStartRun?
    requires !op.OpCompleteRun?
    ensures Tableless(WritesOf(db, providers, op))
  {
    hide Claim, Complete, ApplyDecision, Inv, DependencyProblem;
    match op
    case OpClaim(c, now) => ClaimTableless(db, c, now);
    case OpComplete(agent, id, run) =>
      InvParts(db, providers);
      CompletionTableless(db, agent, id, run);
    case OpApplyDecision(run) => DecisionTableless(db, run);
    case _ =>
  }

  lemma ClaimTableless(db: Db, c: ClaimInput, now: int)
    ensures Tableless(Claim(db, c, now).writes)
  {
    hide Blockers, SessionExpired;
  }

  lemma DecisionTableless(db: Db, run: Id)
    ensures Tableless(ApplyDecision(db, run).writes)
  {
  }

  lemma CompletionTableless(db: Db, agent: Id, id: Id, run: Option<Id>)
    requires forall x :: x in db.views.workItems ==> db.views.workItems[x].id == x
    ensures Tableless(Complete(db, agent, id, run).writes)
  {
    hide CompletionWrites;
    if id in db.views.workItems {
      CompletionEffect(db, db.views.workItems[id], agent);
    }
  }

  /** Every transaction makes of the evaluation tables what the law says. */
  lemma TablesFollowTheLaw(db: Db, providers: set<string>, op: Op)
    requires Inv(db, providers) && Fresh(db, op)
    ensures TablesFollow(db, providers, op, Next(db, providers, op))
  {
    InvParts(db, providers);
    hide Inv, LogInv, DependencyInv, BlockedInv, RunInv, GenuineInv, GateInv, Next, TablesFollow;
    match op
    case OpRecordExternal(_, _, _) => RecordedFollows(db, providers, op);
    case OpEvaluate(_, _, _, _) => RecordedFollows(db, providers, op);
    case OpRegisterSpec(_, _) => SpecFollows(db, providers, op);
    case OpRequestRun(_, _, _, _, _) => RequestFollows(db, providers, op);
    case OpStartRun(_) => StartFollows(db, providers, op);
    case OpCompleteRun(_) => CloseFollows(db, providers, op);
    case _ => CoordinationFollows(db, providers, op);
  }

  lemma CoordinationFollows(db: Db, providers: set<string>, op: Op)
    requires Inv(db, providers)
    requires !op.OpRecordExternal? && !op.OpEvaluate? && !op.OpRegisterSpec? && !op.OpRequestRun? && !op.OpStartRun?
    requires !op.OpCompleteRun?
    ensures TablesFollow(db, providers, op, Next(db, providers, op))
  {
    hide Inv, WritesOf;
    OthersTableless(db, providers, op);
    EventsOnly(db, WritesOf(db, providers, op));
  }

  // ---------- Results over runs ----------

  predicate NamesCriterion(db: Db, run: Id, criterionId: string) {
    && run in db.runs && db.runs[run].specId in db.specs
    && exists c :: c in db.specs[db.runs[run].specId].criteria && c.id == criterionId
  }

  /** Both copies of the results hold the same, each under its own key. */
  ghost predicate CopiesAgree(
      results: map<(Id, string, string), StoredResult>, records: map<(Id, string), StoredResult>)
  {
    && (forall k :: k in results ==>
          RowOf(results[k]) == k && NameOf(results[k]) in records && records[NameOf(results[k])] == results[k])
    && (forall k :: k in records ==>
          NameOf(records[k]) == k && RowOf(records[k]) in results && results[RowOf(records[k])] == records[k])
  }

  ghost predicate CriteriaNamed(db: Db) { forall k :: k in db.results ==> NamesCriterion(db, k.0, k.1) }

  ghost predicate VersionsKept(db: Db) {
    forall r :: r in db.runs ==>
      db.runs[r].specId in db.specs && db.specs[db.runs[r].specId].version == db.runs[r].specVersion
  }

  /** Both copies of the results agree, each result is of a criterion of its run, and runs have their specification's
      version. */
  ghost predicate ResultsInv(db: Db) {
    CopiesAgree(db.results, db.resultRecords) && CriteriaNamed(db) && VersionsKept(db)
  }

  /** Specifications stay; runs keep theirs. */
  lemma SpecificationsStay(db: Db, providers: set<string>, op: Op, next: Db)
    requires TablesFollow(db, providers, op, next) && Fresh(db, op)
    ensures forall s :: s in db.specs ==> s in next.specs && next.specs[s] == db.specs[s]
    ensures forall r :: r in db.runs ==>
              r in next.runs && next.runs[r] == db.runs[r].(state := next.runs[r].state) &&
              (db.runs[r].state == Completed ==> next.runs[r].state == Completed)
    ensures forall r :: r in db.decisions && r in db.runs && db.runs[r].state == Completed ==>
              r in next.decisions && next.decisions[r] == db.decisions[r]
  {
    hide Verdict, ResultsOf, GoodCriteria, RecordedBy, ResultsWith, RecordsWith;
  }

  lemma NewRunHasVersion(db: Db, providers: set<string>, op: Op, next: Db)
    requires TablesFollow(db, providers, op, next) && Fresh(db, op) && VersionsKept(db)
    ensures VersionsKept(next)
  {
    hide Verdict, ResultsOf, GoodCriteria, RecordedBy, ResultsWith, RecordsWith;
  }

  lemma AddCopy(
      results: map<(Id, string, string), StoredResult>, records: map<(Id, string), StoredResult>, r: StoredResult)
    requires CopiesAgree(results, records) && NameOf(r) !in records
    ensures CopiesAgree(results[RowOf(r) := r], records[NameOf(r) := r]) && RowOf(r) !in results
  {
    assert forall k :: k in results && k == RowOf(r) ==> NameOf(results[k]) == NameOf(r);
  }

  /** What a transaction does to the results: nothing, or one more. */
  lemma ResultsChange(db: Db, providers: set<string>, op: Op, next: Db) returns (r: Option<StoredResult>)
    requires TablesFollow(db, providers, op, next)
    ensures if r.None? then next.results == db.results && next.resultRecords == db.resultRecords
            else
              && Recordable(db, r.value) && !Known(db, r.value) && RecordedBy(db, providers, op) == r
              && next.results == db.results[RowOf(r.value) := r.value]
              && next.resultRecords == db.resultRecords[NameOf(r.value) := r.value]
  {
    hide SpecsAfter, RunsAfter, DecisionsAfter, RecordedBy, Recordable, Known;
    r := RecordedBy(db, providers, op);
    if r.Some? && !(Recordable(db, r.value) && !Known(db, r.value)) { r := None; }
  }

  lemma NextKeepsResults(db: Db, providers: set<string>, op: Op)
    requires Inv(db, providers) && Fresh(db, op) && ResultsInv(db)
    ensures ResultsInv(Next(db, providers, op))
    ensures var next := Next(db, providers, op);
            forall k :: k in db.results ==> k in next.results && next.results[k] == db.results[k]
  {
    var next := Next(db, providers, op);
    TablesFollowTheLaw(db, providers, op);
    hide Inv, Next, CopiesAgree, CriteriaNamed, VersionsKept, TablesFollow, Fresh, Recordable, Known, RecordedBy;
    SpecificationsStay(db, providers, op, next);
    NewRunHasVersion(db, providers, op, next);
    CriteriaStay(db, next);
    var r := ResultsChange(db, providers, op, next);
    if r.Some? { ResultAdded(db, r.value, next); } else { NothingAdded(db, next); }
  }

  lemma NothingAdded(db: Db, next: Db)
    requires CriteriaNamed(db) && next.results == db.results
    requires forall run, id :: NamesCriterion(db, run, id) ==> NamesCriterion(next, run, id)
    ensures CriteriaNamed(next)
  {
    hide NamesCriterion;
  }

  lemma ResultAdded(db: Db, r: StoredResult, next: Db)
    requires CopiesAgree(db.results, db.resultRecords) && CriteriaNamed(db) && Recordable(db, r) && !Known(db, r)
    requires next.results == db.results[RowOf(r) := r] && next.resultRecords == db.resultRecords[NameOf(r) := r]
    requires forall run, id :: NamesCriterion(db, run, id) ==> NamesCriterion(next, run, id)
    ensures CopiesAgree(next.results, next.resultRecords) && CriteriaNamed(next)
    ensures forall k :: k in db.results ==> k in next.results && next.results[k] == db.results[k]
  {
    assert NamesCriterion(db, r.runId, r.input.criterionId);
    AddCopy(db.results, db.resultRecords, r);
    hide NamesCriterion, CopiesAgree, Recordable, NameOf;
  }

  lemma CriteriaStay(db: Db, next: Db)
    requires forall s :: s in db.specs ==> s in next.specs && next.specs[s] == db.specs[s]
    requires forall r :: r in db.runs ==> r in next.runs && next.runs[r].specId == db.runs[r].specId
    ensures forall run, id :: NamesCriterion(db, run, id) ==> NamesCriterion(next, run, id)
  {
  }

  lemma {:induction false} RunKeepsResults(db: Db, providers: set<string>, ops: seq<Op>)
    requires Inv(db, providers) && Legal(db, providers, ops) && ResultsInv(db)
    ensures ResultsInv(Run(db, providers, ops))
    ensures var after := Run(db, providers, ops);
            forall k :: k in db.results ==> k in after.results && after.results[k] == db.results[k]
    decreases |ops|
  {
    hide Inv, Next, Fresh, ResultsInv;
    if ops != [] {
      NextKeepsResults(db, providers, ops[0]);
      NextKeepsInv(db, providers, ops[0]);
      RunKeepsResults(Next(db, providers, ops[0]), providers, ops[1..]);
    }
  }

  /** In every reachable database both tables hold the same results, each named by a criterion of its run. */
  lemma ReachableResults(db: Db, providers: set<string>)
    requires Reachable(db, providers)
    ensures ResultsInv(db)
  {
    hide Inv, Legal, Run, ResultsInv;
    var ops :| Legal(EMPTY_DB, providers, ops) && db == Run(EMPTY_DB, providers, ops);
    EmptyInv(providers);
    EmptyResults();
    RunKeepsResults(EMPTY_DB, providers, ops);
  }

  lemma EmptyResults()
    ensures ResultsInv(EMPTY_DB)
  {
  }

  /** The name of a result is not used for another one. */
  predicate NameIsFree(db: Db, r: StoredResult) {
    NameOf(r) in db.resultRecords ==> RowOf(r) in db.results && db.results[RowOf(r)] == r
  }

  /** What an evaluation of a criterion of an open run stores. The answer of the evaluator that the criterion names, for
      that criterion, proper and under a name not used for another result: the answer's own outcome and evidence, as
      verified. Anything else: an error without evidence, under the evaluator's name, or the runtime's when there is no
      evaluator. */
  lemma EvaluationStores(db: Db, providers: set<string>, run: Id, index: nat, answer: Answer, ids: FallbackIds)
    requires Inv(db, providers) && ResultsInv(db) && HasCriterion(db, run, index) && db.runs[run].state != Completed
    ensures var c, target := db.specs[db.runs[run].specId].criteria[index], db.runs[run].repositoryStateRef;
            var next := Next(db, providers, OpEvaluate(run, index, answer, ids));
            var unavailable := c.evaluatorRef !in providers || answer.Unsupported?;
            var id := if unavailable then ids.unavailable else ids.error;
            var provider := if unavailable then "evaluation-runtime" else c.evaluatorRef;
            var fallback := StoredResult(run, ResultInput(id, provider, c.id, Error, []), VerifiedProvider, None);
            if !unavailable && answer.Answered? && answer.criterionId == c.id &&
               Proper(AnswerResult(run, c, answer), target) &&
               NameIsFree(db, AnswerResult(run, c, answer))
            then
              next.results == db.results[(run, c.id, answer.providerResultId) :=
                StoredResult(
                  run, ResultInput(answer.providerResultId, c.evaluatorRef, c.id, answer.outcome, answer.evidence),
                  VerifiedProvider, None)]
            else if Proper(fallback, target) && !Known(db, fallback) then
              next.results == db.results[RowOf(fallback) := fallback]
            else next.results == db.results
  {
    TablesFollowTheLaw(db, providers, OpEvaluate(run, index, answer, ids));
    var c := db.specs[db.runs[run].specId].criteria[index];
    hide Inv, Next, Proper, SpecsAfter, RunsAfter, DecisionsAfter;
    AlwaysWelcome(db, run, c, ErrorResult(run, c, "evaluation-runtime", ids.unavailable));
    AlwaysWelcome(db, run, c, ErrorResult(run, c, c.evaluatorRef, ids.error));
    if answer.Answered? {
      AlwaysWelcome(db, run, c, AnswerResult(run, c, answer));
      SameResult(db, AnswerResult(run, c, answer));
    }
    hide ResultsInv, Welcome, Known, NameOf;
  }

  lemma AlwaysWelcome(db: Db, run: Id, c: EvaluationCriterion, r: StoredResult)
    requires ResultsInv(db) && run in db.runs && db.runs[run].state != Completed && db.runs[run].specId in db.specs
    requires c in db.specs[db.runs[run].specId].criteria && r.runId == run && r.input.criterionId == c.id
    requires r.input.providerId == "evaluation-runtime" || r.input.providerId == c.evaluatorRef
    ensures Welcome(db, r)
  {
    hide NamesCriterion, Known;
  }

  /** A result recognised as the same is the one in its row. */
  lemma SameResult(db: Db, r: StoredResult)
    requires ResultsInv(db)
    ensures Known(db, r) ==>
              (db.resultRecords[NameOf(r)] == r <==> RowOf(r) in db.results && db.results[RowOf(r)] == r)
    ensures Known(db, r) && db.resultRecords[NameOf(r)] == r ==> db.results[RowOf(r) := r] == db.results
  {
    hide NamesCriterion;
  }

  /** The operation that brought a result: an evaluation whose answer it is, or a caller who sent it in. */
  ghost predicate Brings(op: Op, r: StoredResult) {
    if r.provenance.VerifiedProvider? then
      && op.OpEvaluate? && op.run == r.runId && op.answer.Answered? && op.answer.criterionId == r.input.criterionId
      && op.answer.providerResultId == r.input.providerResultId && op.answer.outcome == r.input.outcome
      && op.answer.evidence == r.input.evidence
    else
      op.OpRecordExternal? && op.run == r.runId && r.input == op.input.(providerId := "external-evidence")
  }

  lemma StepBrings(db: Db, providers: set<string>, op: Op, k: (Id, string, string))
    requires Inv(db, providers) && Fresh(db, op)
    requires var next := Next(db, providers, op);
             k in next.results && !(k in db.results && db.results[k] == next.results[k])
    ensures var r := Next(db, providers, op).results[k];
            (r.provenance.VerifiedProvider? && r.input.outcome == Error) || Brings(op, r)
  {
    var next := Next(db, providers, op);
    TablesFollowTheLaw(db, providers, op);
    hide Inv, Next, Recordable, Known, TablesFollow, Fresh, Counts;
    var r := ResultsChange(db, providers, op, next);
  }

  /** Over any run: every verified result that is no error is the answer of some evaluation of its run, with that
      outcome and that evidence; every other result was sent in by a caller, as it is. */
  lemma {:induction false} ResultsAreBrought(db: Db, providers: set<string>, ops: seq<Op>, k: (Id, string, string))
    requires Inv(db, providers) && Legal(db, providers, ops) && k in Run(db, providers, ops).results
    ensures var r := Run(db, providers, ops).results[k];
            || (r.provenance.VerifiedProvider? && r.input.outcome == Error)
            || (k in db.results && db.results[k] == r)
            || exists i :: 0 <= i < |ops| && Brings(ops[i], r)
    decreases |ops|
  {
    hide Inv, Next, Fresh, Brings;
    if ops != [] {
      var next := Next(db, providers, ops[0]);
      NextKeepsInv(db, providers, ops[0]);
      ResultsAreBrought(next, providers, ops[1..], k);
      var r := Run(db, providers, ops).results[k];
      if i :| 0 <= i < |ops[1..]| && Brings(ops[1..][i], r) {
        assert Brings(ops[i + 1], r);
      } else if k in next.results && next.results[k] == r {
        if !(k in db.results && db.results[k] == r) { StepBrings(db, providers, ops[0], k); }
      }
    }
  }

  // ---------- Names of results ----------

  lemma {:induction false} SplitAtColon(a: string, x: string, b: string, y: string)
    requires ':' !in a && ':' !in b && a + ":" + x == b + ":" + y
    ensures a == b && x == y
  {
    var s, t := a + ":" + x, b + ":" + y;
    assert s[|a|] == ':' && t[|b|] == ':';
    assert forall i :: 0 <= i < |a| ==> s[i] == a[i] != ':';
    assert forall i :: 0 <= i < |b| ==> t[i] == b[i] != ':';
    assert |a| == |b|;
    assert s[..|a|] == a && t[..|b|] == b;
    assert s[|a| + 1..] == x && t[|b| + 1..] == y;
  }

  /** Where no criterion's identifier has a colon, a name is used exactly when the row is. */
  lemma NameMeansRow(db: Db, r: StoredResult)
    requires ResultsInv(db) && NamesCriterion(db, r.runId, r.input.criterionId)
    requires forall c :: c in db.specs[db.runs[r.runId].specId].criteria ==> ':' !in c.id
    ensures Known(db, r) <==> RowOf(r) in db.results
  {
    if Known(db, r) {
      var other := db.resultRecords[NameOf(r)];
      assert NameOf(other) == NameOf(r) && RowOf(other) in db.results;
      assert NamesCriterion(db, other.runId, other.input.criterionId);
      SplitAtColon(r.input.criterionId, r.input.providerResultId, other.input.criterionId,
        other.input.providerResultId);
    }
    if RowOf(r) in db.results {
      assert NameOf(db.results[RowOf(r)]) == NameOf(r);
    }
  }

  /** Otherwise two results of two criteria can have one name, so that the second is refused. */
  lemma NamesCollide(run: Id, input: ResultInput)
    ensures var a := input.(criterionId := "unit", providerResultId := "fast:1");
            var b := input.(criterionId := "unit:fast", providerResultId := "1");
            var r, s := StoredResult(run, a, VerifiedProvider, None), StoredResult(run, b, VerifiedProvider, None);
            NameOf(r) == NameOf(s) && RowOf(r) != RowOf(s)
  {
    assert "unit" + ":" + "fast:1" == "unit:fast" + ":" + "1";
    assert |"unit"| != |"unit:fast"|;
  }
}
