/** When items become done, when they stop being done, and when the items they depend on are done. */
module FinishedItems {
  import opened Wrappers
  import opened Contracts
  import opened EventStore
  import opened EventLog
  import opened Acceptance
  import opened Protocol
  import opened ProtocolInvariants
  import opened ProtocolTheorems

  // ---------- Who may finish an item ----------

  /** What entitles an agent to finish an item. */
  predicate MayFinish(item: WorkItem, agent: Id, run: Option<Id>) {
    && item.assignee == Some(agent) && item.state != Done
    && (item.evaluationSpecId.None? ||
        (item.state == Accepted && item.acceptedEvaluationRunId.Some? &&
            (run.None? || run == item.acceptedEvaluationRunId)))
  }

  /** Completion makes an item done on exactly these grounds; its blockers are not among them. */
  lemma CompletionGrounds(db: Db, providers: set<string>, agent: Id, id: Id, run: Option<Id>)
    requires Inv(db, providers) && id in db.views.workItems
    ensures var item, after := db.views.workItems[id], Next(db, providers, OpComplete(agent, id, run)).views.workItems;
            id in after && (item.state != Done && after[id].state == Done <==> MayFinish(item, agent, run))
  {
    var op := OpComplete(agent, id, run);
    DoneExactly(db, providers, op);
    hide Inv, Next, Reopens, MayFinish, DoneAfter;
    OnlyClaimsReopen(db, op, id);
    DoneAt(db, op, Next(db, providers, op).views.workItems, id);
  }

  lemma OnlyClaimsReopen(db: Db, op: Op, id: Id)
    requires !op.OpClaim?
    ensures !Reopens(db, op, id)
  {
  }

  lemma DoneAt(db: Db, op: Op, after: map<Id, WorkItem>, id: Id)
    requires DoneAfter(db, op, after) && id in db.views.workItems
    ensures id in after
    ensures after[id].state == Done <==>
              Finishes(db, op, id) || (db.views.workItems[id].state == Done && !Reopens(db, op, id))
  {
    hide Reopens, MayFinish;
  }

  /** At most two events of one item, none of them finishing it. */
  predicate NotFinishing(ws: seq<Write>, id: Id) {
    && |ws| <= 2 && (|ws| == 1 ==> ws == [ws[0]]) && (|ws| == 2 ==> ws == [ws[0], ws[1]])
    && forall k :: 0 <= k < |ws| ==>
         ws[k].Emit? && IsItemEvent(ws[k].eventType) && ws[k].payload.ItemPayload? &&
         ws[k].payload.item.id == id && ws[k].payload.item.state != Done
  }

  lemma CompleteForm(db: Db, agent: Id, id: Id, run: Option<Id>)
    requires id in db.views.workItems && db.views.workItems[id].id == id
    ensures var ws := Complete(db, agent, id, run).writes;
            if MayFinish(db.views.workItems[id], agent, run)
              then ws == CompletionWrites(db, db.views.workItems[id], agent)
            else NotFinishing(ws, id)
  {
    hide CompletionWrites;
  }

  // ---------- When items are done ----------

  /** The completions that finish an item. */
  predicate Finishes(db: Db, op: Op, id: Id) {
    op.OpComplete? && op.item == id && id in db.views.workItems && MayFinish(db.views.workItems[id], op.agent, op.runId)
  }

  /** The claims that reopen an item that is done: from a live session, with the item's version, of an ungated item that
      has blockers, or that nobody else holds, or that may be shared. */
  predicate Reopens(db: Db, op: Op, id: Id) {
    && op.OpClaim? && op.claim.workItem == id && id in db.views.workItems
    && SessionProblem(db, op.claim.agent, op.now).None?
    && var item := db.views.workItems[id];
       && item.version == op.claim.expectedVersion && item.evaluationSpecId.None?
       && (Blockers(id, db.dependencies, db.views.workItems) != {} ||
           item.assignee.None? || item.assignee == Some(op.claim.agent) || op.claim.allowShared)
  }

  /** The items after a transaction, as far as being done goes. */
  ghost predicate DoneAfter(db: Db, op: Op, after: map<Id, WorkItem>) {
    && (forall id :: id in db.views.workItems ==>
          id in after && (after[id].state == Done <==>
            Finishes(db, op, id) || (db.views.workItems[id].state == Done && !Reopens(db, op, id))))
    && (forall id :: id in after && id !in db.views.workItems ==> after[id].state == Ready)
  }

  lemma ClaimForm(db: Db, c: ClaimInput, now: int)
    requires LogInv(db) && c.workItem in db.views.workItems && db.views.workItems[c.workItem].state == Done
    ensures var ws := Claim(db, c, now).writes;
            if Reopens(db, OpClaim(c, now), c.workItem)
            then ws != [] && ws[0].payload.item.state == ReopenedState(db, c.workItem)
            else ws == []
  {
    ItemAt(db, c.workItem);
    hide LogInv, Blockers;
  }

  /** A done item with blockers becomes blocked when it is claimed, any other becomes active. */
  function ReopenedState(db: Db, id: Id): WorkItemState {
    if Blockers(id, db.dependencies, db.views.workItems) != {} then Blocked else Active
  }

  lemma ClaimNeverFinishes(db: Db, c: ClaimInput, now: int)
    requires LogInv(db) && Claim(db, c, now).writes != []
    ensures Claim(db, c, now).writes[0].payload.ItemPayload? && Claim(db, c, now).writes[0].payload.item.state != Done
    ensures c.workItem in db.views.workItems
  {
    hide LogInv, Blockers;
  }

  lemma ClaimDone(db: Db, c: ClaimInput, now: int)
    requires LogInv(db)
    ensures DoneAfter(db, OpClaim(c, now), ApplyAll(db, Claim(db, c, now).writes).views.workItems)
  {
    hide LogInv, ApplyAll, Claim, Reopens;
    var ws := Claim(db, c, now).writes;
    if c.workItem in db.views.workItems && db.views.workItems[c.workItem].state == Done { ClaimForm(db, c, now); }
    ReopensOnly(db, OpClaim(c, now));
    if ws == [] {
      ApplyNone(db);
    } else {
      ClaimWrite(db, c, now);
      ClaimNeverFinishes(db, c, now);
      OneItemEffect(db, ws[0].eventType, ws[0].payload.item);
    }
  }

  lemma ReopensOnly(db: Db, op: Op)
    ensures forall id :: Reopens(db, op, id) ==> op.OpClaim? && op.claim.workItem == id
  {
  }

  lemma CompletionDone(db: Db, agent: Id, workItem: Id, run: Option<Id>)
    requires LogInv(db)
    ensures DoneAfter(db, OpComplete(agent, workItem, run),
            ApplyAll(db, Complete(db, agent, workItem, run).writes).views.workItems)
  {
    hide LogInv, ApplyAll, Complete, CompletionWrites, AfterCompletion, NotFinishing, Reopens, MayFinish;
    var op := OpComplete(agent, workItem, run);
    ReopensOnly(db, op);
    KeysAreIds(db);
    if workItem !in db.views.workItems {
      NoSuchItem(db, agent, workItem, run);
      ApplyNone(db);
    } else {
      var item := db.views.workItems[workItem];
      CompleteForm(db, agent, workItem, run);
      if MayFinish(item, agent, run) {
        CompletionEffect(db, item, agent);
        AfterKeepsDone(db, item);
      } else {
        UnfinishedKeepsDone(db, Complete(db, agent, workItem, run).writes, workItem);
        if item.state == Done { DoneIsAnswered(db, agent, workItem, run); }
      }
    }
  }

  lemma NoSuchItem(db: Db, agent: Id, id: Id, run: Option<Id>)
    requires id !in db.views.workItems
    ensures Complete(db, agent, id, run).writes == []
  {
  }

  lemma DoneIsAnswered(db: Db, agent: Id, id: Id, run: Option<Id>)
    requires id in db.views.workItems && db.views.workItems[id].state == Done
    ensures Complete(db, agent, id, run).writes == []
  {
  }

  lemma AfterKeepsDone(db: Db, item: WorkItem)
    requires item.id in db.views.workItems
    ensures var after := AfterCompletion(db, item);
            && after.Keys == db.views.workItems.Keys && after[item.id].state == Done
            && forall id :: id in after && id != item.id ==>
               (after[id].state == Done <==> db.views.workItems[id].state == Done)
  {
    hide Blockers;
  }

  lemma UnfinishedKeepsDone(db: Db, ws: seq<Write>, id: Id)
    requires id in db.views.workItems && NotFinishing(ws, id)
    ensures var after := ApplyAll(db, ws).views.workItems;
            && after.Keys == db.views.workItems.Keys
            && (if ws == [] then after == db.views.workItems else after[id].state != Done)
            && forall x :: x in after && x != id ==> after[x] == db.views.workItems[x]
  {
    hide ApplyAll;
    if ws == [] {
      ApplyNone(db);
    } else if |ws| == 1 {
      OneItemEffect(db, ws[0].eventType, ws[0].payload.item);
    } else {
      assert ws == [ws[0]] + [ws[1]];
      ApplyAllAppend(db, [ws[0]], [ws[1]]);
      OneItemEffect(db, ws[0].eventType, ws[0].payload.item);
      OneItemEffect(ApplyAll(db, [ws[0]]), ws[1].eventType, ws[1].payload.item);
    }
  }

  lemma DecisionDone(db: Db, run: Id)
    requires LogInv(db)
    ensures DoneAfter(db, OpApplyDecision(run), ApplyAll(db, ApplyDecision(db, run).writes).views.workItems)
  {
    var ws := ApplyDecision(db, run).writes;
    hide ApplyAll, LogInv;
    if ws == [] { ApplyNone(db); } else {
      ItemAt(db, db.runs[run].workItemId);
      assert ws == [ws[0]];
      OneItemEffect(db, ws[0].eventType, ws[0].payload.item);
    }
  }

  lemma CreationDone(db: Db, providers: set<string>, id: Id, spec: Option<Id>, ds: seq<DependencyInput>)
    requires id !in db.views.workItems
    ensures DoneAfter(db, OpCreate(id, spec, ds), Next(db, providers, OpCreate(id, spec, ds)).views.workItems)
    ensures var next := Next(db, providers, OpCreate(id, spec, ds));
            db.dependencies <= next.dependencies && forall d :: d in next.dependencies && d !in db.dependencies ==>
                d.from == id
  {
    if CreateWorkItem(db, id, spec, ds).writes == [] {
      ApplyNone(db);
    } else {
      CreationResult(db, providers, id, spec, ds);
      hide CreateWorkItem, ApplyAll;
    }
  }

  /** An item is done after a transaction exactly when the transaction finishes it, or it was done and is not reopened;
      new items start ready. */
  lemma DoneExactly(db: Db, providers: set<string>, op: Op)
    requires Inv(db, providers) && Fresh(db, op)
    ensures DoneAfter(db, op, Next(db, providers, op).views.workItems)
  {
    hide ApplyAll, Claim, Complete, CreateWorkItem, ApplyDecision, RecordResult, EvaluateCriterion, LogInv, DoneAfter;
    match op
    case OpClaim(c, now) => ClaimDone(db, c, now);
    case OpComplete(a, item, run) => CompletionDone(db, a, item, run);
    case OpApplyDecision(run) => DecisionDone(db, run);
    case OpCreate(id, spec, ds) => CreationDone(db, providers, id, spec, ds);
    case _ =>
      OtherOpsQuiet(db, providers, op);
      QuietKeepsItems(db, WritesOf(db, providers, op));
      UntouchedDone(db, op);
  }

  lemma UntouchedDone(db: Db, op: Op)
    requires !op.OpClaim? && !op.OpComplete?
    ensures DoneAfter(db, op, db.views.workItems)
  {
  }

  /** An item leaves state done exactly when a claim reopens it; until then it does not change at all. */
  lemma LeavingDone(db: Db, providers: set<string>, op: Op, id: Id)
    requires Inv(db, providers) && Fresh(db, op)
    requires id in db.views.workItems && db.views.workItems[id].state == Done
    ensures var after := Next(db, providers, op).views.workItems;
            && id in after
            && (after[id].state != Done <==> Reopens(db, op, id))
            && after[id] == if Reopens(db, op, id)
                            then Bump(db.views.workItems[id].(assignee := Some(op.claim.agent)), ReopenedState(db, id))
                            else db.views.workItems[id]
  {
    DoneExactly(db, providers, op);
    ItemsMoveLegally(db, providers, op);
    if Reopens(db, op, id) { ReopenedItem(db, providers, op, id); }
    hide Inv, Next, Fresh, Reopens, MayFinish;
  }

  lemma ReopenedItem(db: Db, providers: set<string>, op: Op, id: Id)
    requires Inv(db, providers) && Reopens(db, op, id) && db.views.workItems[id].state == Done
    ensures var after := Next(db, providers, op).views.workItems;
            && id in after
            && after[id] == Bump(db.views.workItems[id].(assignee := Some(op.claim.agent)), ReopenedState(db, id))
  {
    ItemAt(db, id);
    ClaimOfDone(db, op, id);
    hide Inv, ApplyAll, Blockers, Claim;
    var w := Claim(db, op.claim, op.now).writes[0];
    OneItemEffect(db, w.eventType, w.payload.item);
  }

  lemma ClaimOfDone(db: Db, op: Op, id: Id)
    requires Reopens(db, op, id) && db.views.workItems[id].state == Done && db.views.workItems[id].id == id
    ensures var ws := Claim(db, op.claim, op.now).writes;
            && ws == [ws[0]] && ws[0].Emit? && IsItemEvent(ws[0].eventType)
            && ws[0].payload == ItemPayload(Bump(db.views.workItems[id].(assignee := Some(op.claim.agent)),
               ReopenedState(db, id)))
  {
    hide Blockers;
  }

  // ---------- When the dependencies of done items are done ----------

  /** Everything that a done item depends on is done. */
  ghost predicate DependenciesDone(db: Db) {
    forall id :: id in db.views.workItems && db.views.workItems[id].state == Done ==>
      Blockers(id, db.dependencies, db.views.workItems) == {}
  }

  /** A completion of an item that still has blockers. */
  predicate FinishesEarly(db: Db, op: Op) {
    op.OpComplete? && Finishes(db, op, op.item) && Blockers(op.item, db.dependencies, db.views.workItems) != {}
  }

  /** A claim that reopens a done item on which another done item depends. */
  ghost predicate ReopensBeneath(db: Db, op: Op) {
    && op.OpClaim? && Reopens(db, op, op.claim.workItem)
    && exists d :: d in db.dependencies && d.kind == DependsOn && d.to == op.claim.workItem &&
         d.from in db.views.workItems && db.views.workItems[d.from].state == Done &&
         d.to in db.views.workItems && db.views.workItems[d.to].state == Done
  }

  /** The items a done item depends on are done exactly when it has no blockers. */
  lemma NoBlockersMeans(db: Db, id: Id)
    requires DependencyInv(db)
    ensures Blockers(id, db.dependencies, db.views.workItems) == {} <==>
            forall d :: d in DependenciesOf(id, db.dependencies) ==> db.views.workItems[d.to].state == Done
  {
    var blockers := Blockers(id, db.dependencies, db.views.workItems);
    if blockers == {} {
      forall d | d in DependenciesOf(id, db.dependencies) ensures db.views.workItems[d.to].state == Done {
        assert db.views.workItems[d.to].state != Done ==> d.to in blockers;
      }
    }
  }

  lemma DependenciesGrow(db: Db, providers: set<string>, op: Op)
    requires Inv(db, providers) && Fresh(db, op)
    ensures var next := Next(db, providers, op);
            && db.dependencies <= next.dependencies
            && forall d :: d in next.dependencies && d !in db.dependencies ==> d.from !in db.views.workItems
  {
    hide ApplyAll, Claim, Complete, CreateWorkItem, ApplyDecision, RecordResult, EvaluateCriterion, LogInv;
    match op
    case OpCreate(id, spec, ds) => CreationDone(db, providers, id, spec, ds);
    case _ =>
      NoDependencyWrites(db, providers, op);
      DependenciesStay(db, WritesOf(db, providers, op));
  }

  predicate NoDependency(ws: seq<Write>) { forall k :: 0 <= k < |ws| ==> !ws[k].PutDependency? }

  lemma {:induction false} DependenciesStay(db: Db, ws: seq<Write>)
    requires NoDependency(ws)
    ensures ApplyAll(db, ws).dependencies == db.dependencies
    decreases |ws|
  {
    if ws != [] {
      DependencyStays(db, ws[0]);
      hide ApplyWrite;
      DependenciesStay(ApplyWrite(db, ws[0]), ws[1..]);
    }
  }

  lemma DependencyStays(db: Db, w: Write)
    requires !w.PutDependency?
    ensures ApplyWrite(db, w).dependencies == db.dependencies
  {
  }

  lemma RecordNoDependency(db: Db, run: Id, input: ResultInput, provenance: Provenance, declared: Option<string>)
    ensures NoDependency(RecordResult(db, run, input, provenance, declared).writes)
  {
    hide ResultProblem, RecordKey, FindCriterion;
  }

  lemma EvaluationNoDependency(db: Db, providers: set<string>, run: Id, index: nat, answer: Answer, ids: FallbackIds)
    ensures NoDependency(EvaluateCriterion(db, providers, run, index, answer, ids).writes)
  {
    hide RecordResult, NoDependency;
    NothingWritten();
    if run in db.runs && db.runs[run].specId in db.specs && index < |db.specs[db.runs[run].specId].criteria| {
      var c := db.specs[db.runs[run].specId].criteria[index];
      RecordNoDependency(db, run, ResultInput(ids.unavailable, RUNTIME_PROVIDER, c.id, Error, []), VerifiedProvider,
        None);
      RecordNoDependency(db, run, ResultInput(ids.error, c.evaluatorRef, c.id, Error, []), VerifiedProvider, None);
      if answer.Answered? {
        RecordNoDependency(db, run,
          ResultInput(answer.providerResultId, c.evaluatorRef, c.id, answer.outcome, answer.evidence),
                           VerifiedProvider, None);
      }
    }
  }

  lemma NothingWritten()
    ensures NoDependency([])
  {
  }

  lemma CompletionNoDependency(db: Db, agent: Id, id: Id, run: Option<Id>)
    requires forall x :: x in db.views.workItems ==> db.views.workItems[x].id == x
    ensures NoDependency(Complete(db, agent, id, run).writes)
  {
    hide CompletionWrites, Complete, MayFinish;
    if id in db.views.workItems {
      CompletionEffect(db, db.views.workItems[id], agent);
      CompleteForm(db, agent, id, run);
    } else {
      NoSuchItem(db, agent, id, run);
    }
  }

  lemma ClaimNoDependency(db: Db, c: ClaimInput, now: int)
    ensures NoDependency(Claim(db, c, now).writes)
  {
    hide Blockers, SessionExpired;
  }

  lemma NoDependencyWrites(db: Db, providers: set<string>, op: Op)
    requires Inv(db, providers) && !op.OpCreate?
    ensures NoDependency(WritesOf(db, providers, op))
  {
    hide Claim, Complete, EvaluateCriterion, RecordResult, ApplyDecision, Decide, ValidCriteria, Inv;
    match op
    case OpClaim(c, now) => ClaimNoDependency(db, c, now);
    case OpComplete(agent, id, run) =>
      InvParts(db, providers);
      CompletionNoDependency(db, agent, id, run);
    case OpApplyDecision(run) => DecisionNoDependency(db, run);
    case OpRecordExternal(run, input, declared) =>
      RecordNoDependency(db, run, input.(providerId := EXTERNAL_PROVIDER), ExternalUnverified,
                         Some(if declared.Some? then declared.value else input.providerId));
    case OpEvaluate(run, index, answer, ids) => EvaluationNoDependency(db, providers, run, index, answer, ids);
    case _ =>
  }

  lemma DecisionNoDependency(db: Db, run: Id)
    ensures NoDependency(ApplyDecision(db, run).writes)
  {
  }

  /** Completion looks at no blockers and changes none of the finished item's: whatever its state, gated or not, the
      item is done, and what it depends on is done exactly when it had no blockers before. */
  lemma DoneDespiteBlockers(db: Db, providers: set<string>, agent: Id, id: Id, run: Option<Id>)
    requires Inv(db, providers) && id in db.views.workItems && MayFinish(db.views.workItems[id], agent, run)
    ensures var next := Next(db, providers, OpComplete(agent, id, run));
            && id in next.views.workItems && next.views.workItems[id].state == Done
            && Blockers(id, next.dependencies, next.views.workItems) ==
               Blockers(id, db.dependencies, db.views.workItems)
            && ((forall d :: d in DependenciesOf(id, next.dependencies) ==>
                   d.to in next.views.workItems && next.views.workItems[d.to].state == Done) <==>
                Blockers(id, db.dependencies, db.views.workItems) == {})
  {
    var op := OpComplete(agent, id, run);
    var next := Next(db, providers, op);
    DoneExactly(db, providers, op);
    DependenciesGrow(db, providers, op);
    NextKeepsInv(db, providers, op);
    NotOwnBlocker(db, id);
    NoBlockersMeans(next, id);
    hide Inv, Next, MayFinish, Reopens, LogInv, CreatedAt;
    assert DependenciesOf(id, next.dependencies) == DependenciesOf(id, db.dependencies);
    SameBlockers(db, next, op, id);
  }

  lemma NotOwnBlocker(db: Db, id: Id)
    requires DependencyInv(db)
    ensures forall d :: d in DependenciesOf(id, db.dependencies) ==> d.to != id && d.to in db.views.workItems
  {
  }

  lemma SameBlockers(db: Db, next: Db, op: Op, id: Id)
    requires DoneAfter(db, op, next.views.workItems) && op.OpComplete? && op.item == id
    requires DependenciesOf(id, next.dependencies) == DependenciesOf(id, db.dependencies)
    requires forall d :: d in DependenciesOf(id, db.dependencies) ==> d.to != id && d.to in db.views.workItems
    ensures Blockers(id, next.dependencies, next.views.workItems) == Blockers(id, db.dependencies, db.views.workItems)
  {
    hide DependenciesOf, MayFinish, Reopens;
    ReopensOnly(db, op);
  }

  /** While what done items depend on is done, a transaction keeps it so exactly when it neither completes an item that
      has blockers, nor reopens an item on which a done one depends. */
  lemma DoneMeansDependenciesDone(db: Db, providers: set<string>, op: Op)
    requires Inv(db, providers) && Fresh(db, op) && DependenciesDone(db)
    ensures DependenciesDone(Next(db, providers, op)) <==> !FinishesEarly(db, op) && !ReopensBeneath(db, op)
  {
    var next := Next(db, providers, op);
    DoneExactly(db, providers, op);
    DependenciesGrow(db, providers, op);
    NextKeepsInv(db, providers, op);
    hide Next, LogInv, CreatedAt, MayFinish, Reopens;
    ReopensOnly(db, op);
    if FinishesEarly(db, op) {
      DoneDespiteBlockers(db, providers, op.agent, op.item, op.runId);
    } else if ReopensBeneath(db, op) {
      BeneathBreaks(db, next, op);
    } else {
      forall id | id in next.views.workItems && next.views.workItems[id].state == Done
        ensures Blockers(id, next.dependencies, next.views.workItems) == {}
      {
        StaysUnblocked(db, next, op, id);
      }
    }
  }

  lemma BeneathBreaks(db: Db, next: Db, op: Op)
    requires ReopensBeneath(db, op) && DoneAfter(db, op, next.views.workItems) && db.dependencies <= next.dependencies
    requires DependencyInv(db)
    ensures !DependenciesDone(next)
  {
    hide CreatedAt, MayFinish, Reopens;
    ReopensOnly(db, op);
    var d :| d in db.dependencies && d.kind == DependsOn && d.to == op.claim.workItem &&
             d.from in db.views.workItems && db.views.workItems[d.from].state == Done &&
             d.to in db.views.workItems && db.views.workItems[d.to].state == Done;
    assert d.from != d.to;
    assert d.to in Blockers(d.from, next.dependencies, next.views.workItems);
    assert next.views.workItems[d.from].state == Done;
  }

  lemma StaysUnblocked(db: Db, next: Db, op: Op, id: Id)
    requires DependenciesDone(db) && DependencyInv(db) && DoneAfter(db, op, next.views.workItems)
    requires db.dependencies <= next.dependencies
    requires forall d :: d in next.dependencies && d !in db.dependencies ==> d.from !in db.views.workItems
    requires !FinishesEarly(db, op) && !ReopensBeneath(db, op)
    requires id in next.views.workItems && next.views.workItems[id].state == Done
    ensures Blockers(id, next.dependencies, next.views.workItems) == {}
  {
    hide CreatedAt, MayFinish, Reopens;
    ReopensOnly(db, op);
    assert id in db.views.workItems;
    assert Blockers(id, db.dependencies, db.views.workItems) == {};
    forall d | d in DependenciesOf(id, next.dependencies)
      ensures d.to in next.views.workItems && next.views.workItems[d.to].state == Done
    {
      assert d in db.dependencies;
      assert d.to !in Blockers(id, db.dependencies, db.views.workItems);
      assert db.views.workItems[d.to].state == Done && !Reopens(db, op, d.to);
    }
  }

  /** Over a whole run: what done items depend on is done after each transaction exactly when no transaction of the run
      completes an item that has blockers, or reopens an item on which a done one depends. */
  lemma {:induction false} DependenciesDoneAlways(db: Db, providers: set<string>, ops: seq<Op>)
    requires Inv(db, providers) && Legal(db, providers, ops) && DependenciesDone(db)
    ensures AlwaysDependenciesDone(db, providers, ops) <==> InOrder(db, providers, ops)
    decreases |ops|
  {
    hide Inv, Next, Fresh, DependenciesDone, FinishesEarly, ReopensBeneath;
    if ops != [] {
      DoneMeansDependenciesDone(db, providers, ops[0]);
      NextKeepsInv(db, providers, ops[0]);
      if DependenciesDone(Next(db, providers, ops[0])) {
        DependenciesDoneAlways(Next(db, providers, ops[0]), providers, ops[1..]);
      }
    }
  }

  ghost predicate AlwaysDependenciesDone(db: Db, providers: set<string>, ops: seq<Op>)
    decreases |ops|
  {
    DependenciesDone(db) && (ops == [] || AlwaysDependenciesDone(Next(db, providers, ops[0]), providers, ops[1..]))
  }

  /** No transaction completes an item that has blockers, or reopens one beneath a done item. */
  ghost predicate InOrder(db: Db, providers: set<string>, ops: seq<Op>)
    decreases |ops|
  {
    ops == [] || (!FinishesEarly(db, ops[0]) && !ReopensBeneath(db, ops[0]) &&
                  InOrder(Next(db, providers, ops[0]), providers, ops[1..]))
  }

  // ---------- It does happen ----------

  lemma CreationResult(db: Db, providers: set<string>, id: Id, spec: Option<Id>, ds: seq<DependencyInput>)
    requires CreateWorkItem(db, id, spec, ds).writes != []
    ensures Next(db, providers, OpCreate(id, spec, ds)) == Created(db, id, spec, ds)
  {
    var w := CreateWorkItem(db, id, spec, ds).writes[0];
    hide ApplyAll, ApplyWrite, DependencyProblem;
    ApplyAllAppend(db, [w], DependencyWrites(id, ds));
    ApplyAllOne(db, w);
    PutDependencies(ApplyWrite(db, w), id, ds);
    KeepsDependencies(db, WorkItem(id, spec, Ready, None, None, 0));
  }

  lemma KeepsDependencies(db: Db, item: WorkItem)
    ensures ApplyWrite(db, Emit(WorkItemCreated, ItemPayload(item))).dependencies == db.dependencies
  {
  }

  const WAITING := DependencyInput(None, 1, DependsOn)

  function ItemOne(): WorkItem { WorkItem(1, None, Ready, None, None, 0) }

  function ItemTwo(): WorkItem { WorkItem(2, None, Ready, None, None, 0) }

  /** Item 2 waits for item 1, and a session is alive. */
  function TwoItems(): Db {
    Created(Created(Next(EMPTY_DB, {}, OpJoin(7, 0)), 1, None, []), 2, None, [WAITING])
  }

  lemma JoinResult()
    ensures var db := Next(EMPTY_DB, {}, OpJoin(7, 0));
            db.projectOpen && db.sessions == map[7 := AgentSession(7, false, 0)] && db.views == NO_VIEWS &&
                db.dependencies == {}
  {
    ApplyTwo(EMPTY_DB, Emit(ProjectOpened, OtherPayload), Emit(AgentJoined, SessionPayload(AgentSession(7, false, 0))));
  }

  lemma TwoItemsHold()
    ensures var db := TwoItems();
            && db.sessions == map[7 := AgentSession(7, false, 0)]
            && db.views.workItems == map[1 := ItemOne(), 2 := ItemTwo()]
            && db.dependencies == {WorkDependency(2, 1, DependsOn)}
    ensures Legal(EMPTY_DB, {}, [OpJoin(7, 0), OpCreate(1, None, []), OpCreate(2, None, [WAITING])])
    ensures Run(EMPTY_DB, {}, [OpJoin(7, 0), OpCreate(1, None, []), OpCreate(2, None, [WAITING])]) == TwoItems()
  {
    JoinResult();
    hide Next, Created, Requested;
    var joined := Next(EMPTY_DB, {}, OpJoin(7, 0));
    CreatedViews(joined, 1, []);
    NoneRequested(1);
    CreationResult(joined, {}, 1, None, []);
    var one := Created(joined, 1, None, []);
    assert [WAITING][1..] == [] && [WAITING][0] == WAITING;
    CreatedViews(one, 2, [WAITING]);
    RequestedStep(2, [WAITING]);
    NoneRequested(2);
    assert DependencyProblem(one.views.workItems[2 := ItemTwo()], 2, [WAITING]).None?;
    CreationResult(one, {}, 2, None, [WAITING]);
    RunThree(EMPTY_DB, OpJoin(7, 0), OpCreate(1, None, []), OpCreate(2, None, [WAITING]));
  }

  lemma CreatedViews(db: Db, id: Id, ds: seq<DependencyInput>)
    ensures var next := Created(db, id, None, ds);
            && next.views.workItems == db.views.workItems[id := WorkItem(id, None, Ready, None, None, 0)]
            && next.dependencies == db.dependencies + Requested(id, ds)
            && next.sessions == db.sessions && next.projectOpen == db.projectOpen
  {
    hide Requested;
  }

  lemma RunThree(db: Db, a: Op, b: Op, c: Op)
    ensures Run(db, {}, [a, b, c]) == Next(Next(Next(db, {}, a), {}, b), {}, c)
    ensures Legal(db, {}, [a, b, c]) <==>
              Fresh(db, a) && Fresh(Next(db, {}, a), b) && Fresh(Next(Next(db, {}, a), {}, b), c)
  {
    hide Next, Fresh;
    assert [a, b, c][1..] == [b, c];
    RunTwo(Next(db, {}, a), b, c);
  }

  lemma RunTwo(db: Db, a: Op, b: Op)
    ensures Run(db, {}, [a, b]) == Next(Next(db, {}, a), {}, b)
    ensures Legal(db, {}, [a, b]) <==> Fresh(db, a) && Fresh(Next(db, {}, a), b)
  {
    hide Next, Fresh;
    assert [a, b][1..] == [b];
    RunOne(Next(db, {}, a), b);
  }

  lemma RunOne(db: Db, a: Op)
    ensures Run(db, {}, [a]) == Next(db, {}, a)
    ensures Legal(db, {}, [a]) <==> Fresh(db, a)
  {
    hide Next, Fresh;
    assert [a][1..] == [];
  }

  // Completions start no sessions and end none.

  predicate NoJoins(ws: seq<Write>) { forall k :: 0 <= k < |ws| ==> ws[k].Emit? && !ws[k].eventType.AgentJoined? }

  lemma {:induction false} SessionsStay(db: Db, ws: seq<Write>)
    requires NoJoins(ws)
    ensures ApplyAll(db, ws).sessions == db.sessions
    decreases |ws|
  {
    if ws != [] {
      SessionStays(db, ws[0]);
      hide ApplyWrite;
      SessionsStay(ApplyWrite(db, ws[0]), ws[1..]);
    }
  }

  lemma SessionStays(db: Db, w: Write)
    requires w.Emit? && !w.eventType.AgentJoined?
    ensures ApplyWrite(db, w).sessions == db.sessions
  {
  }

  lemma {:induction false} IntentsNoJoins(intents: map<Id, Intent>, ids: seq<Id>, agent: Id, workItem: Id)
    requires forall x :: x in ids ==> x in intents
    ensures NoJoins(ClosedIntents(intents, ids, agent, workItem))
  {
    if ids != [] { IntentsNoJoins(intents, ids[..|ids| - 1], agent, workItem); }
  }

  lemma {:induction false} ScopesNoJoins(scopes: map<Id, Scope>, ids: seq<Id>, agent: Id)
    requires forall x :: x in ids ==> x in scopes
    ensures NoJoins(ReleasedScopes(scopes, ids, agent))
  {
    if ids != [] { ScopesNoJoins(scopes, ids[..|ids| - 1], agent); }
  }

  lemma {:induction false} UnblockedNoJoins(items: map<Id, WorkItem>, dependencies: set<WorkDependency>, ids: seq<Id>)
    requires forall x :: x in ids ==> x in items
    ensures NoJoins(UnblockedItems(items, dependencies, ids))
  {
    hide Releasable;
    if ids != [] { UnblockedNoJoins(items, dependencies, ids[..|ids| - 1]); }
  }

  lemma CompletionKeepsSessions(db: Db, item: WorkItem, agent: Id)
    ensures ApplyAll(db, CompletionWrites(db, item, agent)).sessions == db.sessions
  {
    hide ApplyAll, ClosedIntents, ReleasedScopes, UnblockedItems;
    var completed := Bump(item, Done);
    var items := db.views.workItems[item.id := completed];
    var intents := ClosedIntents(db.views.intents, SortedIds(db.views.intents.Keys), agent, item.id);
    var scopes := ReleasedScopes(db.views.scopes, SortedIds(db.views.scopes.Keys), agent);
    var unblocked := UnblockedItems(items, db.dependencies, SortedIds(items.Keys));
    IntentsNoJoins(db.views.intents, SortedIds(db.views.intents.Keys), agent, item.id);
    ScopesNoJoins(db.views.scopes, SortedIds(db.views.scopes.Keys), agent);
    UnblockedNoJoins(items, db.dependencies, SortedIds(items.Keys));
    FourNoJoins([Emit(WorkItemCompleted, ItemPayload(completed))], intents, scopes, unblocked);
    SessionsStay(db, CompletionWrites(db, item, agent));
  }

  lemma FourNoJoins(a: seq<Write>, b: seq<Write>, c: seq<Write>, d: seq<Write>)
    requires NoJoins(a) && NoJoins(b) && NoJoins(c) && NoJoins(d)
    ensures NoJoins(a + b + c + d)
  {
  }

  /** The two items, the dependency of the second on the first, and the one session, which is alive. */
  predicate Holds(db: Db, one: WorkItem, two: WorkItem) {
    && db.sessions == map[7 := AgentSession(7, false, 0)]
    && db.views.workItems == map[1 := one, 2 := two] && one.id == 1 && two.id == 2
    && db.dependencies == {WorkDependency(2, 1, DependsOn)}
  }

  predicate Ours(item: WorkItem) { item.evaluationSpecId.None? && (item.assignee.None? || item.assignee == Some(7)) }

  lemma BlockersOfTwo(db: Db, one: WorkItem, two: WorkItem)
    requires Holds(db, one, two)
    ensures Blockers(1, db.dependencies, db.views.workItems) == {}
    ensures Blockers(2, db.dependencies, db.views.workItems) == if one.state != Done then {1} else {}
  {
    assert WorkDependency(2, 1, DependsOn) in DependenciesOf(2, db.dependencies);
    assert one.state != Done ==> 1 in Blockers(2, db.dependencies, db.views.workItems);
  }

  function Claimed(item: WorkItem, state: WorkItemState): WorkItem { Bump(item.(assignee := Some(7)), state) }

  function ClaimOf(id: Id, version: nat): Op { OpClaim(ClaimInput(7, id, version, false), 0) }

  lemma ClaimWrites(db: Db, one: WorkItem, two: WorkItem, id: Id)
    requires Holds(db, one, two) && (id == 1 || id == 2)
    requires var item := if id == 1 then one else two;
             Ours(item) && item.state != Active && item.state != WorkItemState.Claimed && item.state != Blocked
    ensures var item := if id == 1 then one else two;
            Claim(db, ClaimInput(7, id, item.version, false), 0).writes ==
              if id == 2 && one.state != Done then [Emit(WorkItemBlocked, ItemPayload(Claimed(item, Blocked)))]
              else [Emit(WorkItemClaimed, ItemPayload(Claimed(item, Active)))]
  {
    BlockersOfTwo(db, one, two);
    hide Blockers;
  }

  lemma ClaimsOne(db: Db, one: WorkItem, two: WorkItem)
    requires Holds(db, one, two) && Ours(one) && (one.state == Ready || one.state == Done)
    ensures Holds(Next(db, {}, ClaimOf(1, one.version)), Claimed(one, Active), two)
  {
    hide Claim, ApplyAll, ApplyWrite;
    ClaimWrites(db, one, two, 1);
    OneItemEffect(db, WorkItemClaimed, Claimed(one, Active));
    ApplyAllOne(db, Emit(WorkItemClaimed, ItemPayload(Claimed(one, Active))));
    SessionStays(db, Emit(WorkItemClaimed, ItemPayload(Claimed(one, Active))));
  }

  lemma ClaimsTwo(db: Db, one: WorkItem, two: WorkItem)
    requires Holds(db, one, two) && Ours(two) && two.state == Ready
    ensures Holds(Next(db, {}, ClaimOf(2, two.version)), one,
            Claimed(two, if one.state == Done then Active else Blocked))
  {
    hide Claim, ApplyAll, ApplyWrite;
    ClaimWrites(db, one, two, 2);
    var t := if one.state == Done then WorkItemClaimed else WorkItemBlocked;
    var after := Claimed(two, if one.state == Done then Active else Blocked);
    OneItemEffect(db, t, after);
    ApplyAllOne(db, Emit(t, ItemPayload(after)));
    SessionStays(db, Emit(t, ItemPayload(after)));
  }

  lemma CompletesItem(db: Db, item: WorkItem)
    requires forall x :: x in db.views.workItems ==> db.views.workItems[x].id == x
    requires item.id in db.views.workItems && db.views.workItems[item.id] == item && MayFinish(item, 7, None)
    requires AfterCompletion(db, item) == db.views.workItems[item.id := Bump(item, Done)]
    ensures var next := Next(db, {}, OpComplete(7, item.id, None));
            && next.views.workItems == db.views.workItems[item.id := Bump(item, Done)]
            && next.dependencies == db.dependencies && next.sessions == db.sessions
  {
    hide ApplyAll, CompletionWrites, AfterCompletion, Complete, MayFinish;
    CompleteForm(db, 7, item.id, None);
    CompletionEffect(db, item, 7);
    EventsKeepTables(db, CompletionWrites(db, item, 7));
    CompletionKeepsSessions(db, item, 7);
  }

  lemma CompletesOne(db: Db, one: WorkItem, two: WorkItem)
    requires Holds(db, one, two) && MayFinish(one, 7, None) && two.state != Blocked
    ensures Holds(Next(db, {}, OpComplete(7, 1, None)), Bump(one, Done), two)
  {
    hide Next, AfterCompletion;
    NothingReleased(db, one, two, one);
    CompletesItem(db, one);
  }

  lemma CompletesTwo(db: Db, one: WorkItem, two: WorkItem)
    requires Holds(db, one, two) && MayFinish(two, 7, None) && one.state != Blocked
    ensures Holds(Next(db, {}, OpComplete(7, 2, None)), one, Bump(two, Done))
  {
    hide Next, AfterCompletion;
    NothingReleased(db, one, two, two);
    CompletesItem(db, two);
  }

  lemma NothingReleased(db: Db, one: WorkItem, two: WorkItem, item: WorkItem)
    requires Holds(db, one, two) && ((item == one && two.state != Blocked) || (item == two && one.state != Blocked))
    ensures AfterCompletion(db, item) == db.views.workItems[item.id := Bump(item, Done)]
  {
    hide Blockers;
  }

  /** It does happen: item 2 depends on item 1, a claim leaves it blocked, and its holder completes it. */
  lemma DoneDespiteBlockersRun()
    ensures Legal(EMPTY_DB, {}, [OpJoin(7, 0), OpCreate(1, None, []), OpCreate(2, None, [WAITING])])
    ensures var db := Run(EMPTY_DB, {}, [OpJoin(7, 0), OpCreate(1, None, []), OpCreate(2, None, [WAITING])]);
            var after := Run(db, {}, [ClaimOf(2, 0), OpComplete(7, 2, None)]);
            && WorkDependency(2, 1, DependsOn) in after.dependencies
            && 1 in after.views.workItems && after.views.workItems[1].state == Ready
            && 2 in after.views.workItems && after.views.workItems[2].state == Done
  {
    TwoItemsHold();
    hide Next, TwoItems, Created;
    var db := TwoItems();
    ClaimsTwo(db, ItemOne(), ItemTwo());
    CompletesTwo(Next(db, {}, ClaimOf(2, 0)), ItemOne(), Claimed(ItemTwo(), Blocked));
    RunTwo(db, ClaimOf(2, 0), OpComplete(7, 2, None));
  }

  /** What the holder makes of an item by claiming and completing it. */
  function Handled(item: WorkItem): WorkItem { Bump(Claimed(item, Active), Done) }

  lemma FirstHandled(db: Db)
    requires Holds(db, ItemOne(), ItemTwo())
    ensures Holds(Run(db, {}, [ClaimOf(1, 0), OpComplete(7, 1, None)]), Handled(ItemOne()), ItemTwo())
  {
    hide Next, Holds, Run;
    ClaimsOne(db, ItemOne(), ItemTwo());
    CompletesOne(Next(db, {}, ClaimOf(1, 0)), Claimed(ItemOne(), Active), ItemTwo());
    RunTwo(db, ClaimOf(1, 0), OpComplete(7, 1, None));
  }

  lemma SecondHandled(db: Db)
    requires Holds(db, Handled(ItemOne()), ItemTwo())
    ensures Holds(Run(db, {}, [ClaimOf(2, 0), OpComplete(7, 2, None)]), Handled(ItemOne()), Handled(ItemTwo()))
  {
    hide Next, Holds, Run;
    ClaimsTwo(db, Handled(ItemOne()), ItemTwo());
    CompletesTwo(Next(db, {}, ClaimOf(2, 0)), Handled(ItemOne()), Claimed(ItemTwo(), Active));
    RunTwo(db, ClaimOf(2, 0), OpComplete(7, 2, None));
  }

  lemma FirstReopened(db: Db)
    requires Holds(db, Handled(ItemOne()), Handled(ItemTwo()))
    ensures Holds(Run(db, {}, [ClaimOf(1, 2)]), Claimed(Handled(ItemOne()), Active), Handled(ItemTwo()))
  {
    hide Next, Holds, Run;
    ClaimsOne(db, Handled(ItemOne()), Handled(ItemTwo()));
    RunOne(db, ClaimOf(1, 2));
  }

  /** And a done item is reopened beneath one that depends on it: both items are completed in order, and item 1 is
      claimed again. */
  lemma ReopenedRun()
    ensures Legal(EMPTY_DB, {}, [OpJoin(7, 0), OpCreate(1, None, []), OpCreate(2, None, [WAITING])])
    ensures var db := Run(EMPTY_DB, {}, [OpJoin(7, 0), OpCreate(1, None, []), OpCreate(2, None, [WAITING])]);
            var first := Run(db, {}, [ClaimOf(1, 0), OpComplete(7, 1, None)]);
            var both := Run(first, {}, [ClaimOf(2, 0), OpComplete(7, 2, None)]);
            var after := Run(both, {}, [ClaimOf(1, 2)]);
            && (1 in both.views.workItems && 2 in both.views.workItems)
            && both.views.workItems[1].state == both.views.workItems[2].state == Done
            && WorkDependency(2, 1, DependsOn) in after.dependencies
            && 1 in after.views.workItems && after.views.workItems[1].state == Active
            && 2 in after.views.workItems && after.views.workItems[2].state == Done
  {
    TwoItemsHold();
    hide Run, Legal, TwoItems;
    FirstHandled(TwoItems());
    var first := Run(TwoItems(), {}, [ClaimOf(1, 0), OpComplete(7, 1, None)]);
    SecondHandled(first);
    FirstReopened(Run(first, {}, [ClaimOf(2, 0), OpComplete(7, 2, None)]));
  }
}
