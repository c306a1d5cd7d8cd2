/** Whole-run guarantees of the coordination and evaluation protocol. */
module ProtocolTheorems {
  import opened Wrappers
  import opened Contracts
  import opened EventStore
  import opened EventLog
  import opened Acceptance
  import opened Protocol
  import opened ProtocolInvariants

  /** A database some legal run of transactions leads to. */
  ghost predicate Reachable(db: Db, providers: set<string>) {
    exists ops :: Legal(EMPTY_DB, providers, ops) && db == Run(EMPTY_DB, providers, ops)
  }

  lemma ReachableInv(db: Db, providers: set<string>)
    requires Reachable(db, providers)
    ensures Inv(db, providers)
  {
    hide Inv, Legal, Run;
    var ops :| Legal(EMPTY_DB, providers, ops) && db == Run(EMPTY_DB, providers, ops);
    EmptyInv(providers);
    RunKeepsInv(EMPTY_DB, providers, ops);
  }

  // ---------- The evaluation gate ----------

  /** The verdict behind an accepted item: a completed run of this item and its specification, decided
      as accepted, in which every required criterion has verified results, all of them passing, with
      evidence bound to the run's target, and all from the evaluator the criterion names. */
  ghost predicate Earned(db: Db, providers: set<string>, item: WorkItem) {
    && Authorised(db, item)
    && var run := db.runs[item.acceptedEvaluationRunId.value];
       && run.specId in db.specs
       && var spec, results := db.specs[run.specId], ResultsOf(db.results, run.id);
          && Satisfied(spec, run.repositoryStateRef, results)
          && forall c, r :: c in spec.criteria && c.required && r in Trusted(results, c.id) ==>
               r.input.providerId == c.evaluatorRef && c.evaluatorRef in providers
  }

  lemma EvaluationGate(db: Db, providers: set<string>, id: Id)
    requires Reachable(db, providers)
    requires id in db.views.workItems && PastGate(db.views.workItems[id])
    ensures Earned(db, providers, db.views.workItems[id])
  {
    ReachableInv(db, providers);
    var item := db.views.workItems[id];
    assert Authorised(db, item);
    var run := db.runs[item.acceptedEvaluationRunId.value];
    var spec, results := db.specs[run.specId], ResultsOf(db.results, run.id);
    DecisionMeaning(spec, run.repositoryStateRef, results);
    forall c, r | c in spec.criteria && c.required && r in Trusted(results, c.id)
      ensures r.input.providerId == c.evaluatorRef && c.evaluatorRef in providers
    {
      EvidenceSource(db, providers, run, c, r);
    }
  }

  lemma EvidenceSource(db: Db, providers: set<string>, run: EvaluationRun, c: EvaluationCriterion, r: StoredResult)
    requires ReferenceInv(db) && GenuineInv(db, providers)
    requires run.id in db.runs && db.runs[run.id] == run && c in db.specs[run.specId].criteria
    requires r in Trusted(ResultsOf(db.results, run.id), c.id) && r.input.outcome == Pass
    ensures r.input.providerId == c.evaluatorRef && c.evaluatorRef in providers
  {
    var k :| k in db.results && k.0 == run.id && db.results[k] == r;
    assert Genuine(db, providers, r);
    var cs := db.specs[run.specId].criteria;
    var c' :| c' in cs && c'.id == r.input.criterionId && c'.evaluatorRef == r.input.providerId;
    var i :| 0 <= i < |cs| && cs[i] == c;
    var j :| 0 <= j < |cs| && cs[j] == c';
    assert ValidCriteria(cs);
    assert i == j;
  }

  // ---------- The work-item state machine ----------

  /** The moves a work item can make in one transaction. */
  predicate Move(b: WorkItem, a: WorkItem) {
    var gated := b.evaluationSpecId.Some?;
    && a.id == b.id && a.evaluationSpecId == b.evaluationSpecId && a.version > b.version
    && (a.state != Accepted ==> a.acceptedEvaluationRunId == b.acceptedEvaluationRunId)
    && match a.state
       case Active => !(gated && Settled(b.state))
       case Blocked => !(gated && Settled(b.state)) && b.state != Blocked
       case Ready => b.state == Blocked
       case AwaitingEvaluation => gated &&
           !(b.state == Accepted || b.state == ReviewRequired || b.state == AwaitingEvaluation || b.state == Done)
       case Done => if gated then b.state == Accepted else b.state != Done
       case Accepted => gated && b.state == AwaitingEvaluation
       case NeedsRetry => gated && b.state == AwaitingEvaluation
       case ReviewRequired => gated && b.state == AwaitingEvaluation
       case _ => false
  }

  ghost predicate OnlyMoves(before: map<Id, WorkItem>, after: map<Id, WorkItem>) {
    forall id :: id in before ==> id in after && (after[id] == before[id] || Move(before[id], after[id]))
  }

  lemma OneItemEffect(db: Db, t: EventType, item: WorkItem)
    requires IsItemEvent(t)
    ensures var next := ApplyAll(db, [Emit(t, ItemPayload(item))]);
            next.views == db.views.(workItems := db.views.workItems[item.id := item]) && SameTables(next, db)
  {
    ApplyAllOne(db, Emit(t, ItemPayload(item)));
  }

  lemma OneItemMoves(db: Db, t: EventType, item: WorkItem)
    requires item.id in db.views.workItems && IsItemEvent(t) && Move(db.views.workItems[item.id], item)
    ensures OnlyMoves(db.views.workItems, ApplyAll(db, [Emit(t, ItemPayload(item))]).views.workItems)
  {
    ApplyAllOne(db, Emit(t, ItemPayload(item)));
  }

  lemma ClaimMoves(db: Db, c: ClaimInput, now: int)
    requires LogInv(db)
    ensures OnlyMoves(db.views.workItems, ApplyAll(db, Claim(db, c, now).writes).views.workItems)
  {
    var ws := Claim(db, c, now).writes;
    hide Blockers, ApplyAll, LogInv;
    if ws == [] { ApplyNone(db); } else {
      ItemAt(db, c.workItem);
      assert ws == [ws[0]];
      OneItemMoves(db, ws[0].eventType, ws[0].payload.item);
    }
  }

  lemma DecisionMoves(db: Db, run: Id)
    requires LogInv(db)
    ensures OnlyMoves(db.views.workItems, ApplyAll(db, ApplyDecision(db, run).writes).views.workItems)
  {
    var ws := ApplyDecision(db, run).writes;
    hide ApplyAll, LogInv;
    if ws == [] { ApplyNone(db); } else {
      ItemAt(db, db.runs[run].workItemId);
      assert ws == [ws[0]];
      OneItemMoves(db, ws[0].eventType, ws[0].payload.item);
    }
  }

  lemma FinishMoves(db: Db, item: WorkItem, agent: Id)
    requires LogInv(db) && item.id in db.views.workItems && db.views.workItems[item.id] == item
    requires if item.evaluationSpecId.Some? then item.state == Accepted else item.state != Done
    ensures OnlyMoves(db.views.workItems, ApplyAll(db, CompletionWrites(db, item, agent)).views.workItems)
  {
    hide ApplyAll, CompletionWrites, Releasable, LogInv;
    forall x | x in db.views.workItems ensures db.views.workItems[x].id == x { ItemAt(db, x); }
    CompletionEffect(db, item, agent);
    AfterMoves(db, item);
  }

  lemma AfterMoves(db: Db, item: WorkItem)
    requires item.id in db.views.workItems && db.views.workItems[item.id] == item
    requires if item.evaluationSpecId.Some? then item.state == Accepted else item.state != Done
    ensures OnlyMoves(db.views.workItems, AfterCompletion(db, item))
  {
    hide Blockers;
  }

  lemma CompleteMoves(db: Db, agent: Id, workItem: Id, run: Option<Id>)
    requires LogInv(db)
    ensures OnlyMoves(db.views.workItems, ApplyAll(db, Complete(db, agent, workItem, run).writes).views.workItems)
  {
    hide ApplyAll, CompletionWrites, LogInv;
    var ws := Complete(db, agent, workItem, run).writes;
    if ws == [] { ApplyNone(db); } else {
      ItemAt(db, workItem);
      var item := db.views.workItems[workItem];
      if item.evaluationSpecId.None? || item.state == Accepted {
        FinishMoves(db, item, agent);
      } else if item.state == ImplementationComplete {
        OneItemMoves(db, WorkItemAwaitingEvaluation, Bump(item, AwaitingEvaluation));
      } else {
        var complete := Bump(item, ImplementationComplete);
        TwoItemEvents(db, complete, Bump(complete, AwaitingEvaluation));
      }
    }
  }

  lemma TwoItemEvents(db: Db, first: WorkItem, second: WorkItem)
    requires first.id in db.views.workItems && second.id == first.id && Move(db.views.workItems[first.id], second)
    ensures OnlyMoves(db.views.workItems,
              ApplyAll(db, [Emit(WorkItemImplementationComplete, ItemPayload(first)),
                Emit(WorkItemAwaitingEvaluation, ItemPayload(second))]).views.workItems)
  {
    ApplyTwo(db, Emit(WorkItemImplementationComplete, ItemPayload(first)),
      Emit(WorkItemAwaitingEvaluation, ItemPayload(second)));
  }

  lemma CreateMoves(db: Db, id: Id, spec: Option<Id>, ds: seq<DependencyInput>)
    requires id !in db.views.workItems
    ensures OnlyMoves(db.views.workItems, ApplyAll(db, CreateWorkItem(db, id, spec, ds).writes).views.workItems)
  {
    var ws := CreateWorkItem(db, id, spec, ds).writes;
    if ws == [] { ApplyNone(db); } else {
      assert ws == [ws[0]] + DependencyWrites(id, ds);
      ApplyAllAppend(db, [ws[0]], DependencyWrites(id, ds));
      ApplyAllOne(db, ws[0]);
      hide ApplyAll;
      QuietKeepsItems(ApplyWrite(db, ws[0]), DependencyWrites(id, ds));
    }
  }

  lemma RecordQuiet(db: Db, run: Id, input: ResultInput, provenance: Provenance, declared: Option<string>)
    ensures NoItemEvents(RecordResult(db, run, input, provenance, declared).writes)
  {
    hide ResultProblem, RecordKey, FindCriterion;
  }

  /** The operations that never write an item event. */
  lemma OtherOpsQuiet(db: Db, providers: set<string>, op: Op)
    requires !op.OpClaim? && !op.OpComplete? && !op.OpApplyDecision? && !op.OpCreate?
    ensures NoItemEvents(WritesOf(db, providers, op))
  {
    hide RecordResult, Decide, ValidCriteria;
    match op
    case OpRecordExternal(run, input, declared) =>
      RecordQuiet(db, run, input.(providerId := EXTERNAL_PROVIDER), ExternalUnverified,
                  Some(if declared.Some? then declared.value else input.providerId));
    case OpEvaluate(run, index, answer, ids) =>
      if run in db.runs && db.runs[run].specId in db.specs && index < |db.specs[db.runs[run].specId].criteria| {
        var c := db.specs[db.runs[run].specId].criteria[index];
        RecordQuiet(db, run, ResultInput(ids.unavailable, RUNTIME_PROVIDER, c.id, Error, []), VerifiedProvider, None);
        RecordQuiet(db, run, ResultInput(ids.error, c.evaluatorRef, c.id, Error, []), VerifiedProvider, None);
        if answer.Answered? {
          RecordQuiet(db, run, ResultInput(answer.providerResultId, c.evaluatorRef, c.id, answer.outcome,
            answer.evidence), VerifiedProvider, None);
        }
      }
    case _ =>
  }

  /** In every transaction of every run, each existing item stays as it is or makes a legal move. */
  lemma ItemsMoveLegally(db: Db, providers: set<string>, op: Op)
    requires Inv(db, providers) && Fresh(db, op)
    ensures OnlyMoves(db.views.workItems, Next(db, providers, op).views.workItems)
  {
    hide ApplyAll, Claim, Complete, CreateWorkItem, ApplyDecision, RecordResult, EvaluateCriterion, LogInv, OnlyMoves;
    match op
    case OpClaim(c, now) => ClaimMoves(db, c, now);
    case OpComplete(a, item, run) => CompleteMoves(db, a, item, run);
    case OpApplyDecision(run) => DecisionMoves(db, run);
    case OpCreate(id, spec, ds) => CreateMoves(db, id, spec, ds);
    case _ =>
      OtherOpsQuiet(db, providers, op);
      QuietKeepsItems(db, WritesOf(db, providers, op));
      SameItemsMove(db.views.workItems);
  }

  lemma SameItemsMove(items: map<Id, WorkItem>)
    ensures OnlyMoves(items, items)
  {
  }

  /** Passing the gate is final: from then on the item is accepted or done, by the same run. */
  lemma {:induction false} GateIsFinal(db: Db, providers: set<string>, ops: seq<Op>, id: Id)
    requires Inv(db, providers) && Legal(db, providers, ops)
    requires id in db.views.workItems && PastGate(db.views.workItems[id])
    ensures var after := Run(db, providers, ops).views.workItems;
            && id in after && PastGate(after[id])
            && after[id].acceptedEvaluationRunId == db.views.workItems[id].acceptedEvaluationRunId
            && (db.views.workItems[id].state == Done ==> after[id] == db.views.workItems[id])
    decreases |ops|
  {
    hide Inv, Next, Fresh;
    if ops != [] {
      var next := Next(db, providers, ops[0]);
      ItemsMoveLegally(db, providers, ops[0]);
      NextKeepsInv(db, providers, ops[0]);
      GateIsFinal(next, providers, ops[1..], id);
    }
  }

  // ---------- Blocked items, cycles, progress ----------

  lemma BlockedItemsWait(db: Db, providers: set<string>, id: Id)
    requires Reachable(db, providers)
    requires id in db.views.workItems && db.views.workItems[id].state == Blocked
    ensures exists d :: d in db.dependencies && d.from == id && d.kind == DependsOn &&
                        d.to in db.views.workItems && db.views.workItems[d.to].state != Done
  {
    ReachableInv(db, providers);
    var x :| x in Blockers(id, db.dependencies, db.views.workItems);
  }

  predicate Linked(dependencies: set<WorkDependency>, from: Id, to: Id) {
    exists d :: d in dependencies && d.from == from && d.to == to
  }

  /** A chain of dependencies, of whatever kinds. */
  predicate DependencyPath(dependencies: set<WorkDependency>, path: seq<Id>) {
    path != [] && forall k :: 0 <= k < |path| - 1 ==> Linked(dependencies, path[k], path[k + 1])
  }

  lemma {:induction false} PathDescends(db: Db, path: seq<Id>)
    requires DependencyInv(db) && DependencyPath(db.dependencies, path) && |path| > 1
    ensures CreatedAt(db.log, path[|path| - 1]) < CreatedAt(db.log, path[0])
  {
    hide CreatedAt;
    assert Linked(db.dependencies, path[0], path[0 + 1]);
    if |path| > 2 {
      var rest := path[1..];
      forall k | 0 <= k < |rest| - 1 ensures Linked(db.dependencies, rest[k], rest[k + 1]) {
        assert Linked(db.dependencies, path[k + 1], path[k + 1 + 1]);
      }
      PathDescends(db, rest);
    }
  }

  /** No item ever depends on itself, however indirectly. */
  lemma DependenciesAcyclic(db: Db, providers: set<string>, path: seq<Id>)
    requires Reachable(db, providers)
    requires DependencyPath(db.dependencies, path) && |path| > 1
    ensures path[0] != path[|path| - 1]
  {
    ReachableInv(db, providers);
    PathDescends(db, path);
  }

  /** As long as some item is not done, some item that is not done has nothing to wait for. */
  lemma SomethingCanProceed(db: Db, providers: set<string>, id: Id) returns (free: Id)
    requires Reachable(db, providers)
    requires id in db.views.workItems && db.views.workItems[id].state != Done
    ensures free in db.views.workItems && db.views.workItems[free].state != Done
    ensures Blockers(free, db.dependencies, db.views.workItems) == {}
  {
    ReachableInv(db, providers);
    free := FollowBlockers(db, id);
  }

  lemma {:induction false} FollowBlockers(db: Db, id: Id) returns (free: Id)
    requires DependencyInv(db) && id in db.views.workItems && db.views.workItems[id].state != Done
    ensures free in db.views.workItems && db.views.workItems[free].state != Done
    ensures Blockers(free, db.dependencies, db.views.workItems) == {}
    decreases CreatedAt(db.log, id)
  {
    hide CreatedAt;
    var blockers := Blockers(id, db.dependencies, db.views.workItems);
    if blockers == {} {
      free := id;
    } else {
      var x :| x in blockers;
      free := FollowBlockers(db, x);
    }
  }

  // ---------- The log ----------

  /** Sequences are dense, the projections are what the log says, and versions count an item's events. */
  lemma LogIsAuthoritative(db: Db, providers: set<string>, id: Id)
    requires Reachable(db, providers)
    ensures forall i :: 0 <= i < |db.log| ==> db.log[i].sequence == i + 1
    ensures db.views == Replay(db.log)
    ensures var h := History(db.log, id);
            && (forall k :: 0 <= k < |h| ==> h[k].version == k)
            && (id in db.views.workItems ==> h != [] && db.views.workItems[id] == h[|h| - 1])
  {
    ReachableInv(db, providers);
    assert Versioned(db, id);
  }

  /** Two claims that change the same item never succeed with the same expected version. */
  lemma ClaimsNeverShareVersion(
      db: Db, providers: set<string>, first: ClaimInput, now: int, between: seq<Op>, second: ClaimInput,
      later: int)
    requires Inv(db, providers)
    requires Claim(db, first, now).writes != []
    requires Legal(Next(db, providers, OpClaim(first, now)), providers, between)
    requires second.workItem == first.workItem && second.expectedVersion == first.expectedVersion
    ensures Claim(Run(Next(db, providers, OpClaim(first, now)), providers, between), second, later).writes == []
  {
    hide Inv, Run, Legal;
    var claimed := Next(db, providers, OpClaim(first, now));
    NextKeepsInv(db, providers, OpClaim(first, now));
    ClaimTakesVersion(db, providers, first, now);
    VersionsNeverFall(claimed, providers, between, first.workItem);
  }

  lemma ClaimTakesVersion(db: Db, providers: set<string>, c: ClaimInput, now: int)
    requires Inv(db, providers) && Claim(db, c, now).writes != []
    ensures var after := Next(db, providers, OpClaim(c, now)).views.workItems;
            c.workItem in after && after[c.workItem].version == c.expectedVersion + 1
  {
    ClaimWrite(db, c, now);
    hide Inv, Claim, ApplyAll;
    var w := Claim(db, c, now).writes[0];
    OneItemEffect(db, w.eventType, w.payload.item);
  }

  lemma ClaimWrite(db: Db, c: ClaimInput, now: int)
    requires LogInv(db) && Claim(db, c, now).writes != []
    ensures var ws := Claim(db, c, now).writes;
            && ws == [ws[0]] && ws[0].Emit? && IsItemEvent(ws[0].eventType) && ws[0].payload.ItemPayload?
            && ws[0].payload.item.id == c.workItem && ws[0].payload.item.version == c.expectedVersion + 1
  {
    ItemAt(db, c.workItem);
    hide LogInv, Blockers;
  }

  lemma {:induction false} VersionsNeverFall(db: Db, providers: set<string>, ops: seq<Op>, id: Id)
    requires Inv(db, providers) && Legal(db, providers, ops) && id in db.views.workItems
    ensures var after := Run(db, providers, ops).views.workItems;
            id in after && after[id].version >= db.views.workItems[id].version
    decreases |ops|
  {
    hide Inv, Next, Fresh;
    if ops != [] {
      ItemsMoveLegally(db, providers, ops[0]);
      NextKeepsInv(db, providers, ops[0]);
      VersionsNeverFall(Next(db, providers, ops[0]), providers, ops[1..], id);
    }
  }

  // ---------- What completion releases ----------

  lemma {:induction false} ReplayKeys(log: seq<Event>)
    ensures KeyedById(Replay(log))
  {
    if log != [] {
      var e := log[|log| - 1];
      ReplayKeys(log[..|log| - 1]);
      ProjectKeys(Replay(log[..|log| - 1]), e.eventType, e.payload);
    }
  }

  ghost predicate KeyedById(v: Views) {
    (forall x :: x in v.intents ==> v.intents[x].id == x) && (forall x :: x in v.scopes ==> v.scopes[x].id == x)
  }

  lemma ProjectKeys(v: Views, t: EventType, p: Payload)
    requires KeyedById(v)
    ensures KeyedById(ProjectEvent(v, t, p))
  {
  }

  /** The agent's active intents for the item are completed, all others untouched. */
  function IntentsAfter(intents: map<Id, Intent>, ids: set<Id>, agent: Id, workItem: Id): map<Id, Intent> {
    map x | x in intents ::
      var i := intents[x];
      if x in ids && i.agentSessionId == agent && i.workItemId == Some(workItem) && i.state == IntentActive
      then i.(state := IntentCompleted) else i
  }

  /** The agent holds no scope any more; the scopes of others are untouched. */
  function ScopesAfter(scopes: map<Id, Scope>, ids: set<Id>, agent: Id): map<Id, Scope> {
    map x | x in scopes :: if x in ids && scopes[x].agentSessionId == agent then scopes[x].(released := true)
        else scopes[x]
  }

  predicate Closable(i: Intent, agent: Id, workItem: Id) {
    i.agentSessionId == agent && i.workItemId == Some(workItem) && i.state == IntentActive
  }

  lemma IntentsStep(intents: map<Id, Intent>, ids: set<Id>, id: Id, agent: Id, workItem: Id)
    requires id in intents && id !in ids
    ensures IntentsAfter(intents, ids + {id}, agent, workItem) ==
            if Closable(intents[id], agent, workItem)
            then IntentsAfter(intents, ids, agent, workItem)[id := intents[id].(state := IntentCompleted)]
            else IntentsAfter(intents, ids, agent, workItem)
  {
  }

  lemma {:induction false} IntentsEffect(db: Db, ids: seq<Id>, agent: Id, workItem: Id)
    requires forall x :: x in ids ==> x in db.views.intents
    requires forall x :: x in db.views.intents ==> db.views.intents[x].id == x
    requires forall i, j :: 0 <= i < j < |ids| ==> ids[i] < ids[j]
    ensures var next := ApplyAll(db, ClosedIntents(db.views.intents, ids, agent, workItem));
            && next.views.intents == IntentsAfter(db.views.intents, Elements(ids), agent, workItem)
            && next.views.scopes == db.views.scopes
  {
    hide ApplyAll, ApplyWrite, IntentsAfter, ClosedIntents;
    var intents := db.views.intents;
    if ids == [] {
      ApplyNone(db);
      NothingClosed(agent, workItem, intents, db.views.scopes);
      NoIntents(intents, agent, workItem);
      assert Elements(ids) == {};
    } else {
      var n := |ids| - 1;
      var id, before := ids[n], ids[..n];
      IntentsEffect(db, before, agent, workItem);
      var ws := ClosedIntents(intents, before, agent, workItem);
      assert Elements(ids) == Elements(before) + {id} by { assert ids == before + [id]; }
      assert id !in before;
      ClosedStep(intents, ids, n, agent, workItem);
      assert ids[..n + 1] == ids;
      IntentsStep(intents, Elements(before), id, agent, workItem);
      if Closable(intents[id], agent, workItem) {
        var w := Emit(EventType.IntentSuperseded, IntentPayload(intents[id].(state := IntentCompleted)));
        ApplyAllAppend(db, ws, [w]);
        ApplyAllOne(ApplyAll(db, ws), w);
        IntentWrite(ApplyAll(db, ws), intents[id].(state := IntentCompleted));
      } else {
        assert ws + [] == ws;
      }
    }
  }

  lemma NoIntents(intents: map<Id, Intent>, agent: Id, workItem: Id)
    ensures IntentsAfter(intents, {}, agent, workItem) == intents
  {
  }

  lemma IntentWrite(db: Db, intent: Intent)
    ensures ApplyWrite(db, Emit(EventType.IntentSuperseded, IntentPayload(intent))).views ==
            db.views.(intents := db.views.intents[intent.id := intent])
  {
  }

  lemma ScopesStep(scopes: map<Id, Scope>, ids: set<Id>, id: Id, agent: Id)
    requires id in scopes && id !in ids
    ensures ScopesAfter(scopes, ids + {id}, agent) ==
            if scopes[id].agentSessionId == agent && !scopes[id].released
            then ScopesAfter(scopes, ids, agent)[id := scopes[id].(released := true)]
            else ScopesAfter(scopes, ids, agent)
  {
  }

  lemma {:induction false} ScopesEffect(db: Db, ids: seq<Id>, agent: Id)
    requires forall x :: x in ids ==> x in db.views.scopes
    requires forall x :: x in db.views.scopes ==> db.views.scopes[x].id == x
    requires forall i, j :: 0 <= i < j < |ids| ==> ids[i] < ids[j]
    ensures var next := ApplyAll(db, ReleasedScopes(db.views.scopes, ids, agent));
            && next.views.scopes == ScopesAfter(db.views.scopes, Elements(ids), agent)
            && next.views.intents == db.views.intents
  {
    hide ApplyAll, ApplyWrite, ScopesAfter, ReleasedScopes;
    var scopes := db.views.scopes;
    if ids == [] {
      ApplyNone(db);
      NothingClosed(agent, 0, db.views.intents, scopes);
      NoScopes(scopes, agent);
      assert Elements(ids) == {};
    } else {
      var n := |ids| - 1;
      var id, before := ids[n], ids[..n];
      ScopesEffect(db, before, agent);
      var ws := ReleasedScopes(scopes, before, agent);
      assert Elements(ids) == Elements(before) + {id} by { assert ids == before + [id]; }
      assert id !in before;
      ReleasedScopesStep(scopes, ids, n, agent);
      assert ids[..n + 1] == ids;
      ScopesStep(scopes, Elements(before), id, agent);
      if scopes[id].agentSessionId == agent && !scopes[id].released {
        var w := Emit(ScopeReleased, ScopePayload(scopes[id].(released := true)));
        ApplyAllAppend(db, ws, [w]);
        ApplyAllOne(ApplyAll(db, ws), w);
        ScopeWrite(ApplyAll(db, ws), scopes[id].(released := true));
      } else {
        assert ws + [] == ws;
      }
    }
  }

  lemma NoScopes(scopes: map<Id, Scope>, agent: Id)
    ensures ScopesAfter(scopes, {}, agent) == scopes
  {
  }

  lemma ScopeWrite(db: Db, scope: Scope)
    ensures ApplyWrite(db, Emit(ScopeReleased, ScopePayload(scope))).views ==
            db.views.(scopes := db.views.scopes[scope.id := scope])
  {
  }

  /** Finishing an item closes exactly the agent's active intents for it, releases exactly the agent's
      scopes, and makes ready exactly the items that waited for nothing else. */
  lemma CompletionReleases(db: Db, item: WorkItem, agent: Id)
    requires LogInv(db) && item.id in db.views.workItems && db.views.workItems[item.id] == item
    ensures var next := ApplyAll(db, CompletionWrites(db, item, agent)).views;
            && next.intents == IntentsAfter(db.views.intents, db.views.intents.Keys, agent, item.id)
            && next.scopes == ScopesAfter(db.views.scopes, db.views.scopes.Keys, agent)
            && next.workItems == AfterCompletion(db, item)
  {
    hide LogInv, ApplyAll, CompletionWrites, AfterCompletion, IntentsAfter, ScopesAfter;
    LogReplays(db);
    ReplayKeys(db.log);
    KeysAreIds(db);
    CompletionEffect(db, item, agent);
    QuietPartReleases(db, item, agent);
  }

  lemma LogReplays(db: Db)
    requires LogInv(db)
    ensures db.views == Replay(db.log)
  {
  }

  lemma QuietPartReleases(db: Db, item: WorkItem, agent: Id)
    requires forall x :: x in db.views.intents ==> db.views.intents[x].id == x
    requires forall x :: x in db.views.scopes ==> db.views.scopes[x].id == x
    ensures var next := ApplyAll(db, CompletionWrites(db, item, agent)).views;
            && next.intents == IntentsAfter(db.views.intents, db.views.intents.Keys, agent, item.id)
            && next.scopes == ScopesAfter(db.views.scopes, db.views.scopes.Keys, agent)
  {
    hide ApplyAll, IntentsAfter, ScopesAfter, ClosedIntents, ReleasedScopes, UnblockedItems;
    var completed := Bump(item, Done);
    var w := Emit(WorkItemCompleted, ItemPayload(completed));
    var iids, sids := SortedIds(db.views.intents.Keys), SortedIds(db.views.scopes.Keys);
    var items := db.views.workItems[item.id := completed];
    var intents, scopes :=
        ClosedIntents(db.views.intents, iids, agent, item.id), ReleasedScopes(db.views.scopes, sids, agent);
    var unblocked := UnblockedItems(items, db.dependencies, SortedIds(items.Keys));
    OneItemEffect(db, WorkItemCompleted, completed);
    var first := ApplyAll(db, [w]);
    assert Elements(iids) == db.views.intents.Keys && Elements(sids) == db.views.scopes.Keys;
    IntentsEffect(first, iids, agent, item.id);
    ApplyAllAppend(db, [w], intents);
    ScopesEffect(ApplyAll(first, intents), sids, agent);
    ApplyAllAppend(db, [w] + intents, scopes);
    UnblockedKeepRest(ApplyAll(db, [w] + intents + scopes), items, db.dependencies, SortedIds(items.Keys));
    ApplyAllAppend(db, [w] + intents + scopes, unblocked);
  }

  lemma {:induction false} UnblockedKeepRest(
      db: Db, items: map<Id, WorkItem>, dependencies: set<WorkDependency>, ids: seq<Id>)
    requires forall x :: x in ids ==> x in items
    ensures var next := ApplyAll(db, UnblockedItems(items, dependencies, ids));
            next.views.intents == db.views.intents && next.views.scopes == db.views.scopes
  {
    hide ApplyAll, Releasable;
    if ids == [] { ApplyNone(db); } else {
      var n := |ids| - 1;
      UnblockedKeepRest(db, items, dependencies, ids[..n]);
      var ws := UnblockedItems(items, dependencies, ids[..n]);
      if Releasable(items, dependencies, ids[n]) {
        var w := Emit(WorkItemUnblocked, ItemPayload(Bump(items[ids[n]], Ready)));
        ApplyAllAppend(db, ws, [w]);
        OneItemEffect(ApplyAll(db, ws), WorkItemUnblocked, w.payload.item);
      } else {
        assert ws + [] == ws;
      }
    }
  }
}
