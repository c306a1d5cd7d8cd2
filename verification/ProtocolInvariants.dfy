/** What every transaction of the coordination and evaluation runtimes keeps, in any interleaving. */
module ProtocolInvariants {
  import opened Wrappers
  import opened Contracts
  import opened EventStore
  import opened EventLog
  import opened Acceptance
  import opened Protocol

  // ---------- The invariant ----------

  /** A dependency leads from an item to one that was created before it. */
  ghost predicate DependencyInv(db: Db) {
    forall d :: d in db.dependencies ==>
      && d.from in db.views.workItems && d.to in db.views.workItems
      && CreatedAt(db.log, d.to) < CreatedAt(db.log, d.from)
  }

  /** An item in state blocked is in fact waiting for something. */
  ghost predicate BlockedInv(db: Db) {
    forall id :: id in db.views.workItems && db.views.workItems[id].state == Blocked ==>
      Blockers(id, db.dependencies, db.views.workItems) != {}
  }

  ghost predicate ReferenceInv(db: Db) {
    && (forall id :: id in db.views.workItems && db.views.workItems[id].evaluationSpecId.Some? ==>
          db.views.workItems[id].evaluationSpecId.value in db.specs)
    && (forall r :: r in db.runs ==> db.runs[r].id == r && db.runs[r].specId in db.specs)
    && (forall k :: k in db.results ==> k.0 in db.runs && db.results[k].runId == k.0)
    && (forall r :: r in db.decisions ==> r in db.runs)
    && (forall s :: s in db.specs ==> ValidCriteria(db.specs[s].criteria))
  }

  /** The decision of a completed run is the verdict on exactly the results recorded for it. */
  ghost predicate RunInv(db: Db) {
    forall r :: r in db.runs && db.runs[r].state == Completed ==>
      && db.runs[r].specId in db.specs
      && r in db.decisions
      && db.decisions[r] == Decide(db.specs[db.runs[r].specId], db.runs[r].repositoryStateRef, ResultsOf(db.results, r))
  }

  /** A verified result is either an error the runtime noted itself, or the answer of the registered
      evaluator that the specification names for the criterion. */
  ghost predicate Genuine(db: Db, providers: set<string>, r: StoredResult) {
    r.provenance.VerifiedProvider? ==>
      || r.input.outcome == Error
      || (r.input.providerId in providers && r.runId in db.runs && db.runs[r.runId].specId in db.specs &&
          exists c :: c in db.specs[db.runs[r.runId].specId].criteria && c.id == r.input.criterionId &&
              c.evaluatorRef == r.input.providerId)
  }

  ghost predicate GenuineInv(db: Db, providers: set<string>) {
    forall k :: k in db.results ==> Genuine(db, providers, db.results[k])
  }

  predicate PastGate(item: WorkItem) {
    item.evaluationSpecId.Some? && (item.state == Accepted || item.state == Done)
  }

  /** The run an item refers to is a completed, accepted run of that item and its specification. */
  predicate Authorised(db: Db, item: WorkItem) {
    && item.evaluationSpecId.Some? && item.acceptedEvaluationRunId.Some?
    && var r := item.acceptedEvaluationRunId.value;
       && r in db.runs && db.runs[r].state == Completed
       && db.runs[r].specId == item.evaluationSpecId.value && db.runs[r].workItemId == item.id
       && r in db.decisions && db.decisions[r] == DecisionAccepted
  }

  ghost predicate GateInv(db: Db) {
    forall id :: id in db.views.workItems && PastGate(db.views.workItems[id]) ==> Authorised(db, db.views.workItems[id])
  }

  /** The evaluation part of the invariant. */
  ghost predicate TablesInv(db: Db, providers: set<string>) {
    ReferenceInv(db) && RunInv(db) && GenuineInv(db, providers) && GateInv(db)
  }

  ghost predicate Inv(db: Db, providers: set<string>) {
    && LogInv(db)
    && DependencyInv(db)
    && BlockedInv(db)
    && ReferenceInv(db)
    && RunInv(db)
    && GenuineInv(db, providers)
    && GateInv(db)
  }

  lemma EmptyInv(providers: set<string>)
    ensures Inv(EMPTY_DB, providers)
  {
  }

  // ---------- Frames ----------

  predicate SameTables(a: Db, b: Db) {
    && a.dependencies == b.dependencies && a.specs == b.specs && a.runs == b.runs
    && a.resultRecords == b.resultRecords && a.results == b.results && a.decisions == b.decisions
  }

  predicate OnlyEvents(ws: seq<Write>) {
    forall k :: 0 <= k < |ws| ==> ws[k].Emit?
  }

  predicate NoItemEvents(ws: seq<Write>) {
    forall k :: 0 <= k < |ws| ==> ws[k].Emit? ==> !IsItemEvent(ws[k].eventType)
  }

  lemma {:induction false} EventsKeepTables(db: Db, ws: seq<Write>)
    requires OnlyEvents(ws)
    ensures SameTables(ApplyAll(db, ws), db)
    decreases |ws|
  {
    hide ProjectEvent, NextSequence;
    if ws != [] { EventsKeepTables(ApplyWrite(db, ws[0]), ws[1..]); }
  }

  lemma QuietWrite(db: Db, w: Write)
    requires w.Emit? ==> !IsItemEvent(w.eventType)
    ensures ApplyWrite(db, w).views.workItems == db.views.workItems && WriteOk(db, w)
  {
  }

  lemma {:induction false} QuietKeepsItems(db: Db, ws: seq<Write>)
    requires NoItemEvents(ws)
    ensures ApplyAll(db, ws).views.workItems == db.views.workItems
    ensures AllOk(db, ws)
    decreases |ws|
  {
    if ws != [] {
      QuietWrite(db, ws[0]);
      hide ApplyWrite, WriteOk, IsItemEvent;
      QuietKeepsItems(ApplyWrite(db, ws[0]), ws[1..]);
    }
  }

  lemma ItemAt(db: Db, id: Id)
    requires LogInv(db) && id in db.views.workItems
    ensures db.views.workItems[id].id == id
    ensures CreatedAt(db.log, id) < |db.log|
  {
    hide History, CreatedAt;
    assert Versioned(db, id);
  }

  lemma KeysAreIds(db: Db)
    requires LogInv(db)
    ensures forall x :: x in db.views.workItems ==> db.views.workItems[x].id == x
  {
    hide LogInv;
    forall x | x in db.views.workItems ensures db.views.workItems[x].id == x { ItemAt(db, x); }
  }

  /** The parts of the invariant that a proof picks from it. */
  lemma InvParts(db: Db, providers: set<string>)
    requires Inv(db, providers)
    ensures LogInv(db) && DependencyInv(db) && BlockedInv(db) && TablesInv(db, providers)
    ensures forall x :: x in db.views.workItems ==> db.views.workItems[x].id == x
    ensures forall r :: r in db.runs ==> db.runs[r].id == r && db.runs[r].specId in db.specs
  {
    hide LogInv, DependencyInv, BlockedInv, RunInv, GenuineInv, GateInv;
    KeysAreIds(db);
  }

  lemma InvWhole(db: Db, providers: set<string>)
    requires LogInv(db) && DependencyInv(db) && BlockedInv(db) && TablesInv(db, providers)
    ensures Inv(db, providers)
  {
    hide LogInv, DependencyInv, BlockedInv, ReferenceInv, RunInv, GenuineInv, GateInv;
  }

  // ---------- Items, dependencies and blockers ----------

  /** No item stops being done-or-not in a way that frees another one. */
  ghost predicate StillOpen(before: map<Id, WorkItem>, after: map<Id, WorkItem>) {
    forall id :: id in before && before[id].state != Done ==> id in after && after[id].state != Done
  }

  lemma BlockersKept(id: Id, dependencies: set<WorkDependency>, before: map<Id, WorkItem>, after: map<Id, WorkItem>)
    requires StillOpen(before, after) && Blockers(id, dependencies, before) != {}
    ensures Blockers(id, dependencies, after) != {}
  {
    var x :| x in Blockers(id, dependencies, before);
    assert x in Blockers(id, dependencies, after);
  }

  /** An event of one item, written where no item becomes done, keeps the bookkeeping of all. */
  lemma OneItemKeepsBlocked(db: Db, item: WorkItem)
    requires BlockedInv(db) && item.state != Done
    requires item.state == Blocked ==> Blockers(item.id, db.dependencies, db.views.workItems) != {}
    ensures BlockedInv(db.(views := db.views.(workItems := db.views.workItems[item.id := item])))
  {
    var before := db.views.workItems;
    var after := before[item.id := item];
    forall id | id in after && after[id].state == Blocked
      ensures Blockers(id, db.dependencies, after) != {}
    {
      assert StillOpen(before, after);
      BlockersKept(id, db.dependencies, before, after);
    }
  }

  lemma DependenciesKept(db: Db, ws: seq<Write>)
    requires LogInv(db) && DependencyInv(db) && AllOk(db, ws)
    requires ApplyAll(db, ws).dependencies == db.dependencies
    ensures DependencyInv(ApplyAll(db, ws))
  {
    hide LogInv, CreatedAt, AllOk, ApplyAll;
    var next := ApplyAll(db, ws);
    AllOkGrows(db, ws);
    forall d | d in next.dependencies
      ensures d.from in next.views.workItems && d.to in next.views.workItems
      ensures CreatedAt(next.log, d.to) < CreatedAt(next.log, d.from)
    {
      ItemAt(db, d.from);
      ItemAt(db, d.to);
      CreatedAtStable(db, ws, d.from);
      CreatedAtStable(db, ws, d.to);
    }
  }

  lemma TablesKeepGenuine(a: Db, b: Db, providers: set<string>)
    requires SameTables(a, b) && GenuineInv(a, providers)
    ensures GenuineInv(b, providers)
  {
    forall k | k in b.results ensures Genuine(b, providers, b.results[k]) {
      assert Genuine(a, providers, a.results[k]);
    }
  }

  /** Transactions that only append events, and touch no item. */
  lemma QuietEventsKeepInv(db: Db, providers: set<string>, ws: seq<Write>)
    requires Inv(db, providers) && OnlyEvents(ws) && NoItemEvents(ws)
    ensures Inv(ApplyAll(db, ws), providers)
  {
    hide LogInv, AllOk, ApplyAll, DependencyInv, GenuineInv;
    EventsKeepTables(db, ws);
    QuietKeepsItems(db, ws);
    ApplyAllKeepsLog(db, ws);
    DependenciesKept(db, ws);
    TablesKeepGenuine(db, ApplyAll(db, ws), providers);
  }

  /** Transactions that write one event of one existing item. */
  lemma ItemEventKeepsInv(db: Db, providers: set<string>, t: EventType, item: WorkItem)
    requires Inv(db, providers) && IsItemEvent(t)
    requires item.id in db.views.workItems && item.version == db.views.workItems[item.id].version + 1
    requires item.state != Done && item.evaluationSpecId == db.views.workItems[item.id].evaluationSpecId
    requires item.state == Blocked ==> Blockers(item.id, db.dependencies, db.views.workItems) != {}
    requires PastGate(item) ==> Authorised(db, item)
    ensures Inv(ApplyAll(db, [Emit(t, ItemPayload(item))]), providers)
    ensures var next := ApplyAll(db, [Emit(t, ItemPayload(item))]);
            next.views.workItems == db.views.workItems[item.id := item] && SameTables(next, db)
  {
    hide Inv, LogInv, AllOk, ApplyAll, DependencyInv, TablesInv, Blockers, BlockedInv, PastGate, Authorised;
    InvParts(db, providers);
    var ws := [Emit(t, ItemPayload(item))];
    ItemWrite(db, t, item);
    var next := ApplyAll(db, ws);
    ApplyAllKeepsLog(db, ws);
    DependenciesKept(db, ws);
    OneItemKeepsBlocked(db, item);
    SameBlocked(db.(views := db.views.(workItems := db.views.workItems[item.id := item])), next);
    OneItemKeepsTables(db, providers, item, next);
    InvWhole(next, providers);
  }

  lemma SameBlocked(a: Db, b: Db)
    requires BlockedInv(a) && a.views.workItems == b.views.workItems && a.dependencies == b.dependencies
    ensures BlockedInv(b)
  {
    hide Blockers;
  }

  lemma ItemWrite(db: Db, t: EventType, item: WorkItem)
    requires IsItemEvent(t) && item.id in db.views.workItems && item.version == db.views.workItems[item.id].version + 1
    ensures var ws := [Emit(t, ItemPayload(item))];
            && AllOk(db, ws) && SameTables(ApplyAll(db, ws), db)
            && ApplyAll(db, ws).views.workItems == db.views.workItems[item.id := item]
  {
    OneWrite(db, Emit(t, ItemPayload(item)));
    ApplyAllOne(db, Emit(t, ItemPayload(item)));
  }

  lemma OneItemKeepsTables(db: Db, providers: set<string>, item: WorkItem, next: Db)
    requires TablesInv(db, providers) && SameTables(next, db)
    requires item.id in db.views.workItems && item.evaluationSpecId == db.views.workItems[item.id].evaluationSpecId
    requires next.views.workItems == db.views.workItems[item.id := item]
    requires PastGate(item) ==> Authorised(db, item)
    ensures TablesInv(next, providers)
  {
    hide GenuineInv, RunInv, ValidCriteria;
    TablesKeepGenuine(db, next, providers);
    TablesKeepRuns(db, next);
  }

  lemma OneWrite(db: Db, w: Write)
    requires WriteOk(db, w)
    ensures AllOk(db, [w])
  {
    assert [w][1..] == [];
  }

  // ---------- Coordination ----------

  lemma JoinKeepsInv(db: Db, providers: set<string>, session: Id, now: int)
    requires Inv(db, providers)
    ensures Inv(ApplyAll(db, Join(db, session, now).writes), providers)
  {
    hide Inv;
    QuietEventsKeepInv(db, providers, Join(db, session, now).writes);
  }

  lemma HeartbeatKeepsInv(db: Db, providers: set<string>, agent: Id, now: int)
    requires Inv(db, providers)
    ensures Inv(ApplyAll(db, Heartbeat(db, agent, now).writes), providers)
  {
    var ws := Heartbeat(db, agent, now).writes;
    if ws != [] {
      ApplyAllOne(db, ws[0]);
      OneWrite(db, ws[0]);
      hide LogInv, DependencyInv, GenuineInv, RunInv;
      ApplyAllKeepsLog(db, ws);
      DependenciesKept(db, ws);
      TablesKeepGenuine(db, ApplyAll(db, ws), providers);
      TablesKeepRuns(db, ApplyAll(db, ws));
    }
  }

  lemma TablesKeepRuns(a: Db, b: Db)
    requires SameTables(a, b) && RunInv(a)
    ensures RunInv(b)
  {
  }

  lemma ClaimKeepsInv(db: Db, providers: set<string>, claim: ClaimInput, now: int)
    requires Inv(db, providers)
    ensures Inv(ApplyAll(db, Claim(db, claim, now).writes), providers)
  {
    var ws := Claim(db, claim, now).writes;
    if ws != [] {
      ItemAt(db, claim.workItem);
      var item := db.views.workItems[claim.workItem].(assignee := Some(claim.agent));
      hide Inv, Blockers;
      if ws[0].eventType == WorkItemBlocked {
        ItemEventKeepsInv(db, providers, WorkItemBlocked, Bump(item, Blocked));
      } else {
        ItemEventKeepsInv(db, providers, WorkItemClaimed, Bump(item, Active));
      }
    }
  }

  lemma ApplyDecisionKeepsInv(db: Db, providers: set<string>, run: Id)
    requires Inv(db, providers)
    ensures Inv(ApplyAll(db, ApplyDecision(db, run).writes), providers)
  {
    var ws := ApplyDecision(db, run).writes;
    if ws != [] {
      ItemAt(db, db.runs[run].workItemId);
      var item := db.views.workItems[db.runs[run].workItemId];
      assert db.runs[run].id == run;
      hide LogInv, DependencyInv, BlockedInv, GenuineInv, RunInv, GateInv, Blockers;
      var w := ws[0];
      assert ws == [w];
      ItemEventKeepsInv(db, providers, w.eventType, w.payload.item);
    }
  }

  /** The new item is the youngest, so its dependencies lead downwards. */
  lemma CreateKeepsInv(db: Db, providers: set<string>, id: Id, spec: Option<Id>, ds: seq<DependencyInput>)
    requires Inv(db, providers) && Fresh(db, OpCreate(id, spec, ds))
    ensures Inv(ApplyAll(db, CreateWorkItem(db, id, spec, ds).writes), providers)
  {
    var out := CreateWorkItem(db, id, spec, ds);
    if out.writes != [] {
      var item := WorkItem(id, spec, Ready, None, None, 0);
      var w := Emit(WorkItemCreated, ItemPayload(item));
      var mid := ApplyWrite(db, w);
      var deps := DependencyWrites(id, ds);
      hide LogInv, DependencyInv, GenuineInv, RunInv, GateInv, BlockedInv;
      ApplyAllAppend(db, [w], deps);
      ApplyAllOne(db, w);
      OneWrite(db, w);
      QuietKeepsItems(mid, deps);
      AllOkAppend(db, [w], deps);
      ApplyAllKeepsLog(db, out.writes);
      PutDependencies(mid, id, ds);
      CreatedDependencies(db, id, spec, ds);
      CreatedBlocked(db, id, spec, ds);
      CreatedTables(db, providers, id, spec, ds);
    }
  }

  function Requested(id: Id, ds: seq<DependencyInput>): set<WorkDependency> {
    set k | 0 <= k < |ds| :: WorkDependency(id, ds[k].to, ds[k].kind)
  }

  lemma RequestedStep(id: Id, ds: seq<DependencyInput>)
    requires ds != []
    ensures Requested(id, ds) == {WorkDependency(id, ds[0].to, ds[0].kind)} + Requested(id, ds[1..])
  {
    forall d | d in Requested(id, ds) ensures d in {WorkDependency(id, ds[0].to, ds[0].kind)} + Requested(id, ds[1..]) {
      var k :| 0 <= k < |ds| && d == WorkDependency(id, ds[k].to, ds[k].kind);
      if k > 0 { assert ds[1..][k - 1] == ds[k]; }
    }
    forall d | d in Requested(id, ds[1..]) ensures d in Requested(id, ds) {
      var k :| 0 <= k < |ds[1..]| && d == WorkDependency(id, ds[1..][k].to, ds[1..][k].kind);
      assert ds[1..][k] == ds[k + 1];
    }
  }

  lemma {:induction false} PutDependencies(db: Db, id: Id, ds: seq<DependencyInput>)
    ensures ApplyAll(db, DependencyWrites(id, ds)) == db.(dependencies := db.dependencies + Requested(id, ds))
    decreases |ds|
  {
    var ws := DependencyWrites(id, ds);
    hide Requested, DependencyWrites;
    if ds != [] {
      assert ws[1..] == DependencyWrites(id, ds[1..]);
      PutDependencies(ApplyWrite(db, ws[0]), id, ds[1..]);
      RequestedStep(id, ds);
      var first := WorkDependency(id, ds[0].to, ds[0].kind);
      assert (db.dependencies + {first}) + Requested(id, ds[1..]) == db.dependencies + Requested(id, ds);
    } else {
      NoneRequested(id);
      assert db.dependencies + {} == db.dependencies;
    }
  }

  lemma NoneRequested(id: Id)
    ensures Requested(id, []) == {}
  {
  }

  lemma {:induction false} DependenciesExist(items: map<Id, WorkItem>, id: Id, ds: seq<DependencyInput>)
    requires DependencyProblem(items, id, ds).None?
    ensures forall k :: 0 <= k < |ds| ==> ds[k].to in items
  {
    if ds != [] {
      DependenciesExist(items, id, ds[1..]);
      assert forall k :: 0 < k < |ds| ==> ds[k] == ds[1..][k - 1];
    }
  }

  /** The database after a successful creation. */
  function Created(db: Db, id: Id, spec: Option<Id>, ds: seq<DependencyInput>): Db {
    ApplyWrite(db, Emit(WorkItemCreated, ItemPayload(WorkItem(id, spec, Ready, None, None, 0)))).(
      dependencies := db.dependencies + Requested(id, ds))
  }

  lemma CreatedDependencies(db: Db, id: Id, spec: Option<Id>, ds: seq<DependencyInput>)
    requires LogInv(db) && DependencyInv(db) && Fresh(db, OpCreate(id, spec, ds))
    requires CreateWorkItem(db, id, spec, ds).writes != []
    ensures DependencyInv(Created(db, id, spec, ds))
  {
    var next := Created(db, id, spec, ds);
    var e := next.log[|db.log|];
    DependenciesExist(db.views.workItems[id := e.payload.item], id, ds);
    assert Versioned(db, id);
    LogAppend(db.log, e, id);
    hide LogInv, CreatedAt;
    forall d | d in next.dependencies
      ensures d.from in next.views.workItems && d.to in next.views.workItems
      ensures CreatedAt(next.log, d.to) < CreatedAt(next.log, d.from)
    {
      ItemAt(db, d.to);
      LogAppend(db.log, e, d.to);
      if d in db.dependencies {
        ItemAt(db, d.from);
        LogAppend(db.log, e, d.from);
      }
    }
  }

  lemma CreatedBlocked(db: Db, id: Id, spec: Option<Id>, ds: seq<DependencyInput>)
    requires BlockedInv(db) && id !in db.views.workItems
    ensures BlockedInv(Created(db, id, spec, ds))
  {
    var next := Created(db, id, spec, ds);
    forall x | x in next.views.workItems && next.views.workItems[x].state == Blocked
      ensures Blockers(x, next.dependencies, next.views.workItems) != {}
    {
      assert x in db.views.workItems;
      var y :| y in Blockers(x, db.dependencies, db.views.workItems);
      assert y in Blockers(x, next.dependencies, next.views.workItems);
    }
  }

  lemma CreatedTables(db: Db, providers: set<string>, id: Id, spec: Option<Id>, ds: seq<DependencyInput>)
    requires ReferenceInv(db) && RunInv(db) && GenuineInv(db, providers) && GateInv(db)
    requires spec.Some? ==> spec.value in db.specs
    ensures var next := Created(db, id, spec, ds);
            ReferenceInv(next) && RunInv(next) && GenuineInv(next, providers) && GateInv(next)
  {
    var next := Created(db, id, spec, ds);
    forall k | k in next.results ensures Genuine(next, providers, next.results[k]) {
      assert Genuine(db, providers, db.results[k]);
    }
  }

  // ---------- Completion ----------

  lemma ClosedStep(intents: map<Id, Intent>, ids: seq<Id>, k: nat, agent: Id, workItem: Id)
    requires (forall x :: x in ids ==> x in intents) && k < |ids|
    ensures var i := intents[ids[k]];
            ClosedIntents(intents, ids[..k + 1], agent, workItem) ==
            ClosedIntents(intents, ids[..k], agent, workItem) +
            if i.agentSessionId == agent && i.workItemId == Some(workItem) && i.state == IntentActive
            then [Emit(EventType.IntentSuperseded, IntentPayload(i.(state := IntentCompleted)))] else []
  {
    assert ids[..k + 1][..k] == ids[..k];
  }

  lemma ReleasedScopesStep(scopes: map<Id, Scope>, ids: seq<Id>, k: nat, agent: Id)
    requires (forall x :: x in ids ==> x in scopes) && k < |ids|
    ensures var s := scopes[ids[k]];
            ReleasedScopes(scopes, ids[..k + 1], agent) ==
            ReleasedScopes(scopes, ids[..k], agent) +
            if s.agentSessionId == agent && !s.released then [Emit(ScopeReleased, ScopePayload(s.(released := true)))]
              else []
  {
    assert ids[..k + 1][..k] == ids[..k];
  }

  lemma NothingClosed(agent: Id, workItem: Id, intents: map<Id, Intent>, scopes: map<Id, Scope>)
    ensures ClosedIntents(intents, [], agent, workItem) == [] && ReleasedScopes(scopes, [], agent) == []
  {
  }

  lemma NothingUnblocked(items: map<Id, WorkItem>, dependencies: set<WorkDependency>)
    ensures UnblockedItems(items, dependencies, []) == []
  {
  }

  lemma UnblockedStep(items: map<Id, WorkItem>, dependencies: set<WorkDependency>, ids: seq<Id>, k: nat)
    requires (forall x :: x in ids ==> x in items) && k < |ids|
    ensures UnblockedItems(items, dependencies, ids[..k + 1]) ==
            UnblockedItems(items, dependencies, ids[..k]) +
            if Releasable(items, dependencies, ids[k])
              then [Emit(WorkItemUnblocked, ItemPayload(Bump(items[ids[k]], Ready)))] else []
  {
    hide Releasable;
    assert ids[..k + 1][..k] == ids[..k];
  }

  lemma {:induction false} ClosedIntentsQuiet(intents: map<Id, Intent>, ids: seq<Id>, agent: Id, workItem: Id)
    requires forall x :: x in ids ==> x in intents
    ensures OnlyEvents(ClosedIntents(intents, ids, agent, workItem)) &&
            NoItemEvents(ClosedIntents(intents, ids, agent, workItem))
  {
    if ids != [] { ClosedIntentsQuiet(intents, ids[..|ids| - 1], agent, workItem); }
  }

  lemma {:induction false} ReleasedScopesQuiet(scopes: map<Id, Scope>, ids: seq<Id>, agent: Id)
    requires forall x :: x in ids ==> x in scopes
    ensures OnlyEvents(ReleasedScopes(scopes, ids, agent)) && NoItemEvents(ReleasedScopes(scopes, ids, agent))
  {
    if ids != [] { ReleasedScopesQuiet(scopes, ids[..|ids| - 1], agent); }
  }

  function Elements(ids: seq<Id>): set<Id> { set x | x in ids }

  /** Every releasable item among `ids` is ready again; nothing else changed. */
  function Released(items: map<Id, WorkItem>, dependencies: set<WorkDependency>, ids: set<Id>): map<Id, WorkItem> {
    map id | id in items ::
      if id in ids && Releasable(items, dependencies, id) then Bump(items[id], Ready) else items[id]
  }

  lemma ReleasedStep(items: map<Id, WorkItem>, dependencies: set<WorkDependency>, ids: set<Id>, id: Id)
    requires id in items && id !in ids
    ensures Released(items, dependencies, ids + {id}) ==
            if Releasable(items, dependencies, id) then Released(items, dependencies, ids)[id := Bump(items[id], Ready)]
            else Released(items, dependencies, ids)
    ensures id in Released(items, dependencies, ids) && Released(items, dependencies, ids)[id] == items[id]
  {
    hide Blockers;
  }

  lemma ReleaseOne(db: Db, item: WorkItem)
    requires item.id in db.views.workItems && db.views.workItems[item.id] == item
    ensures var ws := [Emit(WorkItemUnblocked, ItemPayload(Bump(item, Ready)))];
            AllOk(db, ws) && ApplyAll(db, ws).views.workItems == db.views.workItems[item.id := Bump(item, Ready)]
  {
    var w := Emit(WorkItemUnblocked, ItemPayload(Bump(item, Ready)));
    OneWrite(db, w);
    ApplyAllOne(db, w);
  }

  lemma {:induction false} UnblockedEffect(db: Db, ids: seq<Id>)
    requires forall x :: x in ids ==> x in db.views.workItems
    requires forall x :: x in db.views.workItems ==> db.views.workItems[x].id == x
    requires forall i, j :: 0 <= i < j < |ids| ==> ids[i] < ids[j]
    ensures var ws := UnblockedItems(db.views.workItems, db.dependencies, ids);
            && OnlyEvents(ws) && AllOk(db, ws)
            && ApplyAll(db, ws).views.workItems == Released(db.views.workItems, db.dependencies, Elements(ids))
  {
    hide Releasable, ApplyAll, AllOk;
    var items := db.views.workItems;
    if ids == [] {
      hide Released;
      ReleaseNone(items, db.dependencies);
      ApplyNone(db);
      assert Elements(ids) == {};
    } else {
      hide Released;
      var n := |ids| - 1;
      var id, before := ids[n], ids[..n];
      UnblockedEffect(db, before);
      var ws := UnblockedItems(items, db.dependencies, before);
      var mid := ApplyAll(db, ws);
      assert Elements(ids) == Elements(before) + {id} by { assert ids == before + [id]; }
      assert id !in before;
      ReleasedStep(items, db.dependencies, Elements(before), id);
      if Releasable(items, db.dependencies, id) {
        var w := Emit(WorkItemUnblocked, ItemPayload(Bump(items[id], Ready)));
        ReleaseOne(mid, items[id]);
        AllOkAppend(db, ws, [w]);
        ApplyAllAppend(db, ws, [w]);
      } else {
        assert ws + [] == ws;
      }
    }
  }

  lemma ReleaseNone(items: map<Id, WorkItem>, dependencies: set<WorkDependency>)
    ensures Released(items, dependencies, {}) == items
  {
  }

  lemma ApplyNone(db: Db)
    ensures ApplyAll(db, []) == db && AllOk(db, [])
  {
  }

  /** The work items after a completion: the item done, and every item released that waited only for it. */
  function AfterCompletion(db: Db, item: WorkItem): map<Id, WorkItem> {
    var items := db.views.workItems[item.id := Bump(item, Done)];
    Released(items, db.dependencies, items.Keys)
  }

  lemma CompletionEffect(db: Db, item: WorkItem, agent: Id)
    requires item.id in db.views.workItems && db.views.workItems[item.id] == item
    requires forall x :: x in db.views.workItems ==> db.views.workItems[x].id == x
    ensures var ws := CompletionWrites(db, item, agent);
            && AllOk(db, ws) && OnlyEvents(ws)
            && ApplyAll(db, ws).views.workItems == AfterCompletion(db, item)
  {
    hide ApplyAll, AllOk, Released, CompletionWrites, QuietCompletion, UnblockedItems;
    var completed := Bump(item, Done);
    var done := [Emit(WorkItemCompleted, ItemPayload(completed))];
    var quiet := QuietCompletion(db, item, agent);
    CompletionShape(db, item, agent);
    CompletedItem(db, completed);
    var mid := ApplyAll(db, done);
    CompletionTail(mid, quiet);
    var unblocked := UnblockedItems(mid.views.workItems, mid.dependencies, SortedIds(mid.views.workItems.Keys));
    AllOkAppend(db, done, quiet + unblocked);
    ApplyAllAppend(db, done, quiet + unblocked);
  }

  /** The intents closed and the scopes released by a completion. */
  function QuietCompletion(db: Db, item: WorkItem, agent: Id): seq<Write> {
    ClosedIntents(db.views.intents, SortedIds(db.views.intents.Keys), agent, item.id)
    + ReleasedScopes(db.views.scopes, SortedIds(db.views.scopes.Keys), agent)
  }

  lemma CompletionShape(db: Db, item: WorkItem, agent: Id)
    ensures var items := db.views.workItems[item.id := Bump(item, Done)];
            CompletionWrites(db, item, agent) ==
            [Emit(WorkItemCompleted, ItemPayload(Bump(item, Done)))]
            + (QuietCompletion(db, item, agent) + UnblockedItems(items, db.dependencies, SortedIds(items.Keys)))
    ensures OnlyEvents(QuietCompletion(db, item, agent)) && NoItemEvents(QuietCompletion(db, item, agent))
  {
    hide ClosedIntents, ReleasedScopes, UnblockedItems, SortedIds;
    ClosedIntentsQuiet(db.views.intents, SortedIds(db.views.intents.Keys), agent, item.id);
    ReleasedScopesQuiet(db.views.scopes, SortedIds(db.views.scopes.Keys), agent);
  }

  /** After the completed item itself: quiet events, then the releases. */
  lemma CompletionTail(db: Db, quiet: seq<Write>)
    requires OnlyEvents(quiet) && NoItemEvents(quiet)
    requires forall x :: x in db.views.workItems ==> db.views.workItems[x].id == x
    ensures var items := db.views.workItems;
            var ws := quiet + UnblockedItems(items, db.dependencies, SortedIds(items.Keys));
            && AllOk(db, ws) && OnlyEvents(ws)
            && ApplyAll(db, ws).views.workItems == Released(items, db.dependencies, items.Keys)
  {
    hide ApplyAll, AllOk, Released, Releasable, UnblockedItems;
    var items := db.views.workItems;
    var ids := SortedIds(items.Keys);
    QuietKeepsItems(db, quiet);
    EventsKeepTables(db, quiet);
    var mid := ApplyAll(db, quiet);
    UnblockedEffect(mid, ids);
    assert Elements(ids) == items.Keys;
    AllOkAppend(db, quiet, UnblockedItems(items, db.dependencies, ids));
    ApplyAllAppend(db, quiet, UnblockedItems(items, db.dependencies, ids));
  }

  lemma CompletedItem(db: Db, completed: WorkItem)
    requires completed.id in db.views.workItems && completed.version == db.views.workItems[completed.id].version + 1
    ensures var ws := [Emit(WorkItemCompleted, ItemPayload(completed))];
            && AllOk(db, ws)
            && ApplyAll(db, ws).views.workItems == db.views.workItems[completed.id := completed]
            && SameTables(ApplyAll(db, ws), db)
  {
    var w := Emit(WorkItemCompleted, ItemPayload(completed));
    OneWrite(db, w);
    ApplyAllOne(db, w);
  }

  /** Whoever is still blocked after a completion still waits for something. */
  lemma CompletionKeepsBlocked(db: Db, item: WorkItem)
    requires forall x :: x in db.views.workItems ==> db.views.workItems[x].id == x
    requires item.id in db.views.workItems
    ensures var after := AfterCompletion(db, item);
            forall id :: id in after && after[id].state == Blocked ==> Blockers(id, db.dependencies, after) != {}
  {
    var items := db.views.workItems[item.id := Bump(item, Done)];
    var after := AfterCompletion(db, item);
    hide Blockers;
    assert StillOpen(items, after);
    forall id | id in after && after[id].state == Blocked
      ensures Blockers(id, db.dependencies, after) != {}
    {
      BlockersKept(id, db.dependencies, items, after);
    }
  }

  lemma CompletionKeepsGate(db: Db, item: WorkItem, next: Db)
    requires GateInv(db) && ReferenceInv(db) && SameTables(next, db)
    requires item.id in db.views.workItems && db.views.workItems[item.id] == item
    requires item.evaluationSpecId.Some? ==> item.state == Accepted
    requires next.views.workItems == AfterCompletion(db, item)
    ensures GateInv(next) && ReferenceInv(next)
  {
    hide Releasable;
  }

  lemma CompleteKeepsInv(db: Db, providers: set<string>, agent: Id, workItem: Id, runId: Option<Id>)
    requires Inv(db, providers)
    ensures Inv(ApplyAll(db, Complete(db, agent, workItem, runId).writes), providers)
  {
    hide LogInv, GenuineInv, RunInv, GateInv, DependencyInv, BlockedInv, ReferenceInv, CompletionWrites, ApplyAll,
         AllOk;
    var out := Complete(db, agent, workItem, runId);
    if out.writes == [] {
      ApplyNone(db);
    } else {
      ItemAt(db, workItem);
      var item := db.views.workItems[workItem];
      if item.evaluationSpecId.None? || item.state == Accepted {
        assert out.writes == CompletionWrites(db, item, agent);
        FinishKeepsInv(db, providers, item, agent);
      } else if item.state == ImplementationComplete {
        ItemEventKeepsInv(db, providers, WorkItemAwaitingEvaluation, Bump(item, AwaitingEvaluation));
      } else {
        var complete := Bump(item, ImplementationComplete);
        var first, second := Emit(WorkItemImplementationComplete, ItemPayload(complete)),
                             Emit(WorkItemAwaitingEvaluation, ItemPayload(Bump(complete, AwaitingEvaluation)));
        ItemEventKeepsInv(db, providers, WorkItemImplementationComplete, complete);
        var mid := ApplyAll(db, [first]);
        ItemEventKeepsInv(mid, providers, WorkItemAwaitingEvaluation, Bump(complete, AwaitingEvaluation));
        assert [first, second] == [first] + [second];
        ApplyAllAppend(db, [first], [second]);
      }
    }
  }

  lemma FinishKeepsInv(db: Db, providers: set<string>, item: WorkItem, agent: Id)
    requires Inv(db, providers)
    requires item.id in db.views.workItems && db.views.workItems[item.id] == item
    requires item.evaluationSpecId.Some? ==> item.state == Accepted
    ensures Inv(ApplyAll(db, CompletionWrites(db, item, agent)), providers)
  {
    hide LogInv, GenuineInv, RunInv, GateInv, DependencyInv, ReferenceInv, CompletionWrites, ApplyAll, AllOk,
         AfterCompletion;
    var ws := CompletionWrites(db, item, agent);
    forall x | x in db.views.workItems ensures db.views.workItems[x].id == x { ItemAt(db, x); }
    CompletionEffect(db, item, agent);
    EventsKeepTables(db, ws);
    ApplyAllKeepsLog(db, ws);
    DependenciesKept(db, ws);
    var next := ApplyAll(db, ws);
    TablesKeepGenuine(db, next, providers);
    TablesKeepRuns(db, next);
    CompletionKeepsBlocked(db, item);
    CompletionKeepsGate(db, item, next);
  }

  // ---------- Evaluation ----------

  /** Transactions that leave the items alone and write evaluation tables. */
  lemma EvaluationFrame(db: Db, providers: set<string>, ws: seq<Write>)
    requires Inv(db, providers) && NoItemEvents(ws)
    requires ApplyAll(db, ws).dependencies == db.dependencies
    ensures var next := ApplyAll(db, ws);
            && LogInv(next) && DependencyInv(next) && BlockedInv(next)
            && next.views.workItems == db.views.workItems
  {
    hide LogInv, AllOk, ApplyAll, DependencyInv;
    QuietKeepsItems(db, ws);
    ApplyAllKeepsLog(db, ws);
    DependenciesKept(db, ws);
  }

  lemma PutThenEvents(db: Db, providers: set<string>, puts: seq<Write>, events: seq<Write>)
    requires Inv(db, providers) && NoItemEvents(puts) && NoItemEvents(events) && OnlyEvents(events)
    requires ApplyAll(db, puts).dependencies == db.dependencies
    requires TablesInv(ApplyAll(db, puts), providers)
    ensures Inv(ApplyAll(db, puts + events), providers)
  {
    hide LogInv, DependencyInv, BlockedInv, ApplyAll, GenuineInv, RunInv;
    var mid := ApplyAll(db, puts);
    ApplyAllAppend(db, puts, events);
    EventsKeepTables(mid, events);
    QuietKeepsItems(mid, events);
    EvaluationFrame(db, providers, puts + events);
    TablesKeepGenuine(mid, ApplyAll(mid, events), providers);
    TablesKeepRuns(mid, ApplyAll(mid, events));
  }

  lemma AddSpec(db: Db, providers: set<string>, spec: EvaluationSpec)
    requires TablesInv(db, providers) && spec.id !in db.specs && ValidCriteria(spec.criteria)
    ensures TablesInv(ApplyWrite(db, PutSpec(spec)), providers)
  {
    hide Decide, ValidCriteria;
    var next := ApplyWrite(db, PutSpec(spec));
    forall k | k in next.results ensures Genuine(next, providers, next.results[k]) {
      assert Genuine(db, providers, db.results[k]);
    }
  }

  /** A run may be added, or moved on from an open state. */
  lemma AddRun(db: Db, providers: set<string>, run: EvaluationRun)
    requires TablesInv(db, providers) && run.specId in db.specs && run.state != Completed
    requires run.id in db.runs ==> db.runs[run.id].state != Completed && run == db.runs[run.id].(state := run.state)
    ensures TablesInv(ApplyWrite(db, PutRun(run)), providers)
  {
    hide Decide, ValidCriteria;
    var next := ApplyWrite(db, PutRun(run));
    forall k | k in next.results ensures Genuine(next, providers, next.results[k]) {
      assert Genuine(db, providers, db.results[k]);
    }
  }

  lemma CloseRun(db: Db, providers: set<string>, run: EvaluationRun)
    requires TablesInv(db, providers) && run.id in db.runs && run == db.runs[run.id].(state := Completed)
    requires db.runs[run.id].state != Completed
    ensures var decision := Decide(db.specs[run.specId], run.repositoryStateRef, ResultsOf(db.results, run.id));
            TablesInv(ApplyWrite(ApplyWrite(db, PutDecision(run.id, decision)), PutRun(run)), providers)
  {
    hide Decide, ValidCriteria, ResultsOf;
    var decision := Decide(db.specs[run.specId], run.repositoryStateRef, ResultsOf(db.results, run.id));
    var next := ApplyWrite(ApplyWrite(db, PutDecision(run.id, decision)), PutRun(run));
    assert next == db.(runs := db.runs[run.id := run], decisions := db.decisions[run.id := decision]);
    ClosedGenuine(db, next, providers);
    ClosedRuns(db, next, run);
    hide GenuineInv, RunInv;
  }

  lemma ClosedRuns(db: Db, next: Db, run: EvaluationRun)
    requires RunInv(db) && run.specId in db.specs && run.state == Completed
    requires var decision := Decide(db.specs[run.specId], run.repositoryStateRef, ResultsOf(db.results, run.id));
             next == db.(runs := db.runs[run.id := run], decisions := db.decisions[run.id := decision])
    ensures RunInv(next)
  {
    hide Decide, ResultsOf;
  }

  lemma ClosedGenuine(db: Db, next: Db, providers: set<string>)
    requires GenuineInv(db, providers) && next.results == db.results && next.specs == db.specs
    requires forall r :: r in db.runs ==> r in next.runs && next.runs[r].specId == db.runs[r].specId
    ensures GenuineInv(next, providers)
  {
    forall k | k in next.results ensures Genuine(next, providers, next.results[k]) {
      assert Genuine(db, providers, db.results[k]);
    }
  }

  /** A result is stored only for a run that is still open, and only from a genuine source. */
  lemma AddResult(db: Db, providers: set<string>, stored: StoredResult)
    requires TablesInv(db, providers)
    requires stored.runId in db.runs && db.runs[stored.runId].state != Completed && Genuine(db, providers, stored)
    ensures TablesInv(ApplyWrite(db, PutResult(stored)), providers)
  {
    hide Decide, RecordKey, ValidCriteria;
    var next := ApplyWrite(db, PutResult(stored));
    forall k | k in next.results ensures Genuine(next, providers, next.results[k]) {
      if k in db.results { assert Genuine(db, providers, db.results[k]); }
    }
    forall r | r in db.runs && db.runs[r].state == Completed
      ensures ResultsOf(next.results, r) == ResultsOf(db.results, r)
    {
      OtherResults(db.results, (stored.runId, stored.input.criterionId, stored.input.providerResultId), stored, r);
    }
  }

  lemma OtherResults(
      results: map<(Id, string, string), StoredResult>, k: (Id, string, string), stored: StoredResult, r: Id)
    requires k.0 != r
    ensures ResultsOf(results[k := stored], r) == ResultsOf(results, r)
  {
  }

  lemma RegisterSpecKeepsInv(db: Db, providers: set<string>, id: Id, criteria: seq<EvaluationCriterion>)
    requires Inv(db, providers) && Fresh(db, OpRegisterSpec(id, criteria))
    ensures Inv(ApplyAll(db, RegisterSpec(db, id, criteria).writes), providers)
  {
    hide Inv, TablesInv;
    InvParts(db, providers);
    hide ApplyAll, ProjectEvent, Decide, ValidCriteria, ResultProblem, RecordKey;
    var ws := RegisterSpec(db, id, criteria).writes;
    if ws == [] { ApplyNone(db); } else {
      AddSpec(db, providers, ws[0].spec);
      ApplyAllOne(db, ws[0]);
      PutThenEvents(db, providers, [ws[0]], [ws[1]]);
      assert ws == [ws[0]] + [ws[1]];
    }
  }

  lemma RequestRunKeepsInv(db: Db, providers: set<string>, id: Id, specId: Id, item: Id, target: string, attempt: nat)
    requires Inv(db, providers) && Fresh(db, OpRequestRun(id, specId, item, target, attempt))
    ensures Inv(ApplyAll(db, RequestRun(db, id, specId, item, target, attempt).writes), providers)
  {
    hide Inv, TablesInv;
    InvParts(db, providers);
    hide ApplyAll, ProjectEvent, Decide, ValidCriteria, ResultProblem, RecordKey;
    var ws := RequestRun(db, id, specId, item, target, attempt).writes;
    if ws == [] { ApplyNone(db); } else {
      AddRun(db, providers, ws[0].run);
      ApplyAllOne(db, ws[0]);
      PutThenEvents(db, providers, [ws[0]], [ws[1]]);
      assert ws == [ws[0]] + [ws[1]];
    }
  }

  lemma StartRunKeepsInv(db: Db, providers: set<string>, run: Id)
    requires Inv(db, providers)
    ensures Inv(ApplyAll(db, StartRun(db, run).writes), providers)
  {
    hide Inv, TablesInv;
    InvParts(db, providers);
    hide ApplyAll, ProjectEvent, Decide, ValidCriteria, ResultProblem, RecordKey;
    var ws := StartRun(db, run).writes;
    if ws == [] { ApplyNone(db); } else {
      AddRun(db, providers, ws[0].run);
      ApplyAllOne(db, ws[0]);
      PutThenEvents(db, providers, [ws[0]], [ws[1]]);
      assert ws == [ws[0]] + [ws[1]];
    }
  }

  lemma CompleteRunKeepsInv(db: Db, providers: set<string>, run: Id)
    requires Inv(db, providers)
    ensures Inv(ApplyAll(db, CompleteRun(db, run).writes), providers)
  {
    hide Inv, TablesInv;
    InvParts(db, providers);
    hide ApplyAll, ProjectEvent, Decide, ValidCriteria, ResultProblem, RecordKey;
    var ws := CompleteRun(db, run).writes;
    if ws == [] { ApplyNone(db); } else {
      CloseRun(db, providers, ws[1].run);
      ApplyTwo(db, ws[0], ws[1]);
      PutThenEvents(db, providers, [ws[0], ws[1]], [ws[2], ws[3]]);
      assert ws == [ws[0], ws[1]] + [ws[2], ws[3]];
    }
  }

  lemma RecordKeepsInv(
      db: Db, providers: set<string>, runId: Id, input: ResultInput, provenance: Provenance,
      declared: Option<string>)
    requires Inv(db, providers)
    requires Genuine(db, providers, StoredResult(runId, input, provenance, declared))
    ensures Inv(ApplyAll(db, RecordResult(db, runId, input, provenance, declared).writes), providers)
  {
    hide Inv, TablesInv;
    InvParts(db, providers);
    hide ApplyAll, ProjectEvent, Decide, ValidCriteria, ResultProblem, RecordKey;
    var ws := RecordResult(db, runId, input, provenance, declared).writes;
    if ws == [] { ApplyNone(db); } else {
      var stored := StoredResult(runId, input, provenance, declared);
      assert ws == [PutResult(stored)] + [Emit(EvaluationResultRecorded, OtherPayload)];
      AddResult(db, providers, stored);
      ApplyAllOne(db, ws[0]);
      PutThenEvents(db, providers, [ws[0]], [ws[1]]);
    }
  }

  lemma EvaluateKeepsInv(db: Db, providers: set<string>, run: Id, index: nat, answer: Answer, ids: FallbackIds)
    requires Inv(db, providers)
    ensures Inv(ApplyAll(db, EvaluateCriterion(db, providers, run, index, answer, ids).writes), providers)
  {
    hide Inv, RecordResult, ApplyAll;
    if run !in db.runs || db.runs[run].specId !in db.specs || index >= |db.specs[db.runs[run].specId].criteria| {
      ApplyNone(db);
      return;
    }
    var c := db.specs[db.runs[run].specId].criteria[index];
    RecordKeepsInv(db, providers, run, ResultInput(ids.unavailable, RUNTIME_PROVIDER, c.id, Error, []),
      VerifiedProvider, None);
    RecordKeepsInv(db, providers, run, ResultInput(ids.error, c.evaluatorRef, c.id, Error, []), VerifiedProvider, None);
    if answer.Answered? && answer.criterionId == c.id && c.evaluatorRef in providers {
      RecordKeepsInv(db, providers, run,
        ResultInput(answer.providerResultId, c.evaluatorRef, c.id, answer.outcome, answer.evidence), VerifiedProvider,
          None);
    }
  }

  /** Every transaction keeps the whole invariant. */
  lemma NextKeepsInv(db: Db, providers: set<string>, op: Op)
    requires Inv(db, providers) && Fresh(db, op)
    ensures Inv(Next(db, providers, op), providers)
  {
    hide Inv, ApplyAll, Claim, Complete, CreateWorkItem, ApplyDecision, RecordResult, EvaluateCriterion;
    match op
    case OpJoin(s, now) => JoinKeepsInv(db, providers, s, now);
    case OpHeartbeat(a, now) => HeartbeatKeepsInv(db, providers, a, now);
    case OpCreate(id, spec, ds) => CreateKeepsInv(db, providers, id, spec, ds);
    case OpClaim(c, now) => ClaimKeepsInv(db, providers, c, now);
    case OpComplete(a, item, run) => CompleteKeepsInv(db, providers, a, item, run);
    case OpApplyDecision(run) => ApplyDecisionKeepsInv(db, providers, run);
    case OpRegisterSpec(id, cs) => RegisterSpecKeepsInv(db, providers, id, cs);
    case OpRequestRun(id, spec, item, target, attempt) => RequestRunKeepsInv(db, providers, id, spec, item, target,
        attempt);
    case OpRecordExternal(run, input, declared) =>
      RecordKeepsInv(db, providers, run, input.(providerId := EXTERNAL_PROVIDER), ExternalUnverified,
                     Some(if declared.Some? then declared.value else input.providerId));
    case OpEvaluate(run, index, answer, ids) => EvaluateKeepsInv(db, providers, run, index, answer, ids);
    case OpStartRun(run) => StartRunKeepsInv(db, providers, run);
    case OpCompleteRun(run) => CompleteRunKeepsInv(db, providers, run);
    case _ => QuietEventsKeepInv(db, providers, WritesOf(db, providers, op));
  }

  lemma {:induction false} RunKeepsInv(db: Db, providers: set<string>, ops: seq<Op>)
    requires Inv(db, providers) && Legal(db, providers, ops)
    ensures Inv(Run(db, providers, ops), providers)
    decreases |ops|
  {
    hide Inv, Next, Fresh;
    if ops != [] {
      NextKeepsInv(db, providers, ops[0]);
      RunKeepsInv(Next(db, providers, ops[0]), providers, ops[1..]);
    }
  }
}
