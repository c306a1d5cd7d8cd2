/** What every transaction makes of every work item, told by the tables it finds. */
module WorkItemLaw {
  import opened Wrappers
  import opened Contracts
  import opened EventStore
  import opened EventLog
  import opened Acceptance
  import opened Protocol
  import opened ProtocolInvariants
  import opened ProtocolTheorems
  import opened FinishedItems
  import opened EvaluationLaw

  // ---------- Conditions ----------

  /** The session exists, was not closed, and was heard of within the last thirty seconds. */
  predicate Live(db: Db, agent: Id, now: int) {
    agent in db.sessions && !db.sessions[agent].expired && now < db.sessions[agent].heartbeatAt + 30_000
  }

  /** The item depends on an item that is not done, other than one that is left out. */
  ghost predicate WaitsFor(db: Db, id: Id, leftOut: Option<Id>) {
    exists d :: d in db.dependencies && d.from == id && d.kind == DependsOn &&
      d.to in db.views.workItems && db.views.workItems[d.to].state != Done && Some(d.to) != leftOut
  }

  ghost predicate Waits(db: Db, id: Id) { WaitsFor(db, id, None) }

  predicate Unheld(item: WorkItem, agent: Id) { item.assignee.None? || item.assignee == Some(agent) }

  predicate AtWork(item: WorkItem, agent: Id) {
    item.assignee == Some(agent) && (item.state == WorkItemState.Claimed || item.state == Active)
  }

  /** The caller knows the item's version, and under a gate it is neither handed in nor decided. */
  predicate Claimable(item: WorkItem, version: nat) {
    && item.version == version
    && (item.evaluationSpecId.Some? ==>
          item.state == Ready || item.state == WorkItemState.Claimed || item.state == Active ||
          item.state == NeedsRetry || item.state == Blocked || item.state == Cancelled)
  }

  /** The grounds on which a claim changes an item: a live session that does not hold it at work already, an item that
      can be claimed, and either something it waits for, of which it does not know yet, or nobody else who holds it,
      unless it may be shared. */
  ghost predicate Takes(db: Db, c: ClaimInput, now: int, item: WorkItem) {
    && Live(db, c.agent, now) && c.workItem == item.id && !AtWork(item, c.agent) && Claimable(item, c.expectedVersion)
    && if Waits(db, item.id) then item.state != Blocked else Unheld(item, c.agent) || c.allowShared
  }

  /** The grounds on which a completion hands an item in for evaluation. */
  predicate HandsIn(item: WorkItem, agent: Id) {
    && item.assignee == Some(agent) && item.evaluationSpecId.Some?
    && (item.state == Ready || item.state == WorkItemState.Claimed || item.state == Active ||
        item.state == NeedsRetry || item.state == Blocked || item.state == Cancelled ||
        item.state == ImplementationComplete)
  }

  /** The run is closed and decided, and the item awaits the verdict under the run's specification. */
  predicate Awaits(db: Db, run: Id, item: WorkItem) {
    && run in db.runs && db.runs[run].state == Completed && run in db.decisions
    && db.runs[run].workItemId == item.id && item.evaluationSpecId == Some(db.runs[run].specId)
    && item.state == AwaitingEvaluation
  }

  // ---------- The law ----------

  ghost function AfterClaim(db: Db, c: ClaimInput, now: int, item: WorkItem): WorkItem {
    if !Takes(db, c, now, item) then item
    else
      var state := if Waits(db, item.id) then Blocked else Active;
      item.(state := state, assignee := Some(c.agent), version := item.version + 1)
  }

  /** A completion finishes the item, which frees those that wait for nothing else; or it hands the item in, with one
      event for each state the item goes through. */
  ghost function AfterComplete(db: Db, agent: Id, id: Id, run: Option<Id>, item: WorkItem): WorkItem {
    if id !in db.views.workItems then item
    else if MayFinish(db.views.workItems[id], agent, run) then
      if item.id == id then item.(state := Done, version := item.version + 1)
      else if item.state == Blocked && !WaitsFor(db, item.id, Some(id)) then
        item.(state := Ready, version := item.version + 1)
      else item
    else if item.id == id && HandsIn(item, agent) then
      var events := if item.state == ImplementationComplete then 1 else 2;
      item.(state := AwaitingEvaluation, version := item.version + events)
    else item
  }

  function AfterDecision(db: Db, run: Id, item: WorkItem): WorkItem {
    if !Awaits(db, run, item) then item
    else if db.decisions[run] == DecisionAccepted then
      item.(state := Accepted, acceptedEvaluationRunId := Some(run), version := item.version + 1)
    else if db.decisions[run] == DecisionRejected then item.(state := NeedsRetry, version := item.version + 1)
    else item.(state := ReviewRequired, version := item.version + 1)
  }

  ghost function ItemAfter(db: Db, op: Op, item: WorkItem): WorkItem {
    match op
    case OpClaim(c, now) => AfterClaim(db, c, now, item)
    case OpComplete(agent, id, run) => AfterComplete(db, agent, id, run, item)
    case OpApplyDecision(run) => AfterDecision(db, run, item)
    case _ => item
  }

  /** A creation succeeds: the project is open, the specification exists, and every dependency leads from the new item
      to an existing one. */
  predicate Creates(db: Db, op: Op) {
    && op.OpCreate? && db.projectOpen && (op.spec.Some? ==> op.spec.value in db.specs)
    && forall k :: 0 <= k < |op.dependencies| ==>
         (op.dependencies[k].from.None? || op.dependencies[k].from == Some(op.id)) &&
         op.dependencies[k].to in db.views.workItems
  }

  ghost predicate ItemsFollow(db: Db, op: Op, after: map<Id, WorkItem>) {
    && (forall id :: id in db.views.workItems ==> id in after && after[id] == ItemAfter(db, op, db.views.workItems[id]))
    && (forall id :: id in after && id !in db.views.workItems <==> Creates(db, op) && id == op.id)
    && (Creates(db, op) ==> op.id in after && after[op.id] == WorkItem(op.id, op.spec, Ready, None, None, 0))
  }

  lemma BlockersMean(db: Db, id: Id)
    ensures Blockers(id, db.dependencies, db.views.workItems) != {} <==> Waits(db, id)
  {
    var blockers := Blockers(id, db.dependencies, db.views.workItems);
    if blockers != {} {
      var x :| x in blockers;
    }
    if Waits(db, id) {
      var d :| d in db.dependencies && d.from == id && d.kind == DependsOn &&
        d.to in db.views.workItems && db.views.workItems[d.to].state != Done;
      assert d.to in blockers;
    }
  }

  // ---------- Claims ----------

  lemma ClaimTakes(db: Db, c: ClaimInput, now: int)
    requires LogInv(db)
    ensures var ws := Claim(db, c, now).writes;
            if c.workItem in db.views.workItems && Takes(db, c, now, db.views.workItems[c.workItem])
            then
              && |ws| == 1 && ws == [ws[0]] && ws[0].Emit?
              && ws[0].eventType == (if Waits(db, c.workItem) then WorkItemBlocked else WorkItemClaimed)
              && ws[0].payload == ItemPayload(AfterClaim(db, c, now, db.views.workItems[c.workItem]))
            else ws == []
  {
    if c.workItem in db.views.workItems {
      ItemAt(db, c.workItem);
      BlockersMean(db, c.workItem);
    }
    hide LogInv, Blockers, WaitsFor;
  }

  lemma ClaimFollows(db: Db, c: ClaimInput, now: int)
    requires LogInv(db)
    ensures ItemsFollow(db, OpClaim(c, now), ApplyAll(db, Claim(db, c, now).writes).views.workItems)
  {
    hide LogInv, ApplyAll, Claim, Waits, Live;
    KeysAreIds(db);
    ClaimTakes(db, c, now);
    var ws := Claim(db, c, now).writes;
    if ws == [] { ApplyNone(db); } else { OneItemEffect(db, ws[0].eventType, ws[0].payload.item); }
  }

  // ---------- Completions ----------

  lemma FinishFollows(db: Db, agent: Id, id: Id, run: Option<Id>)
    requires LogInv(db) && id in db.views.workItems && MayFinish(db.views.workItems[id], agent, run)
    ensures ItemsFollow(db, OpComplete(agent, id, run),
            ApplyAll(db, Complete(db, agent, id, run).writes).views.workItems)
  {
    hide LogInv, ApplyAll, Complete, CompletionWrites, MayFinish;
    KeysAreIds(db);
    var item := db.views.workItems[id];
    CompleteForm(db, agent, id, run);
    CompletionEffect(db, item, agent);
    hide AfterCompletion, WaitsFor;
    forall x | x in db.views.workItems
      ensures x in AfterCompletion(db, item) &&
              AfterCompletion(db, item)[x] == AfterComplete(db, agent, id, run, db.views.workItems[x])
    {
      FinishedOne(db, item, x);
    }
    assert AfterCompletion(db, item).Keys == db.views.workItems.Keys by { AfterKeepsDone(db, item); }
  }

  lemma FinishedOne(db: Db, item: WorkItem, x: Id)
    requires item.id in db.views.workItems && db.views.workItems[item.id] == item && x in db.views.workItems
    requires forall x :: x in db.views.workItems ==> db.views.workItems[x].id == x
    ensures var after := AfterCompletion(db, item);
            && x in after
            && after[x] == if x == item.id then Bump(item, Done)
                           else if db.views.workItems[x].state == Blocked && !WaitsFor(db, x, Some(item.id))
                           then Bump(db.views.workItems[x], Ready)
                           else db.views.workItems[x]
  {
    var items := db.views.workItems[item.id := Bump(item, Done)];
    var blockers := Blockers(x, db.dependencies, items);
    if blockers != {} {
      var y :| y in blockers;
    }
    if WaitsFor(db, x, Some(item.id)) {
      var d :| d in db.dependencies && d.from == x && d.kind == DependsOn &&
        d.to in db.views.workItems && db.views.workItems[d.to].state != Done && Some(d.to) != Some(item.id);
      assert d.to in blockers;
    }
    hide Blockers, WaitsFor;
  }

  lemma HandInFollows(db: Db, agent: Id, id: Id, run: Option<Id>)
    requires LogInv(db) && id in db.views.workItems && !MayFinish(db.views.workItems[id], agent, run)
    ensures ItemsFollow(db, OpComplete(agent, id, run),
            ApplyAll(db, Complete(db, agent, id, run).writes).views.workItems)
  {
    hide LogInv, ApplyAll, MayFinish, Complete, WaitsFor;
    KeysAreIds(db);
    HandInWrites(db, agent, id, run);
    HandInLaw(db, agent, id, run);
    hide HandsIn, AfterComplete;
    var item, ws := db.views.workItems[id], Complete(db, agent, id, run).writes;
    if ws == [] {
      ApplyNone(db);
    } else if |ws| == 1 {
      OneItemEffect(db, WorkItemAwaitingEvaluation, Bump(item, AwaitingEvaluation));
    } else {
      var complete := Bump(item, ImplementationComplete);
      var first, second := Emit(WorkItemImplementationComplete, ItemPayload(complete)),
          Emit(WorkItemAwaitingEvaluation, ItemPayload(Bump(complete, AwaitingEvaluation)));
      assert [first, second] == [first] + [second];
      ApplyAllAppend(db, [first], [second]);
      OneItemEffect(db, WorkItemImplementationComplete, complete);
      OneItemEffect(ApplyAll(db, [first]), WorkItemAwaitingEvaluation, Bump(complete, AwaitingEvaluation));
    }
  }

  lemma HandInLaw(db: Db, agent: Id, id: Id, run: Option<Id>)
    requires id in db.views.workItems && !MayFinish(db.views.workItems[id], agent, run)
    requires forall x :: x in db.views.workItems ==> db.views.workItems[x].id == x
    ensures forall x :: x in db.views.workItems ==>
              var item := db.views.workItems[x];
              AfterComplete(db, agent, id, run, item) ==
              if x != id || !HandsIn(item, agent) then item
              else if item.state == ImplementationComplete then Bump(item, AwaitingEvaluation)
              else Bump(Bump(item, ImplementationComplete), AwaitingEvaluation)
  {
    hide MayFinish, WaitsFor;
  }

  lemma HandInWrites(db: Db, agent: Id, id: Id, run: Option<Id>)
    requires id in db.views.workItems && !MayFinish(db.views.workItems[id], agent, run)
    ensures var item, ws := db.views.workItems[id], Complete(db, agent, id, run).writes;
            var complete := Bump(item, ImplementationComplete);
            ws == if !HandsIn(item, agent) then []
                  else if item.state == ImplementationComplete
                  then [Emit(WorkItemAwaitingEvaluation, ItemPayload(Bump(item, AwaitingEvaluation)))]
                  else [Emit(WorkItemImplementationComplete, ItemPayload(complete)),
                        Emit(WorkItemAwaitingEvaluation, ItemPayload(Bump(complete, AwaitingEvaluation)))]
  {
    hide CompletionWrites;
  }

  // ---------- Decisions ----------

  lemma DecisionWrites(db: Db, run: Id)
    requires ReferenceInv(db) && forall x :: x in db.views.workItems ==> db.views.workItems[x].id == x
    ensures var ws := ApplyDecision(db, run).writes;
            if run in db.runs && db.runs[run].workItemId in db.views.workItems &&
               Awaits(db, run, db.views.workItems[db.runs[run].workItemId])
            then
              && |ws| == 1 && ws == [ws[0]] && ws[0].Emit? && ws[0].eventType == VerdictEvent(db.decisions[run])
              && ws[0].payload == ItemPayload(AfterDecision(db, run, db.views.workItems[db.runs[run].workItemId]))
            else ws == []
  {
  }

  /** The event that goes with a verdict. */
  function VerdictEvent(d: DecisionKind): EventType {
    if d == DecisionAccepted then WorkItemEvaluationAccepted
    else if d == DecisionRejected then WorkItemEvaluationRejected
    else WorkItemEvaluationReviewRequired
  }

  lemma DecisionFollows(db: Db, run: Id)
    requires LogInv(db) && ReferenceInv(db)
    ensures ItemsFollow(db, OpApplyDecision(run), ApplyAll(db, ApplyDecision(db, run).writes).views.workItems)
  {
    hide LogInv, ApplyAll, ApplyDecision, ReferenceInv;
    KeysAreIds(db);
    DecisionWrites(db, run);
    var ws := ApplyDecision(db, run).writes;
    if ws == [] { ApplyNone(db); } else { OneItemEffect(db, ws[0].eventType, ws[0].payload.item); }
  }

  // ---------- Creations ----------

  lemma {:induction false} DependencyProblemMeans(items: map<Id, WorkItem>, id: Id, ds: seq<DependencyInput>)
    ensures DependencyProblem(items, id, ds).None? <==>
            forall k :: 0 <= k < |ds| ==> (ds[k].from.None? || ds[k].from == Some(id)) && ds[k].to in items
  {
    if ds != [] {
      DependencyProblemMeans(items, id, ds[1..]);
      assert forall k :: 0 < k < |ds| ==> ds[k] == ds[1..][k - 1];
      assert forall k :: 0 <= k < |ds| - 1 ==> ds[1..][k] == ds[k + 1];
    }
  }

  lemma CreationFollows(db: Db, providers: set<string>, op: Op)
    requires op.OpCreate? && Fresh(db, op)
    ensures ItemsFollow(db, op, Next(db, providers, op).views.workItems)
    ensures Next(db, providers, op).dependencies ==
            db.dependencies + if Creates(db, op) then Requested(op.id, op.dependencies) else {}
  {
    var item := WorkItem(op.id, op.spec, Ready, None, None, 0);
    DependencyProblemMeans(db.views.workItems[op.id := item], op.id, op.dependencies);
    hide DependencyProblem, ApplyAll, Requested;
    if Creates(db, op) {
      CreationResult(db, providers, op.id, op.spec, op.dependencies);
    } else {
      ApplyNone(db);
    }
  }

  /** Every transaction makes of every item what the law says, and only a creation adds one. */
  lemma ItemsFollowTheLaw(db: Db, providers: set<string>, op: Op)
    requires Inv(db, providers) && Fresh(db, op)
    ensures ItemsFollow(db, op, Next(db, providers, op).views.workItems)
  {
    InvParts(db, providers);
    hide ApplyAll, Claim, Complete, CreateWorkItem, ApplyDecision, RecordResult, EvaluateCriterion, LogInv, ItemsFollow;
    hide ReferenceInv, MayFinish;
    match op
    case OpClaim(c, now) => ClaimFollows(db, c, now);
    case OpComplete(agent, id, run) =>
      if id !in db.views.workItems {
        NoSuchItem(db, agent, id, run);
        ApplyNone(db);
        Unchanged(db, op);
      } else if MayFinish(db.views.workItems[id], agent, run) {
        FinishFollows(db, agent, id, run);
      } else {
        HandInFollows(db, agent, id, run);
      }
    case OpApplyDecision(run) => DecisionFollows(db, run);
    case OpCreate(id, spec, ds) => CreationFollows(db, providers, op);
    case _ =>
      OtherOpsQuiet(db, providers, op);
      QuietKeepsItems(db, WritesOf(db, providers, op));
      Unchanged(db, op);
  }

  lemma Unchanged(db: Db, op: Op)
    requires !op.OpCreate? && !op.OpClaim? && !op.OpApplyDecision? &&
             (op.OpComplete? ==> op.item !in db.views.workItems)
    ensures ItemsFollow(db, op, db.views.workItems)
  {
  }

  // ---------- What callers are told ----------

  /** A claim succeeds exactly when the session holds the item at work already, or takes it and nothing blocks it; it is
      told the item as it is then. A claim that finds blockers fails, and names them all. */
  lemma ClaimAnswers(db: Db, c: ClaimInput, now: int)
    requires LogInv(db)
    ensures var reply := Claim(db, c, now).reply;
            if !Live(db, c.agent, now) then
              reply == Failure(if c.agent in db.sessions then SessionExpiredError else SessionNotFound)
            else if c.workItem !in db.views.workItems then reply == Failure(WorkItemNotFound)
            else
              var item := db.views.workItems[c.workItem];
              if AtWork(item, c.agent) then reply == Success(item)
              else if Claimable(item, c.expectedVersion) && Waits(db, c.workItem) then
                && reply.Failure? && reply.error.WorkItemBlockedBy?
                && forall b :: b in reply.error.blockers <==> BlockedBy(db, c.workItem, b)
              else if Takes(db, c, now, item) then reply == Success(AfterClaim(db, c, now, item))
              else reply == Failure(WorkItemConflict)
  {
    if c.workItem in db.views.workItems {
      ItemAt(db, c.workItem);
      BlockersMean(db, c.workItem);
    }
    hide LogInv, WaitsFor;
  }

  ghost predicate BlockedBy(db: Db, id: Id, b: Id) {
    b in db.views.workItems && db.views.workItems[b].state != Done &&
        WorkDependency(id, b, DependsOn) in db.dependencies
  }

  // ---------- Who holds an item ----------

  /** An item changes hands exactly when a session takes it that did not hold it: one that finds it blocked, or one that
      may share it, or one that finds it with nobody. */
  lemma HandsChangeExactly(db: Db, providers: set<string>, op: Op, id: Id)
    requires Inv(db, providers) && Fresh(db, op) && id in db.views.workItems
    ensures var item, after := db.views.workItems[id], Next(db, providers, op).views.workItems;
            && id in after
            && (after[id].assignee != item.assignee <==>
                  op.OpClaim? && Takes(db, op.claim, op.now, item) && item.assignee != Some(op.claim.agent))
            && (after[id].assignee != item.assignee ==>
                  Waits(db, id) || item.assignee.None? || op.claim.allowShared)
  {
    ItemsFollowTheLaw(db, providers, op);
    InvParts(db, providers);
    hide Inv, Next, Fresh, LogInv, TablesInv, DependencyInv, BlockedInv, WaitsFor, Creates;
  }

  /** Nobody asks to share the item, and it never waits for anything. */
  ghost predicate Undisturbed(db: Db, providers: set<string>, ops: seq<Op>, id: Id)
    decreases |ops|
  {
    ops == [] ||
    (!Waits(db, id) && !(ops[0].OpClaim? && ops[0].claim.workItem == id && ops[0].claim.allowShared) &&
     Undisturbed(Next(db, providers, ops[0]), providers, ops[1..], id))
  }

  /** Over any run: an item that a session holds stays with it while nothing blocks it and nobody asks to share it. */
  lemma {:induction false} HolderKeepsItem(db: Db, providers: set<string>, ops: seq<Op>, id: Id)
    requires Inv(db, providers) && Legal(db, providers, ops) && Undisturbed(db, providers, ops, id)
    requires id in db.views.workItems && db.views.workItems[id].assignee.Some?
    ensures var after := Run(db, providers, ops).views.workItems;
            id in after && after[id].assignee == db.views.workItems[id].assignee
    decreases |ops|
  {
    hide Inv, Next, Fresh, Waits;
    if ops != [] {
      HandsChangeExactly(db, providers, ops[0], id);
      ItemKeepsId(db, providers, id);
      NextKeepsInv(db, providers, ops[0]);
      HolderKeepsItem(Next(db, providers, ops[0]), providers, ops[1..], id);
    }
  }

  lemma ItemKeepsId(db: Db, providers: set<string>, id: Id)
    requires Inv(db, providers) && id in db.views.workItems
    ensures db.views.workItems[id].id == id
  {
    InvParts(db, providers);
  }

  // ---------- Verdicts ----------

  /** A decided run of an item that awaits it: the item goes where the decision sends it, and the event that says so is
      the last of the log. */
  lemma VerdictIsCarriedOut(db: Db, providers: set<string>, run: Id, id: Id)
    requires Inv(db, providers) && id in db.views.workItems && Awaits(db, run, db.views.workItems[id])
    ensures var item, next := db.views.workItems[id], Next(db, providers, OpApplyDecision(run));
            && id in next.views.workItems
            && var after := next.views.workItems[id];
               && (after.state == Accepted <==> db.decisions[run] == DecisionAccepted)
               && (after.state == NeedsRetry <==> db.decisions[run] == DecisionRejected)
               && (after.state == ReviewRequired <==>
                     db.decisions[run] != DecisionAccepted && db.decisions[run] != DecisionRejected)
               && after == item.(state := after.state, version := item.version + 1,
                                 acceptedEvaluationRunId := if after.state == Accepted then Some(run)
                                                            else item.acceptedEvaluationRunId)
               && next.log == db.log + [Event(|db.log| + 1, VerdictEvent(db.decisions[run]), ItemPayload(after))]
  {
    InvParts(db, providers);
    hide Inv, LogInv, TablesInv, DependencyInv, BlockedInv, GenuineInv, RunInv, GateInv;
    DecisionWrites(db, run);
    NextDecision(db, providers, run);
    hide ReferenceInv, ApplyDecision, ApplyAll, VerdictEvent, Next;
    VerdictLogged(db, ApplyDecision(db, run).writes, AfterDecision(db, run, db.views.workItems[id]), db.decisions[run]);
  }

  lemma NextDecision(db: Db, providers: set<string>, run: Id)
    ensures Next(db, providers, OpApplyDecision(run)) == ApplyAll(db, ApplyDecision(db, run).writes)
  {
  }

  lemma VerdictLogged(db: Db, ws: seq<Write>, item: WorkItem, d: DecisionKind)
    requires LogInv(db) && |ws| == 1 && ws == [Emit(VerdictEvent(d), ItemPayload(item))]
    ensures var next := ApplyAll(db, ws);
            && next.log == db.log + [Event(|db.log| + 1, VerdictEvent(d), ItemPayload(item))]
            && next.views.workItems == db.views.workItems[item.id := item]
  {
    assert Dense(db.log);
    hide LogInv;
    MaxSequenceDense(db.log);
    ApplyAllOne(db, ws[0]);
  }

  /** The run whose verdict an item carries: a closed run of the item and its specification. */
  ghost predicate VerdictOn(db: Db, run: Id, item: WorkItem, d: DecisionKind) {
    && run in db.runs && db.runs[run].state == Completed && run in db.decisions && db.decisions[run] == d
    && db.runs[run].workItemId == item.id && item.evaluationSpecId == Some(db.runs[run].specId)
  }

  /** Whoever must retry was rejected, whoever must be reviewed was left undecided. */
  ghost predicate VerdictInv(db: Db) {
    forall id :: id in db.views.workItems ==>
      && (db.views.workItems[id].state == NeedsRetry ==>
            exists run :: VerdictOn(db, run, db.views.workItems[id], DecisionRejected))
      && (db.views.workItems[id].state == ReviewRequired ==>
            exists run :: VerdictOn(db, run, db.views.workItems[id], DecisionInconclusive))
  }

  lemma VerdictStays(db: Db, providers: set<string>, op: Op, next: Db, run: Id, item: WorkItem, d: DecisionKind)
    requires TablesFollow(db, providers, op, next) && Fresh(db, op) && VerdictOn(db, run, item, d)
    ensures VerdictOn(next, run, item, d)
  {
    SpecificationsStay(db, providers, op, next);
    hide TablesFollow, Fresh;
  }

  lemma ChangedByVerdict(db: Db, op: Op, item: WorkItem)
    ensures var after := ItemAfter(db, op, item);
            && (after.state == NeedsRetry && item.state != NeedsRetry ==>
                  op.OpApplyDecision? && Awaits(db, op.run, item) && db.decisions[op.run] == DecisionRejected)
            && (after.state == ReviewRequired && item.state != ReviewRequired ==>
                  op.OpApplyDecision? && Awaits(db, op.run, item) && db.decisions[op.run] != DecisionRejected &&
                  db.decisions[op.run] != DecisionAccepted)
            && ((after.state == NeedsRetry || after.state == ReviewRequired) && item.state == after.state ==>
               after == item)
            && after.id == item.id && after.evaluationSpecId == item.evaluationSpecId
  {
    hide Takes, Waits, WaitsFor, MayFinish, HandsIn;
  }

  lemma UndecidedIsInconclusive(db: Db, run: Id)
    requires RunInv(db) && run in db.runs && db.runs[run].state == Completed && run in db.decisions
    ensures db.decisions[run] == DecisionAccepted || db.decisions[run] == DecisionRejected ||
            db.decisions[run] == DecisionInconclusive
  {
    hide WithStanding;
  }

  lemma ItemKeepsVerdict(db: Db, providers: set<string>, op: Op, next: Db, id: Id)
    requires TablesFollow(db, providers, op, next) && Fresh(db, op) && VerdictInv(db) && RunInv(db)
    requires id in db.views.workItems && id in next.views.workItems
    requires next.views.workItems[id] == ItemAfter(db, op, db.views.workItems[id])
    ensures var item := next.views.workItems[id];
            && (item.state == NeedsRetry ==> exists run :: VerdictOn(next, run, item, DecisionRejected))
            && (item.state == ReviewRequired ==> exists run :: VerdictOn(next, run, item, DecisionInconclusive))
  {
    var item, after := db.views.workItems[id], next.views.workItems[id];
    ChangedByVerdict(db, op, item);
    hide ItemAfter, TablesFollow, Fresh, RunInv;
    if after.state == NeedsRetry {
      var run := if item.state == NeedsRetry then RunBehind(db, item, DecisionRejected) else op.run;
      VerdictStays(db, providers, op, next, run, item, DecisionRejected);
      assert VerdictOn(next, run, after, DecisionRejected);
    } else if after.state == ReviewRequired {
      if item.state != ReviewRequired { UndecidedIsInconclusive(db, op.run); }
      var run := if item.state == ReviewRequired then RunBehind(db, item, DecisionInconclusive) else op.run;
      VerdictStays(db, providers, op, next, run, item, DecisionInconclusive);
      assert VerdictOn(next, run, after, DecisionInconclusive);
    }
  }

  ghost function RunBehind(db: Db, item: WorkItem, d: DecisionKind): (run: Id)
    requires exists run :: VerdictOn(db, run, item, d)
    ensures VerdictOn(db, run, item, d)
  {
    var run :| VerdictOn(db, run, item, d);
    run
  }

  lemma NextKeepsVerdicts(db: Db, providers: set<string>, op: Op)
    requires Inv(db, providers) && Fresh(db, op) && VerdictInv(db)
    ensures VerdictInv(Next(db, providers, op))
  {
    var next := Next(db, providers, op);
    TablesFollowTheLaw(db, providers, op);
    ItemsFollowTheLaw(db, providers, op);
    assert RunInv(db);
    hide Inv, Next, Fresh, TablesFollow, ItemAfter, RunInv, VerdictOn, Creates;
    forall id | id in next.views.workItems
      ensures var item := next.views.workItems[id];
              && (item.state == NeedsRetry ==> exists run :: VerdictOn(next, run, item, DecisionRejected))
              && (item.state == ReviewRequired ==> exists run :: VerdictOn(next, run, item, DecisionInconclusive))
    {
      if id in db.views.workItems { ItemKeepsVerdict(db, providers, op, next, id); }
    }
  }

  lemma {:induction false} RunKeepsVerdicts(db: Db, providers: set<string>, ops: seq<Op>)
    requires Inv(db, providers) && Legal(db, providers, ops) && VerdictInv(db)
    ensures VerdictInv(Run(db, providers, ops))
    decreases |ops|
  {
    hide Inv, Next, Fresh, VerdictInv;
    if ops != [] {
      NextKeepsVerdicts(db, providers, ops[0]);
      NextKeepsInv(db, providers, ops[0]);
      RunKeepsVerdicts(Next(db, providers, ops[0]), providers, ops[1..]);
    }
  }

  lemma EmptyVerdicts()
    ensures VerdictInv(EMPTY_DB)
  {
  }

  /** In every reachable database: an item that must retry has a closed run of itself and its specification in which a
      verified result of a required criterion failed; an item under review has one that neither failed nor satisfied. */
  lemma VerdictsHaveReasons(db: Db, providers: set<string>, id: Id) returns (run: Id)
    requires Reachable(db, providers)
    requires id in db.views.workItems
    requires db.views.workItems[id].state == NeedsRetry || db.views.workItems[id].state == ReviewRequired
    ensures run in db.runs && db.runs[run].state == Completed && db.runs[run].workItemId == id
    ensures db.views.workItems[id].evaluationSpecId == Some(db.runs[run].specId) && db.runs[run].specId in db.specs
    ensures var spec, results := db.specs[db.runs[run].specId], ResultsOf(db.results, run);
            if db.views.workItems[id].state == NeedsRetry then Refuted(spec, results)
            else !Refuted(spec, results) && !Satisfied(spec, db.runs[run].repositoryStateRef, results)
  {
    ReachableInv(db, providers);
    ReachableVerdicts(db, providers);
    InvParts(db, providers);
    var item := db.views.workItems[id];
    run := RunBehind(db, item, if item.state == NeedsRetry then DecisionRejected else DecisionInconclusive);
    assert RunInv(db);
    var r := db.runs[run];
    assert db.decisions[run] == Decide(db.specs[r.specId], r.repositoryStateRef, ResultsOf(db.results, run));
    DecisionMeaning(db.specs[r.specId], r.repositoryStateRef, ResultsOf(db.results, run));
    hide Inv, RunInv, Decide, Refuted, Satisfied;
  }

  lemma ReachableVerdicts(db: Db, providers: set<string>)
    requires Reachable(db, providers)
    ensures VerdictInv(db)
  {
    hide Inv, Legal, Run, VerdictInv;
    var ops :| Legal(EMPTY_DB, providers, ops) && db == Run(EMPTY_DB, providers, ops);
    EmptyInv(providers);
    EmptyVerdicts();
    RunKeepsVerdicts(EMPTY_DB, providers, ops);
  }
}
