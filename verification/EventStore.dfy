/** The coordination store: an append-only event log, the projections it feeds, and plain tables. */
module EventStore {
  import opened Contracts

  datatype EventType =
    | ProjectOpened | AgentJoined
    | WorkItemCreated | WorkItemClaimed | WorkItemBlocked | WorkItemUnblocked
    | WorkItemImplementationComplete | WorkItemAwaitingEvaluation
    | WorkItemEvaluationAccepted | WorkItemEvaluationRejected | WorkItemEvaluationReviewRequired
    | WorkItemCompleted
    | IntentDeclared | IntentSuperseded | ScopeDeclared | ScopeReleased | ContextPublished
    | EvaluationSpecRegistered | EvaluationRequested | EvaluationStarted | EvaluationResultRecorded
    | EvaluationCompleted | AcceptanceDecided
    | UnprojectedEvent(name: string)

  datatype Payload =
    | ItemPayload(item: WorkItem)
    | IntentPayload(intent: Intent)
    | ScopePayload(scope: Scope)
    | ArtifactPayload(artifact: ContextArtifact)
    | SessionPayload(session: AgentSession)
    | OtherPayload

  datatype Event = Event(sequence: nat, eventType: EventType, payload: Payload)

  /** The projections that only events write. */
  datatype Views = Views(
    workItems: map<Id, WorkItem>,
    intents: map<Id, Intent>,
    scopes: map<Id, Scope>,
    artifacts: map<Id, ContextArtifact>)

  const NO_VIEWS := Views(map[], map[], map[], map[])

  /** The database. Results are kept twice, as in the source: under the text key that recognises a
      replay, and in the table that evaluation reads. */
  datatype Db = Db(
    log: seq<Event>,
    views: Views,
    projectOpen: bool,
    sessions: map<Id, AgentSession>,
    dependencies: set<WorkDependency>,
    specs: map<Id, EvaluationSpec>,
    runs: map<Id, EvaluationRun>,
    resultRecords: map<(Id, string), StoredResult>,
    results: map<(Id, string, string), StoredResult>,
    decisions: map<Id, DecisionKind>)

  const EMPTY_DB := Db([], NO_VIEWS, false, map[], {}, map[], map[], map[], map[], map[])

  /** What one statement of a transaction writes. */
  datatype Write =
    | Emit(eventType: EventType, payload: Payload)
    | PutSession(session: AgentSession)
    | PutDependency(dependency: WorkDependency)
    | PutSpec(spec: EvaluationSpec)
    | PutRun(run: EvaluationRun)
    | PutResult(result: StoredResult)
    | PutDecision(runId: Id, decision: DecisionKind)

  predicate IsItemEvent(t: EventType) {
    || t.WorkItemCreated? || t.WorkItemClaimed? || t.WorkItemBlocked? || t.WorkItemUnblocked?
    || t.WorkItemImplementationComplete? || t.WorkItemAwaitingEvaluation?
    || t.WorkItemEvaluationAccepted? || t.WorkItemEvaluationRejected? || t.WorkItemEvaluationReviewRequired?
    || t.WorkItemCompleted?
  }

  function ProjectEvent(v: Views, t: EventType, p: Payload): Views {
    if IsItemEvent(t) && p.ItemPayload? then v.(workItems := v.workItems[p.item.id := p.item])
    else if (t.IntentDeclared? || t.IntentSuperseded?) && p.IntentPayload? then
      v.(intents := v.intents[p.intent.id := p.intent])
    else if (t.ScopeDeclared? || t.ScopeReleased?) && p.ScopePayload? then
      v.(scopes := v.scopes[p.scope.id := p.scope])
    else if t.ContextPublished? && p.ArtifactPayload? then
      v.(artifacts := v.artifacts[p.artifact.id := p.artifact])
    else v
  }

  function MaxSequence(log: seq<Event>): nat {
    if log == [] then 0
    else
      var rest := MaxSequence(log[..|log| - 1]);
      if log[|log| - 1].sequence > rest then log[|log| - 1].sequence else rest
  }

  function NextSequence(log: seq<Event>): nat { MaxSequence(log) + 1 }

  function RecordKey(r: StoredResult): (Id, string) {
    (r.runId, r.input.criterionId + ":" + r.input.providerResultId)
  }

  function ApplyWrite(db: Db, w: Write): Db {
    match w
    case Emit(t, p) =>
      db.(log := db.log + [Event(NextSequence(db.log), t, p)],
          views := ProjectEvent(db.views, t, p),
          projectOpen := db.projectOpen || t.ProjectOpened?,
          sessions := if t.AgentJoined? && p.SessionPayload? then db.sessions[p.session.id := p.session]
              else db.sessions)
    case PutSession(s) => db.(sessions := db.sessions[s.id := s])
    case PutDependency(d) => db.(dependencies := db.dependencies + {d})
    case PutSpec(s) => db.(specs := db.specs[s.id := s])
    case PutRun(r) => db.(runs := db.runs[r.id := r])
    case PutResult(r) =>
      db.(resultRecords := db.resultRecords[RecordKey(r) := r],
          results := db.results[(r.runId, r.input.criterionId, r.input.providerResultId) := r])
    case PutDecision(id, d) => db.(decisions := db.decisions[id := d])
  }

  function ApplyAll(db: Db, ws: seq<Write>): Db
    decreases |ws|
  {
    if ws == [] then db else ApplyAll(ApplyWrite(db, ws[0]), ws[1..])
  }

  lemma {:induction false} ApplyAllAppend(db: Db, a: seq<Write>, b: seq<Write>)
    ensures ApplyAll(db, a + b) == ApplyAll(ApplyAll(db, a), b)
    decreases |a|
  {
    if a == [] {
      assert a + b == b;
    } else {
      assert (a + b)[1..] == a[1..] + b;
      ApplyAllAppend(ApplyWrite(db, a[0]), a[1..], b);
    }
  }

  lemma ApplyAllOne(db: Db, w: Write)
    ensures ApplyAll(db, [w]) == ApplyWrite(db, w)
  {
    assert [w][1..] == [];
  }

  lemma ApplyTwo(db: Db, a: Write, b: Write)
    ensures ApplyAll(db, [a, b]) == ApplyWrite(ApplyWrite(db, a), b)
  {
    hide ApplyWrite;
    assert [a, b][1..] == [b];
    ApplyAllOne(ApplyWrite(db, a), b);
  }

  /** Identifiers in the order a listing returns them. */
  function SortedIds(ids: set<Id>): (r: seq<Id>)
    ensures forall x :: x in r <==> x in ids
    ensures forall i, j :: 0 <= i < j < |r| ==> r[i] < r[j]
    decreases |ids|
  {
    if ids == {} then []
    else
      var least := Least(ids);
      [least] + SortedIds(ids - {least})
  }

  function Least(ids: set<Id>): (r: Id)
    requires ids != {}
    ensures r in ids && forall x :: x in ids ==> r <= x
  {
    LeastExists(ids);
    var r :| r in ids && forall x :: x in ids ==> r <= x;
    r
  }

  lemma LeastExists(ids: set<Id>)
    requires ids != {}
    ensures exists r :: r in ids && forall x :: x in ids ==> r <= x
  {
    var y :| y in ids;
    LeastBelow(ids, y);
  }

  lemma {:induction false} LeastBelow(ids: set<Id>, y: Id)
    requires y in ids
    ensures exists r :: r in ids && forall x :: x in ids ==> r <= x
    decreases y
  {
    if z :| z in ids && z < y { LeastBelow(ids, z); }
  }

  /** Transactions over the database: writes happen in place, and a rollback restores the checkpoint. */
  class SqliteCoordinationStore {
    var db: Db
    var inTransaction: bool
    var checkpoint: Db

    constructor ()
      ensures db == EMPTY_DB && !inTransaction
    {
      db := EMPTY_DB;
      inTransaction := false;
      checkpoint := EMPTY_DB;
    }

    method Begin()
      requires !inTransaction
      modifies this
      ensures inTransaction && db == old(db) && checkpoint == old(db)
    {
      inTransaction := true;
      checkpoint := db;
    }

    method Commit()
      requires inTransaction
      modifies this
      ensures !inTransaction && db == old(db)
    {
      inTransaction := false;
    }

    method Rollback()
      requires inTransaction
      modifies this
      ensures !inTransaction && db == old(checkpoint)
    {
      db := checkpoint;
      inTransaction := false;
    }

    method AppendEvent(t: EventType, p: Payload)
      requires inTransaction
      modifies this`db
      ensures db == ApplyWrite(old(db), Emit(t, p))
    {
      var sequence := NextSequence(db.log);
      db := db.(log := db.log + [Event(sequence, t, p)]);
      if t.ProjectOpened? {
        db := db.(projectOpen := true);
      }
      if t.AgentJoined? && p.SessionPayload? {
        db := db.(sessions := db.sessions[p.session.id := p.session]);
      }
      db := db.(views := ProjectEvent(db.views, t, p));
    }

    method Put(w: Write)
      requires inTransaction && !w.Emit?
      modifies this`db
      ensures db == ApplyWrite(old(db), w)
    {
      db := ApplyWrite(db, w);
    }
  }
}
