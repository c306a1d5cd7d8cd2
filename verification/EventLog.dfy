/** What the event log guarantees: dense sequences, replayable projections, item versions that count events. */
module EventLog {
  import opened Wrappers
  import opened Contracts
  import opened EventStore

  /** The projections rebuilt from nothing but the log. */
  function Replay(log: seq<Event>): Views {
    if log == [] then NO_VIEWS
    else
      var e := log[|log| - 1];
      ProjectEvent(Replay(log[..|log| - 1]), e.eventType, e.payload)
  }

  predicate IsItemRecord(e: Event, id: Id) {
    IsItemEvent(e.eventType) && e.payload.ItemPayload? && e.payload.item.id == id
  }

  /** Every state a work item went through, in order. */
  function History(log: seq<Event>, id: Id): seq<WorkItem> {
    if log == [] then []
    else
      var e := log[|log| - 1];
      History(log[..|log| - 1], id) + if IsItemRecord(e, id) then [e.payload.item] else []
  }

  /** Position of the first event of a work item; the length of the log when there is none. */
  function CreatedAt(log: seq<Event>, id: Id): (n: nat)
    ensures n <= |log|
    ensures n < |log| ==> IsItemRecord(log[n], id)
    ensures forall i :: 0 <= i < n ==> !IsItemRecord(log[i], id)
  {
    if log == [] then 0
    else
      var last := |log| - 1;
      var n := CreatedAt(log[..last], id);
      if n < last then n else if IsItemRecord(log[last], id) then last else last + 1
  }

  predicate Dense(log: seq<Event>) {
    forall i :: 0 <= i < |log| ==> log[i].sequence == i + 1
  }

  /** The k-th event of an item carries version k, and the projection holds the last one. */
  ghost predicate Versioned(db: Db, id: Id) {
    var h := History(db.log, id);
    && (forall k :: 0 <= k < |h| ==> h[k].version == k && h[k].id == id)
    && (id in db.views.workItems <==> h != [])
    && (h != [] ==> db.views.workItems[id] == h[|h| - 1])
    && (id in db.views.workItems <==> CreatedAt(db.log, id) < |db.log|)
  }

  ghost predicate LogInv(db: Db) {
    && Dense(db.log)
    && db.views == Replay(db.log)
    && (forall id :: Versioned(db, id))
  }

  /** The versions a transaction may write: 0 for a new item, the next number for an old one. */
  predicate WriteOk(db: Db, w: Write) {
    w.Emit? && IsItemEvent(w.eventType) ==>
      && w.payload.ItemPayload?
      && var item := w.payload.item;
         if item.id in db.views.workItems
         then item.version == db.views.workItems[item.id].version + 1
         else w.eventType == WorkItemCreated && item.version == 0
  }

  predicate AllOk(db: Db, ws: seq<Write>)
    decreases |ws|
  {
    ws == [] || (WriteOk(db, ws[0]) && AllOk(ApplyWrite(db, ws[0]), ws[1..]))
  }

  lemma {:induction false} MaxSequenceDense(log: seq<Event>)
    requires Dense(log)
    ensures MaxSequence(log) == |log|
  {
    if log != [] { MaxSequenceDense(log[..|log| - 1]); }
  }

  lemma LogAppend(log: seq<Event>, e: Event, id: Id)
    ensures History(log + [e], id) == History(log, id) + (if IsItemRecord(e, id) then [e.payload.item] else [])
    ensures CreatedAt(log + [e], id) ==
            if CreatedAt(log, id) < |log| then CreatedAt(log, id)
            else if IsItemRecord(e, id) then |log| else |log| + 1
    ensures Replay(log + [e]) == ProjectEvent(Replay(log), e.eventType, e.payload)
  {
    assert (log + [e])[..|log|] == log;
  }

  lemma ProjectItem(v: Views, e: Event, id: Id)
    ensures var next := ProjectEvent(v, e.eventType, e.payload);
            && (IsItemRecord(e, id) ==> id in next.workItems && next.workItems[id] == e.payload.item)
            && (!IsItemRecord(e, id) ==> (id in next.workItems <==> id in v.workItems))
            && (!IsItemRecord(e, id) && id in v.workItems ==> next.workItems[id] == v.workItems[id])
  {
  }

  lemma EmitKeepsVersions(db: Db, t: EventType, p: Payload, id: Id)
    requires Versioned(db, id) && WriteOk(db, Emit(t, p))
    ensures Versioned(ApplyWrite(db, Emit(t, p)), id)
  {
    var e := Event(NextSequence(db.log), t, p);
    LogAppend(db.log, e, id);
    ProjectItem(db.views, e, id);
    hide History, CreatedAt, ProjectEvent, NextSequence, MaxSequence;
  }

  lemma WriteKeepsLog(db: Db, w: Write)
    requires LogInv(db) && WriteOk(db, w)
    ensures LogInv(ApplyWrite(db, w))
  {
    var next := ApplyWrite(db, w);
    hide History, CreatedAt, MaxSequence, WriteOk;
    if w.Emit? {
      MaxSequenceDense(db.log);
      LogAppend(db.log, Event(NextSequence(db.log), w.eventType, w.payload), 0);
      forall id ensures Versioned(next, id) { EmitKeepsVersions(db, w.eventType, w.payload, id); }
    } else {
      forall id ensures Versioned(next, id) { assert Versioned(db, id); }
    }
  }

  lemma {:induction false} ApplyAllKeepsLog(db: Db, ws: seq<Write>)
    requires LogInv(db) && AllOk(db, ws)
    ensures LogInv(ApplyAll(db, ws))
    decreases |ws|
  {
    hide LogInv, WriteOk, ApplyWrite;
    if ws != [] {
      WriteKeepsLog(db, ws[0]);
      ApplyAllKeepsLog(ApplyWrite(db, ws[0]), ws[1..]);
    }
  }

  lemma {:induction false} AllOkAppend(db: Db, a: seq<Write>, b: seq<Write>)
    requires AllOk(db, a) && AllOk(ApplyAll(db, a), b)
    ensures AllOk(db, a + b)
    decreases |a|
  {
    hide WriteOk, ApplyWrite;
    if a == [] {
      assert a + b == b;
    } else {
      assert (a + b)[1..] == a[1..] + b;
      AllOkAppend(ApplyWrite(db, a[0]), a[1..], b);
    }
  }

  // ---------- Consequences for the work items ----------

  /** Nothing is forgotten: items stay, and a changed item carries a higher version. */
  predicate ItemsGrow(before: map<Id, WorkItem>, after: map<Id, WorkItem>) {
    forall id :: id in before ==>
      id in after && (after[id] == before[id] || after[id].version > before[id].version)
  }

  lemma WriteGrows(db: Db, w: Write)
    requires WriteOk(db, w)
    ensures ItemsGrow(db.views.workItems, ApplyWrite(db, w).views.workItems)
  {
  }

  lemma {:induction false} AllOkGrows(db: Db, ws: seq<Write>)
    requires AllOk(db, ws)
    ensures ItemsGrow(db.views.workItems, ApplyAll(db, ws).views.workItems)
    decreases |ws|
  {
    hide WriteOk, ApplyWrite;
    if ws != [] {
      WriteGrows(db, ws[0]);
      AllOkGrows(ApplyWrite(db, ws[0]), ws[1..]);
    }
  }

  lemma CreatedAtStep(db: Db, w: Write, id: Id)
    requires CreatedAt(db.log, id) < |db.log|
    ensures CreatedAt(ApplyWrite(db, w).log, id) == CreatedAt(db.log, id)
    ensures |db.log| <= |ApplyWrite(db, w).log|
  {
    hide CreatedAt, ProjectEvent;
    if w.Emit? { LogAppend(db.log, Event(NextSequence(db.log), w.eventType, w.payload), id); }
  }

  /** Positions in the log never change. */
  lemma {:induction false} CreatedAtStable(db: Db, ws: seq<Write>, id: Id)
    requires CreatedAt(db.log, id) < |db.log|
    ensures CreatedAt(ApplyAll(db, ws).log, id) == CreatedAt(db.log, id)
    ensures |db.log| <= |ApplyAll(db, ws).log|
    decreases |ws|
  {
    hide CreatedAt, ApplyWrite;
    if ws != [] {
      CreatedAtStep(db, ws[0], id);
      CreatedAtStable(ApplyWrite(db, ws[0]), ws[1..], id);
    }
  }

  // ---------- The projections are the last word of the log ----------

  datatype Kind = WorkItemKind | IntentKind | ScopeKind | ArtifactKind

  /** The projection record an event writes, if any. */
  function RecordOf(e: Event): Option<(Kind, Id)> {
    var (t, p) := (e.eventType, e.payload);
    if IsItemEvent(t) && p.ItemPayload? then Some((WorkItemKind, p.item.id))
    else if (t.IntentDeclared? || t.IntentSuperseded?) && p.IntentPayload? then Some((IntentKind, p.intent.id))
    else if (t.ScopeDeclared? || t.ScopeReleased?) && p.ScopePayload? then Some((ScopeKind, p.scope.id))
    else if t.ContextPublished? && p.ArtifactPayload? then Some((ArtifactKind, p.artifact.id))
    else None
  }

  function Stored(v: Views, kind: Kind, id: Id): Option<Payload> {
    match kind
    case WorkItemKind => if id in v.workItems then Some(ItemPayload(v.workItems[id])) else None
    case IntentKind => if id in v.intents then Some(IntentPayload(v.intents[id])) else None
    case ScopeKind => if id in v.scopes then Some(ScopePayload(v.scopes[id])) else None
    case ArtifactKind => if id in v.artifacts then Some(ArtifactPayload(v.artifacts[id])) else None
  }

  /** The payload of an event that no later event of the same record overwrites. */
  ghost predicate LastWrite(log: seq<Event>, i: int, kind: Kind, id: Id) {
    && 0 <= i < |log|
    && RecordOf(log[i]) == Some((kind, id))
    && forall j :: i < j < |log| ==> RecordOf(log[j]) != Some((kind, id))
  }

  /** Replaying the log leaves, for every record, exactly what its last event wrote. */
  lemma {:induction false} ReplayIsLastWriter(log: seq<Event>, kind: Kind, id: Id)
    ensures Stored(Replay(log), kind, id).None? <==> forall j :: 0 <= j < |log| ==> RecordOf(log[j]) != Some((kind, id))
    ensures forall i :: LastWrite(log, i, kind, id) ==> Stored(Replay(log), kind, id) == Some(log[i].payload)
  {
    if log != [] {
      var n := |log| - 1;
      ReplayIsLastWriter(log[..n], kind, id);
      ProjectOne(Replay(log[..n]), log[n], kind, id);
      hide ProjectEvent, RecordOf, Stored;
      assert forall j :: 0 <= j < n ==> log[..n][j] == log[j];
      forall i | LastWrite(log, i, kind, id)
        ensures Stored(Replay(log), kind, id) == Some(log[i].payload)
      {
        if i < n { assert LastWrite(log[..n], i, kind, id); }
      }
    }
  }

  lemma ProjectOne(v: Views, e: Event, kind: Kind, id: Id)
    ensures Stored(ProjectEvent(v, e.eventType, e.payload), kind, id) ==
            if RecordOf(e) == Some((kind, id)) then Some(e.payload) else Stored(v, kind, id)
  {
  }
}
