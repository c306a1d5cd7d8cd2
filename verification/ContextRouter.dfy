/** Routing a page of coordination events to one agent. */
module ContextRouter {
  import opened Wrappers

  type AgentId = nat
  type WorkItemId = nat
  type ArtifactId = nat

  /** The parts of an event that the router looks at. */
  datatype Event = Event(
    sequence: nat, eventId: nat,
    agentSessionId: Option<AgentId>, authorAgentSessionId: Option<AgentId>, sessionId: Option<AgentId>,
    assignee: Option<AgentId>,
    workItemId: Option<WorkItemId>, workItemEventId: Option<WorkItemId>,
    published: Option<ArtifactId>, supersedes: Option<ArtifactId>,
    affectedWorkItems: set<WorkItemId>, affectedAgents: set<AgentId>)

  datatype Priority = High | Normal

  datatype Reason = SameAgent | SameWorkItem | DependencyWorkItem | ImpactResult

  datatype Routed = Routed(event: Event, priority: Priority, reason: Reason)

  /** What the caller is concerned with when it asks. */
  datatype Interests = Interests(
    agent: AgentId, current: set<WorkItemId>, dependencies: set<WorkItemId>, impacted: set<WorkItemId>)

  datatype RouteResult = RouteResult(
    highPriority: seq<Routed>, normalPriority: seq<Routed>, throughSequence: int, truncated: bool)

  /** Length of an event's JSON text. */
  type Size = Event -> nat

  predicate ValidLimits(maxEvents: nat, maxBytes: nat) { 1 <= maxEvents <= 1000 && 1 <= maxBytes <= 4 * 1024 * 1024 }

  function DirectItem(e: Event): Option<WorkItemId> { if e.workItemId.Some? then e.workItemId else e.workItemEventId }

  predicate Names(e: Event, a: AgentId) {
    e.agentSessionId == Some(a) || e.authorAgentSessionId == Some(a) || e.sessionId == Some(a) || e.assignee == Some(a)
  }

  /** The routing test: the first reason that applies. */
  function RoutingOf(e: Event, who: Interests): Option<Routed> {
    var item := DirectItem(e);
    if Names(e, who.agent) then Some(Routed(e, High, SameAgent))
    else if item.Some? && item.value in who.current then Some(Routed(e, High, SameWorkItem))
    else if item.Some? && item.value in who.dependencies then Some(Routed(e, Normal, DependencyWorkItem))
    else if item.Some? && item.value in who.impacted then Some(Routed(e, Normal, ImpactResult))
    else if who.agent in e.affectedAgents then Some(Routed(e, High, ImpactResult))
    else if exists id :: id in e.affectedWorkItems && id in who.current then Some(Routed(e, High, ImpactResult))
    else if exists id :: id in e.affectedWorkItems && id in who.dependencies then Some(Routed(e, Normal, ImpactResult))
    else None
  }

  /** Artifacts that some event of the page supersedes. */
  function SupersededIn(events: seq<Event>): set<ArtifactId> {
    set e | e in events && e.supersedes.Some? :: e.supersedes.value
  }

  /** Whether the router hands out the event at an index: not a repetition, not superseded in the page, and of
      interest. */
  predicate Deliverable(events: seq<Event>, who: Interests, i: nat)
    requires i < |events|
  {
    && (forall j :: 0 <= j < i ==> events[j].eventId != events[i].eventId)
    && !(events[i].published.Some? && events[i].published.value in SupersededIn(events))
    && RoutingOf(events[i], who).Some?
  }

  /** The deliverable events among the first m, of one priority, in order. */
  function Pick(events: seq<Event>, who: Interests, m: nat, p: Priority): seq<Routed>
    requires m <= |events|
  {
    if m == 0 then []
    else
      Pick(events, who, m - 1, p) +
      (if Deliverable(events, who, m - 1) && RoutingOf(events[m - 1], who).value.priority == p
       then [RoutingOf(events[m - 1], who).value] else [])
  }

  function Limit(events: seq<Event>, maxEvents: nat): (r: nat)
    ensures r <= |events|
  {
    if maxEvents < |events| then maxEvents else |events|
  }

  /** Where routing stops: at the event limit, or at the first deliverable event that exceeds the byte limit. */
  function StopAt(
      events: seq<Event>, who: Interests, size: Size, maxEvents: nat, maxBytes: nat, i: nat, bytes: nat): (m: nat)
    requires i <= Limit(events, maxEvents)
    ensures i <= m <= Limit(events, maxEvents)
    decreases |events| - i
  {
    if i == Limit(events, maxEvents) then i
    else if !Deliverable(events, who, i) then StopAt(events, who, size, maxEvents, maxBytes, i + 1, bytes)
    else if bytes + size(events[i]) > maxBytes then i
    else StopAt(events, who, size, maxEvents, maxBytes, i + 1, bytes + size(events[i]))
  }

  /** The cursor after the first m events of a page. */
  function Cursor(events: seq<Event>, sinceSequence: nat, m: nat): int
    requires m <= |events|
  {
    if events == [] then sinceSequence else if m == 0 then events[0].sequence - 1 else events[m - 1].sequence
  }

  /** The router's answer: everything deliverable up to where it stops, and the cursor of that place. */
  function RouteOf(
      events: seq<Event>, who: Interests, size: Size, sinceSequence: nat, maxEvents: nat, maxBytes: nat): RouteResult
  {
    var m := StopAt(events, who, size, maxEvents, maxBytes, 0, 0);
    RouteResult(Pick(events, who, m, High), Pick(events, who, m, Normal), Cursor(events, sinceSequence, m),
      m < |events|)
  }

  method SupersededArtifactIds(events: seq<Event>) returns (superseded: set<ArtifactId>)
    ensures superseded == SupersededIn(events)
  {
    superseded := {};
    for i := 0 to |events|
      invariant superseded == SupersededIn(events[..i])
    {
      if events[i].supersedes.Some? { superseded := superseded + {events[i].supersedes.value}; }
      assert events[..i + 1] == events[..i] + [events[i]];
      assert forall e :: e in events[..i + 1] <==> e in events[..i] || e == events[i];
    }
    assert events[..|events|] == events;
  }

  /** None when a limit is out of bounds, which the program reports as an error. */
  method Route(events: seq<Event>, who: Interests, size: Size, sinceSequence: nat, maxEvents: nat, maxBytes: nat)
    returns (r: Option<RouteResult>)
    ensures r == if 1 <= maxEvents <= 1000 && 1 <= maxBytes <= 4_194_304
            then Some(RouteOf(events, who, size, sinceSequence, maxEvents, maxBytes)) else None
  {
    hide RoutingOf, SupersededIn;
    if !ValidLimits(maxEvents, maxBytes) { return None; }
    var seenEventIds: set<nat> := {};
    var superseded := SupersededArtifactIds(events);
    var highPriority, normalPriority: seq<Routed> := [], [];
    var bytes: nat := 0;
    var truncated := |events| > maxEvents;
    var throughSequence: int := if events != [] then events[0].sequence - 1 else sinceSequence;
    var i := 0;
    while i < |events| && i < maxEvents
      invariant i <= Limit(events, maxEvents)
      invariant seenEventIds == set j | 0 <= j < i :: events[j].eventId
      invariant truncated == (|events| > maxEvents) && throughSequence == Cursor(events, sinceSequence, i)
      invariant highPriority == Pick(events, who, i, High) && normalPriority == Pick(events, who, i, Normal)
      invariant StopAt(events, who, size, maxEvents, maxBytes, 0, 0) ==
                StopAt(events, who, size, maxEvents, maxBytes, i, bytes)
      decreases |events| - i
    {
      var event := events[i];
      if event.eventId in seenEventIds {
        throughSequence := event.sequence;
        i := i + 1;
        continue;
      }
      seenEventIds := seenEventIds + {event.eventId};
      if event.published.Some? && event.published.value in superseded {
        throughSequence := event.sequence;
        i := i + 1;
        continue;
      }
      var routed := RoutingOf(event, who);
      if routed.None? {
        throughSequence := event.sequence;
        i := i + 1;
        continue;
      }
      assert Deliverable(events, who, i);
      if bytes + size(event) > maxBytes {
        truncated := true;
        break;
      }
      bytes := bytes + size(event);
      if routed.value.priority == High { highPriority := highPriority + [routed.value]; }
      else { normalPriority := normalPriority + [routed.value]; }
      throughSequence := event.sequence;
      i := i + 1;
    }
    r := Some(RouteResult(highPriority, normalPriority, throughSequence, truncated));
  }

  // ---------- What is delivered ----------

  lemma {:induction false} PickMembers(events: seq<Event>, who: Interests, m: nat, p: Priority)
    requires m <= |events|
    ensures forall r :: r in Pick(events, who, m, p) <==>
              exists i :: 0 <= i < m && Deliverable(events, who, i) && RoutingOf(events[i], who) == Some(r) &&
                  r.priority == p
  {
    hide RoutingOf, SupersededIn;
    if m > 0 {
      PickMembers(events, who, m - 1, p);
      forall r | r in Pick(events, who, m, p)
        ensures exists i ::
                  0 <= i < m && Deliverable(events, who, i) && RoutingOf(events[i], who) == Some(r) && r.priority == p
      {
        if r !in Pick(events, who, m - 1, p) {
          assert Deliverable(events, who, m - 1) && RoutingOf(events[m - 1], who) == Some(r);
        }
      }
    }
  }

  /** The two lists together count each deliverable event once. */
  lemma {:induction false} PickCount(events: seq<Event>, who: Interests, m: nat)
    requires m <= |events|
    ensures |Pick(events, who, m, High)| + |Pick(events, who, m, Normal)| == |set i | 0 <= i < m &&
            Deliverable(events, who, i)|
  {
    hide Deliverable, RoutingOf;
    if m > 0 {
      PickCount(events, who, m - 1);
      var before := set i | 0 <= i < m - 1 && Deliverable(events, who, i);
      var now := set i | 0 <= i < m && Deliverable(events, who, i);
      assert now == before + (if Deliverable(events, who, m - 1) then {m - 1} else {});
    }
  }

  function Total(events: seq<Event>, size: Size): nat {
    if events == [] then 0 else Total(events[..|events| - 1], size) + size(events[|events| - 1])
  }

  lemma TotalStep(events: seq<Event>, size: Size, i: nat)
    requires i < |events|
    ensures Total(events[..i + 1], size) == Total(events[..i], size) + size(events[i])
  {
    assert events[..i + 1][..i] == events[..i];
  }

  lemma {:induction false} TotalMonotone(events: seq<Event>, size: Size, i: nat)
    requires i <= |events|
    ensures Total(events[..i], size) <= Total(events, size)
    decreases |events| - i
  {
    if i < |events| {
      TotalStep(events, size, i);
      TotalMonotone(events, size, i + 1);
    } else {
      assert events[..i] == events;
    }
  }

  /** A page within both limits is routed to its end. */
  lemma {:induction false} NeverStopsEarly(
      events: seq<Event>, who: Interests, size: Size, maxEvents: nat, maxBytes: nat, i: nat, bytes: nat)
    requires |events| <= maxEvents && Total(events, size) <= maxBytes
    requires i <= |events| && bytes <= Total(events[..i], size)
    ensures StopAt(events, who, size, maxEvents, maxBytes, i, bytes) == |events|
    decreases |events| - i
  {
    hide Deliverable;
    if i < |events| {
      TotalStep(events, size, i);
      TotalMonotone(events, size, i + 1);
      NeverStopsEarly(events, who, size, maxEvents, maxBytes, i + 1,
                      if Deliverable(events, who, i) then bytes + size(events[i]) else bytes);
    }
  }

  ghost predicate Touches(ids: set<WorkItemId>, other: set<WorkItemId>) { exists id :: id in ids && id in other }

  /** One of the event's four session fields holds the agent. */
  predicate NamesAgent(e: Event, a: AgentId) {
    Some(a) in {e.agentSessionId, e.authorAgentSessionId, e.sessionId, e.assignee}
  }

  /** The item the event names, or if it names none the item it is an event of. */
  predicate IsAbout(e: Event, w: WorkItemId) {
    e.workItemId == Some(w) || (e.workItemId == None && e.workItemEventId == Some(w))
  }

  /** The event concerns an item the agent depends on. */
  ghost predicate AboutDependency(e: Event, who: Interests) { exists w :: w in who.dependencies && IsAbout(e, w) }

  /** The event concerns an item the agent depends on, or that the impacts at hand touch. */
  ghost predicate Nearby(e: Event, who: Interests) {
    AboutDependency(e, who) || exists w :: w in who.impacted && IsAbout(e, w)
  }

  ghost predicate Direct(e: Event, who: Interests) { exists w :: w in who.current && IsAbout(e, w) }

  ghost predicate Hits(e: Event, who: Interests) {
    who.agent in e.affectedAgents || Touches(e.affectedWorkItems, who.current)
  }

  /** It names the agent, concerns an item of interest, or tells of an impact on either. */
  ghost predicate Relevant(e: Event, who: Interests) {
    NamesAgent(e, who.agent) || Direct(e, who) || Nearby(e, who) || Hits(e, who) ||
      Touches(e.affectedWorkItems, who.dependencies)
  }

  /** It names the agent or concerns a current item; an impact on these counts unless the event itself is nearby. */
  ghost predicate Urgent(e: Event, who: Interests) {
    NamesAgent(e, who.agent) || Direct(e, who) || (!Nearby(e, who) && Hits(e, who))
  }

  /** Why an event is routed: the agent is named; or else a current item is concerned; or else one it depends on; and
      in all other cases because of an impact. */
  ghost predicate Explains(e: Event, who: Interests, reason: Reason) {
    match reason
    case SameAgent => NamesAgent(e, who.agent)
    case SameWorkItem => !NamesAgent(e, who.agent) && Direct(e, who)
    case DependencyWorkItem => !NamesAgent(e, who.agent) && !Direct(e, who) && AboutDependency(e, who)
    case ImpactResult => !NamesAgent(e, who.agent) && !Direct(e, who) && !AboutDependency(e, who)
  }

  lemma ItemMeans(e: Event, ids: set<WorkItemId>)
    ensures (exists w :: w in ids && IsAbout(e, w)) <==> DirectItem(e).Some? && DirectItem(e).value in ids
  {
    if DirectItem(e).Some? && DirectItem(e).value in ids { assert IsAbout(e, DirectItem(e).value); }
  }

  /** Which events are routed, with which priority, and for which reason. */
  lemma RoutingMeans(e: Event, who: Interests)
    ensures var r := RoutingOf(e, who);
            && (r.Some? <==> Relevant(e, who))
            && (r.Some? ==> r.value.event == e && (r.value.priority == High <==> Urgent(e, who)) &&
                            Explains(e, who, r.value.reason))
  {
    ItemMeans(e, who.current);
    ItemMeans(e, who.dependencies);
    ItemMeans(e, who.impacted);
    hide IsAbout, DirectItem;
  }

  /** The cursor of an answer stands between what was looked at and what was not: of consecutive events, those up to it
      are exactly those before the place where routing stops. */
  lemma CursorMeans(events: seq<Event>, who: Interests, size: Size, sinceSequence: nat, maxEvents: nat, maxBytes: nat)
    requires forall i :: 0 < i < |events| ==> events[i].sequence == events[i - 1].sequence + 1
    ensures var r := RouteOf(events, who, size, sinceSequence, maxEvents, maxBytes);
            var m := StopAt(events, who, size, maxEvents, maxBytes, 0, 0);
            && (forall i :: 0 <= i < |events| ==> (events[i].sequence <= r.throughSequence <==> i < m))
            && (r.truncated ==> m < |events| && r.throughSequence + 1 == events[m].sequence)
            && (!r.truncated ==> r.throughSequence == if events == [] then sinceSequence
                                                      else events[|events| - 1].sequence)
  {
    hide StopAt, Pick;
    forall i, j | 0 <= i <= j < |events| ensures events[j].sequence == events[i].sequence + (j - i) {
      Consecutive(events, i, j);
    }
  }

  lemma {:induction false} Consecutive(events: seq<Event>, i: nat, j: nat)
    requires forall k :: 0 < k < |events| ==> events[k].sequence == events[k - 1].sequence + 1
    requires i <= j < |events|
    ensures events[j].sequence == events[i].sequence + (j - i)
    decreases j
  {
    if i < j { Consecutive(events, i, j - 1); }
  }

  /** Of the events before the place where routing stops, the first of each identifier is handed out exactly when it is
      relevant and not superseded in the page, and with high priority exactly when it is urgent besides. */
  lemma RouteDelivers(
      events: seq<Event>, who: Interests, size: Size, sinceSequence: nat, maxEvents: nat, maxBytes: nat, i: nat)
    requires i < StopAt(events, who, size, maxEvents, maxBytes, 0, 0)
    requires forall j :: 0 <= j < i ==> events[j].eventId != events[i].eventId
    ensures var r, e := RouteOf(events, who, size, sinceSequence, maxEvents, maxBytes), events[i];
            var kept := !(e.published.Some? && e.published.value in SupersededIn(events));
            && ((exists x :: x in r.highPriority && x.event == e) <==> kept && Relevant(e, who) && Urgent(e, who))
            && ((exists x :: x in r.normalPriority && x.event == e) <==> kept && Relevant(e, who) && !Urgent(e, who))
            && (forall x :: (x in r.highPriority || x in r.normalPriority) && x.event == e ==>
               Explains(e, who, x.reason))
  {
    var m := StopAt(events, who, size, maxEvents, maxBytes, 0, 0);
    DeliversOne(events, who, m, High, i);
    DeliversOne(events, who, m, Normal, i);
    RoutingMeans(events[i], who);
    hide StopAt, Pick, RoutingOf, Relevant, Urgent, SupersededIn, Explains;
  }

  lemma DeliversOne(events: seq<Event>, who: Interests, m: nat, p: Priority, i: nat)
    requires i < m <= |events| && forall j :: 0 <= j < i ==> events[j].eventId != events[i].eventId
    ensures (exists x :: x in Pick(events, who, m, p) && x.event == events[i]) <==>
            Deliverable(events, who, i) && RoutingOf(events[i], who).value.priority == p
    ensures forall x :: x in Pick(events, who, m, p) && x.event == events[i] ==> RoutingOf(events[i], who) == Some(x)
  {
    PickMembers(events, who, m, p);
    forall j | 0 <= j < m
      ensures RoutingOf(events[j], who).Some? ==> RoutingOf(events[j], who).value.event == events[j]
    {
      RoutingMeans(events[j], who);
    }
    hide Pick, RoutingOf, SupersededIn;
    var picked := Pick(events, who, m, p);
    if x :| x in picked && x.event == events[i] {
      var j :| 0 <= j < m && Deliverable(events, who, j) && RoutingOf(events[j], who) == Some(x) && x.priority == p;
      assert events[j] == events[i];
      assert j == i;
    }
    if Deliverable(events, who, i) && RoutingOf(events[i], who).value.priority == p {
      assert RoutingOf(events[i], who).value in picked;
    }
  }

  /** Bytes of the deliverable events among the first m. */
  function DeliveredBytes(events: seq<Event>, who: Interests, size: Size, m: nat): nat
    requires m <= |events|
  {
    if m == 0 then 0
    else DeliveredBytes(events, who, size, m - 1) + (if Deliverable(events, who, m - 1) then size(events[m - 1]) else 0)
  }

  /** Routing stops as late as the limits allow: what it delivers fits, and a next deliverable event would not. */
  lemma {:induction false} StopsAsLateAsPossible(
      events: seq<Event>, who: Interests, size: Size, maxEvents: nat, maxBytes: nat, i: nat, bytes: nat)
    requires i <= Limit(events, maxEvents) && bytes == DeliveredBytes(events, who, size, i) <= maxBytes
    ensures var m := StopAt(events, who, size, maxEvents, maxBytes, i, bytes);
            && DeliveredBytes(events, who, size, m) <= maxBytes
            && (m < Limit(events, maxEvents) ==>
                  Deliverable(events, who, m) && DeliveredBytes(events, who, size, m) + size(events[m]) > maxBytes)
    decreases |events| - i
  {
    hide Deliverable;
    if i < Limit(events, maxEvents) {
      var next := if Deliverable(events, who, i) then bytes + size(events[i]) else bytes;
      if next <= maxBytes { StopsAsLateAsPossible(events, who, size, maxEvents, maxBytes, i + 1, next); }
    }
  }
}
