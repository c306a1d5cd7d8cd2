/** Merging the reasons of an impact, and carrying it over to the agents at work. */
module ImpactReport {
  import opened Arithmetic
  import opened Text
  import opened Wrappers
  import opened Impact
  import Sorting

  type WorkItemId = nat
  type AgentId = nat

  datatype WorkItem = WorkItem(id: WorkItemId, assignee: Option<AgentId>)

  datatype AffectedItem = AffectedItem(workItemId: WorkItemId, score: int, reasons: seq<Reason>)

  /** What has been gathered for an agent. */
  datatype Aggregate = Aggregate(score: int, reasons: seq<Reason>)

  datatype AffectedAgent = AffectedAgent(agentSessionId: AgentId, score: int, reasons: seq<Reason>)

  predicate SameKey(a: Reason, b: Reason) { a.code == b.code && a.explanation == b.explanation }

  // ---------- Merging reasons ----------

  /** Setting a key in an insertion-ordered map, if the new reason scores higher than the one there. */
  function KeepBest(kept: seq<Reason>, r: Reason): seq<Reason> {
    if kept == [] then [r]
    else if SameKey(kept[0], r) then (if r.score > kept[0].score then [r] + kept[1..] else kept)
    else [kept[0]] + KeepBest(kept[1..], r)
  }

  function BestPerKey(rs: seq<Reason>): seq<Reason> {
    if rs == [] then [] else KeepBest(BestPerKey(rs[..|rs| - 1]), rs[|rs| - 1])
  }

  function CodeRank(c: ReasonCode): nat {
    match c
    case ExactScopeOverlap => 0
    case ExplicitWorkDependency => 1
    case GraphEdge => 2
    case SameWorkItem => 3
  }

  /** Higher scores first, then the alphabetical order of the codes. */
  predicate Precedes(a: Reason, b: Reason) {
    a.score > b.score || (a.score == b.score && CodeRank(a.code) <= CodeRank(b.code))
  }

  function Place(r: Reason, rs: seq<Reason>): seq<Reason> {
    if rs == [] || Precedes(r, rs[0]) then [r] + rs else [rs[0]] + Place(r, rs[1..])
  }

  function Ranked(rs: seq<Reason>): seq<Reason> { if rs == [] then [] else Place(rs[0], Ranked(rs[1..])) }

  method MergeReasons(reasons: seq<Reason>) returns (merged: seq<Reason>)
    ensures merged == Ranked(BestPerKey(reasons))
  {
    var byKey: seq<Reason> := [];
    for i := 0 to |reasons|
      invariant byKey == BestPerKey(reasons[..i])
    {
      byKey := KeepBest(byKey, reasons[i]);
      assert reasons[..i + 1][..i] == reasons[..i];
    }
    assert reasons[..|reasons|] == reasons;
    merged := Ranked(byKey);
  }

  ghost predicate OnePerKey(rs: seq<Reason>) { forall i, j :: 0 <= i < j < |rs| ==> !SameKey(rs[i], rs[j]) }

  /** Some reason of the list has the key, and scores at least as high. */
  ghost predicate Represented(rs: seq<Reason>, r: Reason) { exists k :: k in rs && SameKey(k, r) && k.score >= r.score }

  lemma OnePerKeyTail(rs: seq<Reason>)
    requires OnePerKey(rs) && rs != []
    ensures OnePerKey(rs[1..]) && forall x :: x in rs[1..] ==> !SameKey(rs[0], x)
  {
    assert forall i :: 0 <= i < |rs[1..]| ==> rs[1..][i] == rs[i + 1];
  }

  lemma OnePerKeyCons(r: Reason, rs: seq<Reason>)
    requires OnePerKey(rs) && forall x :: x in rs ==> !SameKey(r, x)
    ensures OnePerKey([r] + rs)
  {
  }

  lemma {:induction false} KeepBestMeans(kept: seq<Reason>, r: Reason)
    requires OnePerKey(kept)
    ensures var m := KeepBest(kept, r);
            && OnePerKey(m) && Represented(m, r)
            && (forall x :: x in m ==> x in kept || x == r)
            && (forall x :: x in kept ==> Represented(m, x))
    ensures forall x :: x in KeepBest(kept, r) && !SameKey(x, r) ==> x in kept
  {
    hide OnePerKey;
    var m := KeepBest(kept, r);
    if kept == [] {
      NoneKept(r);
      assert r in m;
    } else {
      OnePerKeyTail(kept);
      assert kept == [kept[0]] + kept[1..];
      if SameKey(kept[0], r) {
        if r.score > kept[0].score { OnePerKeyCons(r, kept[1..]); assert r in m; } else { assert kept[0] in m; }
        forall x | x in kept ensures Represented(m, x) { assert x in m || SameKey(r, x); }
      } else {
        var rest := KeepBest(kept[1..], r);
        KeepBestMeans(kept[1..], r);
        forall x | x in rest ensures !SameKey(kept[0], x) { assert x in kept[1..] || SameKey(x, r); }
        OnePerKeyCons(kept[0], rest);
        var k :| k in rest && SameKey(k, r) && k.score >= r.score;
        assert k in m;
        forall x | x in kept ensures Represented(m, x) {
          if x in kept[1..] {
            var y :| y in rest && SameKey(y, x) && y.score >= x.score;
            assert y in m;
          } else {
            assert x in m;
          }
        }
      }
    }
  }

  lemma NoneKept(r: Reason)
    ensures OnePerKey([r])
  {
  }

  lemma Witness(m: seq<Reason>, x: Reason) returns (y: Reason)
    requires Represented(m, x)
    ensures y in m && SameKey(y, x) && y.score >= x.score
  {
    y :| y in m && SameKey(y, x) && y.score >= x.score;
  }

  lemma RepresentedThrough(m: seq<Reason>, y: Reason, x: Reason)
    requires Represented(m, y) && SameKey(y, x) && y.score >= x.score
    ensures Represented(m, x)
  {
    var z :| z in m && SameKey(z, y) && z.score >= y.score;
  }

  lemma {:induction false} BestPerKeyMeans(rs: seq<Reason>)
    ensures var m := BestPerKey(rs);
            OnePerKey(m) && (forall x :: x in m ==> x in rs) && (forall x :: x in rs ==> Represented(m, x))
  {
    hide OnePerKey, Represented, SameKey;
    if rs == [] {
      NoKeys();
    } else {
      var init, last := rs[..|rs| - 1], rs[|rs| - 1];
      BestPerKeyMeans(init);
      KeepBestMeans(BestPerKey(init), last);
      assert forall x :: x in rs <==> x in init || x == last by { assert rs == init + [last]; }
      var m := BestPerKey(rs);
      forall x | x in rs ensures Represented(m, x) {
        if x in init {
          var y := Witness(BestPerKey(init), x);
          RepresentedThrough(m, y, x);
        }
      }
    }
  }

  lemma NoKeys()
    ensures OnePerKey([])
  {
  }

  ghost predicate InOrder(rs: seq<Reason>) { forall i, j :: 0 <= i < j < |rs| ==> Precedes(rs[i], rs[j]) }

  lemma {:induction false} PlaceMeans(r: Reason, rs: seq<Reason>)
    requires InOrder(rs)
    ensures InOrder(Place(r, rs)) && multiset(Place(r, rs)) == multiset(rs) + multiset{r}
  {
    if rs != [] && Precedes(r, rs[0]) {
      PrecedesAll(r, rs);
      hide Precedes;
    } else if rs != [] {
      var tail := rs[1..];
      assert rs == [rs[0]] + tail && forall i :: 0 <= i < |tail| ==> tail[i] == rs[i + 1];
      PlaceMeans(r, tail);
      var placed := Place(r, tail);
      forall j | 0 <= j < |placed| ensures Precedes(rs[0], placed[j]) {
        assert placed[j] in multiset(placed);
        if placed[j] != r { assert placed[j] in tail; }
      }
    }
  }

  lemma PrecedesAll(r: Reason, rs: seq<Reason>)
    requires InOrder(rs) && rs != [] && Precedes(r, rs[0])
    ensures forall j :: 0 <= j < |rs| ==> Precedes(r, rs[j])
  {
    forall j | 0 < j < |rs| ensures Precedes(r, rs[j]) { assert Precedes(rs[0], rs[j]); }
  }

  lemma {:induction false} RankedMeans(rs: seq<Reason>)
    ensures InOrder(Ranked(rs)) && multiset(Ranked(rs)) == multiset(rs)
  {
    if rs != [] {
      RankedMeans(rs[1..]);
      PlaceMeans(rs[0], Ranked(rs[1..]));
      assert rs == [rs[0]] + rs[1..];
    }
  }

  function CodeName(c: ReasonCode): (r: string)
    ensures forall i :: 0 <= i < |r| ==> r[i] as int < 128
  {
    match c
    case ExactScopeOverlap => "exact_scope_overlap"
    case ExplicitWorkDependency => "explicit_work_dependency"
    case GraphEdge => "graph_edge"
    case SameWorkItem => "same_work_item"
  }

  /** Falling scores, and among equal scores the alphabetical order of the codes' names. */
  ghost predicate BestFirst(rs: seq<Reason>) {
    forall i, j :: 0 <= i < j < |rs| ==>
      && rs[i].score >= rs[j].score
      && (rs[i].score == rs[j].score ==>
            Sorting.AtMost(Ascii(CodeName(rs[i].code)), Ascii(CodeName(rs[j].code))))
  }

  lemma NamesInOrder()
    ensures var n := (c: ReasonCode) => Ascii(CodeName(c));
            && Sorting.Less(n(ExactScopeOverlap), n(ExplicitWorkDependency))
            && Sorting.Less(n(ExplicitWorkDependency), n(GraphEdge))
            && Sorting.Less(n(GraphEdge), n(SameWorkItem))
  {
    var a, b := Ascii(CodeName(ExactScopeOverlap)), Ascii(CodeName(ExplicitWorkDependency));
    var c, d := Ascii(CodeName(GraphEdge)), Ascii(CodeName(SameWorkItem));
    assert a[..2] == b[..2] by { assert a[0] == b[0] && a[1] == b[1]; }
    assert a[2] == 97 && b[2] == 112 && b[0] == 101 && c[0] == 103 && d[0] == 115;
    Sorting.FirstDifference(a, b, 2);
    Sorting.FirstDifference(b, c, 0);
    Sorting.FirstDifference(c, d, 0);
  }

  lemma PrecedesByName(a: Reason, b: Reason)
    requires Precedes(a, b)
    ensures a.score >= b.score
    ensures a.score == b.score ==> Sorting.AtMost(Ascii(CodeName(a.code)), Ascii(CodeName(b.code)))
  {
    NamesInOrder();
    var w, x := Ascii(CodeName(ExactScopeOverlap)), Ascii(CodeName(ExplicitWorkDependency));
    var y, z := Ascii(CodeName(GraphEdge)), Ascii(CodeName(SameWorkItem));
    Sorting.LessTransitive(w, x, y);
    Sorting.LessTransitive(x, y, z);
    Sorting.LessTransitive(w, y, z);
  }

  /** Merging keeps one reason for each code and explanation, the best of them, invents none, and ranks them. */
  lemma MergedReasons(rs: seq<Reason>)
    ensures var m := Ranked(BestPerKey(rs));
            && BestFirst(m)
            && (forall x :: x in m ==> x in rs)
            && (forall x :: x in rs ==> Represented(m, x))
            && (forall x, y :: x in m && y in rs && SameKey(x, y) ==> x.score >= y.score)
  {
    hide OnePerKey, Represented, SameKey, Precedes, CodeName;
    BestPerKeyMeans(rs);
    RankedMeans(BestPerKey(rs));
    var b, m := BestPerKey(rs), Ranked(BestPerKey(rs));
    forall i, j | 0 <= i < j < |m|
      ensures m[i].score >= m[j].score
      ensures m[i].score == m[j].score ==> Sorting.AtMost(Ascii(CodeName(m[i].code)), Ascii(CodeName(m[j].code)))
    {
      PrecedesByName(m[i], m[j]);
    }
    Sorting.MultisetMembers(m, b);
    forall x | x in rs ensures Represented(m, x) {
      var y := Witness(b, x);
      Represents(m, y, x);
    }
    forall x, y | x in m && y in rs && SameKey(x, y) ensures x.score >= y.score { OnlyBest(b, x, y); }
  }

  lemma Represents(m: seq<Reason>, y: Reason, x: Reason)
    requires y in m && SameKey(y, x) && y.score >= x.score
    ensures Represented(m, x)
  {
  }

  lemma OnlyBest(b: seq<Reason>, x: Reason, y: Reason)
    requires OnePerKey(b) && x in b && SameKey(x, y) && Represented(b, y)
    ensures x.score >= y.score
  {
    var z := Witness(b, y);
    var i :| 0 <= i < |b| && b[i] == x;
    var j :| 0 <= j < |b| && b[j] == z;
  }

  // ---------- Agents ----------

  function Find(affected: seq<AffectedItem>, id: WorkItemId): (r: Option<AffectedItem>)
    ensures r.Some? ==> r.value in affected && r.value.workItemId == id
    ensures r.None? <==> forall a :: a in affected ==> a.workItemId != id
  {
    if affected == [] then None else if affected[0].workItemId == id then Some(affected[0]) else Find(affected[1..], id)
  }

  /** The agent is assigned to the item, and the item is affected. */
  predicate Concerns(item: WorkItem, affected: seq<AffectedItem>, agent: AgentId) {
    item.assignee == Some(agent) && Find(affected, item.id).Some?
  }

  /** The reasons of all the agent's affected items, in order. */
  function ReasonsFor(items: seq<WorkItem>, affected: seq<AffectedItem>, agent: AgentId): seq<Reason> {
    if items == [] then []
    else
      var init, last := items[..|items| - 1], items[|items| - 1];
      ReasonsFor(init, affected, agent) +
        (if Concerns(last, affected, agent) then Find(affected, last.id).value.reasons else [])
  }

  /** An agent is affected exactly through its affected items: with the highest of their scores and all their
      reasons. */
  ghost predicate Aggregated(items: seq<WorkItem>, affected: seq<AffectedItem>, agents: map<AgentId, Aggregate>) {
    && (forall a :: a in agents <==> exists i :: i in items && Concerns(i, affected, a))
    && (forall a :: a in agents ==> agents[a].reasons == ReasonsFor(items, affected, a))
    && (forall a, i :: a in agents && i in items && Concerns(i, affected, a) ==>
       Find(affected, i.id).value.score <= agents[a].score)
    && (forall a :: a in agents ==> exists i ::
       i in items && Concerns(i, affected, a) && Find(affected, i.id).value.score == agents[a].score)
  }

  method AggregateAgents(items: seq<WorkItem>, affected: seq<AffectedItem>) returns (agents: map<AgentId, Aggregate>)
    requires forall a :: a in affected ==> a.score >= 0
    ensures Aggregated(items, affected, agents)
  {
    hide Aggregated, Find;
    agents := map[];
    NoAgents(affected);
    for k := 0 to |items|
      invariant Aggregated(items[..k], affected, agents)
    {
      var item := items[k];
      assert items[..k + 1] == items[..k] + [item];
      AgentStep(items[..k], item, affected, agents);
      var found := Find(affected, item.id);
      if item.assignee.None? || found.None? { continue; }
      var agent := item.assignee.value;
      var previous := if agent in agents then agents[agent] else Aggregate(0, []);
      agents := agents[agent :=
          Aggregate(Max(previous.score, found.value.score), previous.reasons + found.value.reasons)];
    }
    assert items[..|items|] == items;
  }

  /** Higher scores first, then the identifiers as they collate. */
  predicate AgentPrecedes(a: AffectedAgent, b: AffectedAgent, collate: AgentId -> Text) {
    a.score > b.score || (a.score == b.score && Sorting.AtMost(collate(a.agentSessionId), collate(b.agentSessionId)))
  }

  ghost predicate AgentsInOrder(xs: seq<AffectedAgent>, collate: AgentId -> Text) {
    forall i, j :: 0 <= i < j < |xs| ==> AgentPrecedes(xs[i], xs[j], collate)
  }

  /** Falling scores, and among equal scores rising collation keys. */
  ghost predicate HighestFirst(xs: seq<AffectedAgent>, collate: AgentId -> Text) {
    forall i, j :: 0 <= i < j < |xs| ==>
      && xs[i].score >= xs[j].score
      && (xs[i].score == xs[j].score ==> Sorting.AtMost(collate(xs[i].agentSessionId), collate(xs[j].agentSessionId)))
  }

  lemma InOrderMeans(xs: seq<AffectedAgent>, collate: AgentId -> Text)
    requires AgentsInOrder(xs, collate)
    ensures HighestFirst(xs, collate)
  {
    hide Sorting.AtMost;
    forall i, j | 0 <= i < j < |xs|
      ensures xs[i].score >= xs[j].score
      ensures xs[i].score == xs[j].score ==>
                Sorting.AtMost(collate(xs[i].agentSessionId), collate(xs[j].agentSessionId))
    {
      assert AgentPrecedes(xs[i], xs[j], collate);
    }
  }

  function PlaceAgent(a: AffectedAgent, xs: seq<AffectedAgent>, collate: AgentId -> Text): seq<AffectedAgent> {
    if xs == [] || AgentPrecedes(a, xs[0], collate) then [a] + xs else [xs[0]] + PlaceAgent(a, xs[1..], collate)
  }

  lemma AgentPrecedesTotal(a: AffectedAgent, b: AffectedAgent, c: AffectedAgent, collate: AgentId -> Text)
    ensures AgentPrecedes(a, b, collate) || AgentPrecedes(b, a, collate)
    ensures AgentPrecedes(a, b, collate) && AgentPrecedes(b, c, collate) ==> AgentPrecedes(a, c, collate)
  {
    var x, y, z := collate(a.agentSessionId), collate(b.agentSessionId), collate(c.agentSessionId);
    Sorting.LessTrichotomy(x, y);
    if Sorting.AtMost(x, y) && Sorting.AtMost(y, z) { Sorting.AtMostTransitive(x, y, z); }
  }

  lemma {:induction false} PlaceAgentMeans(a: AffectedAgent, xs: seq<AffectedAgent>, collate: AgentId -> Text)
    requires AgentsInOrder(xs, collate)
    ensures AgentsInOrder(PlaceAgent(a, xs, collate), collate)
    ensures multiset(PlaceAgent(a, xs, collate)) == multiset(xs) + multiset{a}
  {
    hide AgentPrecedes;
    if xs == [] {
    } else if AgentPrecedes(a, xs[0], collate) {
      forall j | 0 <= j < |xs| ensures AgentPrecedes(a, xs[j], collate) {
        if j > 0 { AgentPrecedesTotal(a, xs[0], xs[j], collate); }
      }
    } else {
      var tail := xs[1..];
      assert xs == [xs[0]] + tail && forall i :: 0 <= i < |tail| ==> tail[i] == xs[i + 1];
      PlaceAgentMeans(a, tail, collate);
      AgentPrecedesTotal(xs[0], a, a, collate);
      var placed := PlaceAgent(a, tail, collate);
      forall j | 0 <= j < |placed| ensures AgentPrecedes(xs[0], placed[j], collate) {
        assert placed[j] in multiset(placed);
        if placed[j] != a { assert placed[j] in tail; }
      }
    }
  }

  /** The entry that an aggregate yields: its reasons merged. */
  function EntryOf(id: AgentId, a: Aggregate): AffectedAgent {
    AffectedAgent(id, a.score, Ranked(BestPerKey(a.reasons)))
  }

  /** The entries of the given agents, one each. */
  function Entries(agents: map<AgentId, Aggregate>, ids: set<AgentId>): set<AffectedAgent>
    requires ids <= agents.Keys
  {
    set id | id in ids :: EntryOf(id, agents[id])
  }

  /** The affected agents, one entry each, ranked; each with its highest score, and with the best reason of each kind
      among those of all its affected items. */
  method AffectedAgents(items: seq<WorkItem>, affected: seq<AffectedItem>, collate: AgentId -> Text)
    returns (ghost agents: map<AgentId, Aggregate>, ranked: seq<AffectedAgent>)
    requires forall a :: a in affected ==> a.score >= 0
    ensures Aggregated(items, affected, agents)
    ensures HighestFirst(ranked, collate)
    ensures multiset(ranked) == multiset(Entries(agents, agents.Keys))
  {
    hide Aggregated, AgentsInOrder, HighestFirst, PlaceAgent, Ranked, BestPerKey;
    var aggregates := AggregateAgents(items, affected);
    agents := aggregates;
    ranked := [];
    NoEntries(aggregates, collate);
    var rest := aggregates.Keys;
    while rest != {}
      invariant rest <= aggregates.Keys && AgentsInOrder(ranked, collate)
      invariant multiset(ranked) == multiset(Entries(aggregates, aggregates.Keys - rest))
      decreases rest
    {
      var id :| id in rest;
      var reasons := MergeReasons(aggregates[id].reasons);
      var entry := AffectedAgent(id, aggregates[id].score, reasons);
      PlaceAgentMeans(entry, ranked, collate);
      MoreEntries(aggregates, aggregates.Keys - rest, id);
      assert aggregates.Keys - rest + {id} == aggregates.Keys - (rest - {id});
      ranked := PlaceAgent(entry, ranked, collate);
      rest := rest - {id};
    }
    assert aggregates.Keys - {} == aggregates.Keys;
    InOrderMeans(ranked, collate);
  }

  lemma NoEntries(agents: map<AgentId, Aggregate>, collate: AgentId -> Text)
    ensures AgentsInOrder([], collate) && Entries(agents, agents.Keys - agents.Keys) == {}
  {
  }

  lemma MoreEntries(agents: map<AgentId, Aggregate>, ids: set<AgentId>, id: AgentId)
    requires ids <= agents.Keys && id in agents && id !in ids
    ensures multiset(Entries(agents, ids + {id})) == multiset(Entries(agents, ids)) + multiset{EntryOf(id, agents[id])}
  {
    hide Ranked, BestPerKey;
    assert Entries(agents, ids + {id}) == Entries(agents, ids) + {EntryOf(id, agents[id])};
  }

  /** An agent's merged reasons are its items' reasons, the best of each kind. */
  lemma AgentReasons(
      items: seq<WorkItem>, affected: seq<AffectedItem>, agents: map<AgentId, Aggregate>, entry: AffectedAgent)
    requires Aggregated(items, affected, agents) && entry in Entries(agents, agents.Keys)
    ensures var all := ReasonsFor(items, affected, entry.agentSessionId);
            && (exists i :: i in items && Concerns(i, affected, entry.agentSessionId))
            && BestFirst(entry.reasons)
            && (forall x :: x in entry.reasons ==> x in all) && (forall x :: x in all ==> Represented(entry.reasons, x))
  {
    hide Find, ReasonsFor, InOrder, Represented, SameKey, Ranked, BestPerKey;
    MergedReasons(ReasonsFor(items, affected, entry.agentSessionId));
  }

  lemma NoAgents(affected: seq<AffectedItem>)
    ensures Aggregated([], affected, map[])
  {
  }

  lemma {:induction false} NoReasonsFor(items: seq<WorkItem>, affected: seq<AffectedItem>, agent: AgentId)
    requires forall i :: i in items ==> !Concerns(i, affected, agent)
    ensures ReasonsFor(items, affected, agent) == []
  {
    if items != [] {
      assert items[|items| - 1] in items;
      NoReasonsFor(items[..|items| - 1], affected, agent);
    }
  }

  lemma ReasonsStep(items: seq<WorkItem>, item: WorkItem, affected: seq<AffectedItem>, agent: AgentId)
    ensures ReasonsFor(items + [item], affected, agent) ==
            ReasonsFor(items, affected, agent) +
              (if Concerns(item, affected, agent) then Find(affected, item.id).value.reasons else [])
  {
    assert (items + [item])[..|items|] == items;
  }

  /** One item more. */
  lemma AgentStep(items: seq<WorkItem>, item: WorkItem, affected: seq<AffectedItem>, agents: map<AgentId, Aggregate>)
    requires Aggregated(items, affected, agents) && forall a :: a in affected ==> a.score >= 0
    ensures var found := Find(affected, item.id);
            if item.assignee.None? || found.None? then Aggregated(items + [item], affected, agents)
            else
              var previous := if item.assignee.value in agents then agents[item.assignee.value] else Aggregate(0, []);
              Aggregated(items + [item], affected, agents[item.assignee.value :=
                Aggregate(Max(previous.score, found.value.score), previous.reasons + found.value.reasons)])
  {
    hide Find, ReasonsFor;
    var more := items + [item];
    assert forall i :: i in more <==> i in items || i == item;
    forall a ensures ReasonsFor(more, affected, a) ==
                     ReasonsFor(items, affected, a) +
                       (if Concerns(item, affected, a) then Find(affected, item.id).value.reasons else []) {
      ReasonsStep(items, item, affected, a);
    }
    if item.assignee.Some? && Find(affected, item.id).Some? {
      var agent := item.assignee.value;
      assert Concerns(item, affected, agent) && item in more;
      if agent !in agents { NoReasonsFor(items, affected, agent); }
    }
  }
}
