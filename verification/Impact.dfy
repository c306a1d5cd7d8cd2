/** Impact propagation: a breadth-first search bounded in depth and in size. */
module Impact {
  import opened Arithmetic
  import opened Text
  import opened CodeGraph

  datatype Bounds = Bounds(
    maxDepth: nat, maxEntities: nat, allowedEdgeKinds: set<EdgeKind>, minimumConfidence: Confidence)

  datatype ReasonCode = ExplicitWorkDependency | SameWorkItem | ExactScopeOverlap | GraphEdge

  /** The facts that an explanation puts into words; of an edge these are its kind, its confidence and the way it was
      taken. */
  datatype Explanation =
    | ScopeMatches(displayName: Text)
    | Traversed(kind: EdgeKind, confidence: Confidence, from: EntityId, to: EntityId)

  datatype Reason = Reason(code: ReasonCode, score: int, explanation: Explanation, entityPath: seq<EntityId>)

  datatype Affected = Affected(entity: CodeEntity, score: int, reasons: seq<Reason>)

  datatype Visit = Visit(id: EntityId, depth: nat, path: seq<EntityId>)

  const TARGET_SCORE := 95

  /** What a traversal works on. */
  datatype Graph = Graph(targets: set<EntityId>, known: set<EntityId>, edges: seq<CodeEdge>, bounds: Bounds)

  function Rank(c: Confidence): nat {
    match c
    case Exact => 4
    case Strong => 3
    case Medium => 2
    case Weak => 1
  }

  predicate Allowed(e: CodeEdge, b: Bounds) {
    e.kind in b.allowedEdgeKinds && Rank(e.confidence) >= Rank(b.minimumConfidence)
  }

  // ---------- Propagation ----------

  /** Impact goes from a dependency to what depends on it, and from a container to what it contains. */
  predicate Step(g: Graph, u: EntityId, e: CodeEdge, v: EntityId) {
    && e in g.edges && Allowed(e, g.bounds) && v in g.known
    && (if e.kind == Contains then e.from == u && e.to == v else e.to == u && e.from == v)
  }

  /** The one confidence is as good as the other: exact before strong before medium before weak. */
  predicate AsSure(c: Confidence, least: Confidence) {
    || least == Weak || c == Exact || c == least || (c == Strong && least == Medium)
  }

  /** A step of impact follows an edge of the graph that is of an allowed kind and sure enough, to a known entity: a
      containment forwards, and every other edge backwards. */
  lemma StepExactly(g: Graph, u: EntityId, e: CodeEdge, v: EntityId)
    ensures Step(g, u, e, v) <==>
              && e in g.edges && e.kind in g.bounds.allowedEdgeKinds
              && AsSure(e.confidence, g.bounds.minimumConfidence) && v in g.known
              && (e.kind == Contains ==> u == e.from && v == e.to)
              && (e.kind != Contains ==> u == e.to && v == e.from)
  {
  }

  ghost predicate Linked(g: Graph, u: EntityId, v: EntityId) { exists e :: Step(g, u, e, v) }

  /** A walk of impact from a target to an entity. */
  ghost predicate Way(g: Graph, p: seq<EntityId>, v: EntityId) {
    && p != [] && p[0] in g.targets && p[|p| - 1] == v
    && forall i :: 0 < i < |p| ==> Linked(g, p[i - 1], p[i])
  }

  ghost predicate Within(g: Graph, v: EntityId, d: nat) { exists p :: Way(g, p, v) && |p| <= d + 1 }

  ghost predicate NoCloser(g: Graph, v: EntityId, d: nat) { forall p :: Way(g, p, v) ==> d + 1 <= |p| }

  ghost predicate AtDistance(g: Graph, v: EntityId, d: nat) {
    (exists p :: Way(g, p, v) && |p| == d + 1) && NoCloser(g, v, d)
  }

  function EdgeScore(depth: nat, e: CodeEdge): int { Max(1, 80 - depth * 15 - (if e.kind == Calls then 10 else 0)) }

  /** The score of an affected entity that is not a target: the best step that leads to it. */
  ghost predicate BestStep(g: Graph, v: EntityId, score: int) {
    && (exists u, e, d: nat ::
       d < g.bounds.maxDepth && AtDistance(g, u, d) && Step(g, u, e, v) && score == EdgeScore(d, e))
    && (forall u, e, d: nat :: d < g.bounds.maxDepth && AtDistance(g, u, d) && Step(g, u, e, v) ==>
       EdgeScore(d, e) <= score)
  }

  /** What the last step of a path is worth, told by the length of the path: 80, less 15 for each step before it and 10
      for a call, but at least 1. */
  function StepWorth(steps: int, kind: EdgeKind): int {
    var worth := 80 - 15 * (steps - 1) - (if kind == Calls then 10 else 0);
    if worth < 1 then 1 else worth
  }

  /** The reason tells of the last step of its path: what kind of edge was taken, how sure it is, from where to
      where. */
  ghost predicate TellsStep(g: Graph, v: EntityId, r: Reason) {
    && |r.entityPath| >= 2 && r.code == GraphEdge
    && var u := r.entityPath[|r.entityPath| - 2];
       exists e :: Step(g, u, e, v) && r.explanation == Traversed(e.kind, e.confidence, u, v) &&
                   r.score == StepWorth(|r.entityPath| - 1, e.kind)
  }

  ghost predicate TellsTarget(g: Graph, v: EntityId, entity: CodeEntity, r: Reason) {
    v in g.targets && r == Reason(ExactScopeOverlap, 95, ScopeMatches(entity.displayName), [v])
  }

  /** Each reason tells of a real walk and none scores higher than the entity, which has its score from one of them. */
  ghost predicate Justified(g: Graph, v: EntityId, a: Affected) {
    && a.entity.id == v
    && (if v in g.targets then a.score == 95 else 1 <= a.score <= 80)
    && (forall r :: r in a.reasons ==>
       Way(g, r.entityPath, v) && |r.entityPath| <= g.bounds.maxDepth + 1 && r.score <= a.score &&
       (TellsStep(g, v, r) || TellsTarget(g, v, a.entity, r)))
    && (exists r :: r in a.reasons && r.score == a.score)
  }

  // ---------- The state of the search ----------

  type Depths = map<EntityId, nat>

  ghost predicate Attained(g: Graph, depth: Depths, v: EntityId, score: int) {
    exists u, e :: u in depth && depth[u] < g.bounds.maxDepth && Step(g, u, e, v) && score == EdgeScore(depth[u], e)
  }

  ghost predicate Entry(g: Graph, depth: Depths, v: EntityId, a: Affected)
    requires v in depth
  {
    && Justified(g, v, a)
    && v in g.known
    && depth[v] <= g.bounds.maxDepth
    && (exists p :: Way(g, p, v) && |p| == depth[v] + 1)
    && (v in g.targets ==> depth[v] == 0)
    && (v !in g.targets ==> Attained(g, depth, v, a.score))
  }

  ghost predicate Sound(g: Graph, found: map<EntityId, Affected>, depth: Depths) {
    && found.Keys == depth.Keys && g.targets <= found.Keys
    && (forall v :: v in found ==> Entry(g, depth, v, found[v]))
  }

  /** The queue holds two adjacent layers in order, each visit with its depth and a walk to it. */
  ghost predicate Layered(g: Graph, depth: Depths, queue: seq<Visit>, level: nat) {
    && (forall i :: 0 <= i < |queue| ==> Pending(g, depth, queue[i], level))
    && (forall i, j :: 0 <= i < j < |queue| ==> queue[i].depth <= queue[j].depth)
    && (forall v :: v in depth ==> depth[v] <= level + 1)
  }

  ghost predicate Pending(g: Graph, depth: Depths, q: Visit, level: nat) {
    && q.id in depth && depth[q.id] == q.depth && level <= q.depth <= level + 1
    && Way(g, q.path, q.id) && |q.path| == q.depth + 1
  }

  ghost predicate Waiting(queue: seq<Visit>, v: EntityId) { exists i :: 0 <= i < |queue| && queue[i].id == v }

  /** One of the reasons tells of this edge, taken from the one to the other, and of what the step is worth. */
  ghost predicate Told(a: Affected, u: EntityId, e: CodeEdge, v: EntityId, score: int) {
    exists r :: r in a.reasons && r.code == GraphEdge && r.score == score &&
                r.explanation == Traversed(e.kind, e.confidence, u, v)
  }

  /** A raised entity keeps its reasons. */
  ghost predicate Grew(a: Affected, b: Affected) { a.score <= b.score && forall r :: r in a.reasons ==> r in b.reasons }

  /** The step has led to a found entity, which tells of it. */
  ghost predicate Covered(
      found: map<EntityId, Affected>, depth: Depths, u: EntityId, e: CodeEdge, v: EntityId, d: nat, score: int)
  {
    v in found && v in depth && depth[v] <= d && found[v].score >= score && Told(found[v], u, e, v, score)
  }

  /** All steps from the entity have been taken. */
  ghost predicate Expanded(g: Graph, found: map<EntityId, Affected>, depth: Depths, u: EntityId)
    requires u in depth
  {
    forall e, v :: Step(g, u, e, v) ==> Covered(found, depth, u, e, v, depth[u] + 1, EdgeScore(depth[u], e))
  }

  ghost predicate Settled(g: Graph, found: map<EntityId, Affected>, depth: Depths, queue: seq<Visit>) {
    forall u :: u in depth && !Waiting(queue, u) && depth[u] < g.bounds.maxDepth ==> Expanded(g, found, depth, u)
  }

  lemma WayInit(g: Graph, p: seq<EntityId>, v: EntityId)
    requires Way(g, p, v) && |p| > 1
    ensures Way(g, p[..|p| - 1], p[|p| - 2]) && Linked(g, p[|p| - 2], v)
  {
  }

  lemma WayAppend(g: Graph, p: seq<EntityId>, u: EntityId, e: CodeEdge, v: EntityId)
    requires Way(g, p, u) && Step(g, u, e, v)
    ensures Way(g, p + [v], v)
  {
  }

  /** Completeness of the layers: a walk no longer than the current layer ends at a found entity. */
  lemma {:induction false} WayIsCovered(
      g: Graph, found: map<EntityId, Affected>, depth: Depths, queue: seq<Visit>, level: nat, p: seq<EntityId>,
      v: EntityId)
    requires forall i :: 0 <= i < |queue| ==> queue[i].id in depth && level <= depth[queue[i].id]
    requires Way(g, p, v) && |p| <= g.bounds.maxDepth + 1 && (|p| <= level + 1 || queue == [])
    requires Sound(g, found, depth) && Settled(g, found, depth, queue)
    ensures v in depth && depth[v] <= |p| - 1
    decreases |p|
  {
    hide Entry;
    if |p| == 1 {
      TargetDepth(g, found, depth, v);
    } else {
      var u := p[|p| - 2];
      WayInit(g, p, v);
      WayIsCovered(g, found, depth, queue, level, p[..|p| - 1], u);
      var e :| Step(g, u, e, v);
      assert Expanded(g, found, depth, u);
      assert Covered(found, depth, u, e, v, depth[u] + 1, EdgeScore(depth[u], e));
    }
  }

  lemma TargetDepth(g: Graph, found: map<EntityId, Affected>, depth: Depths, v: EntityId)
    requires Sound(g, found, depth) && v in g.targets
    ensures v in depth && depth[v] == 0
  {
    assert Entry(g, depth, v, found[v]);
  }

  /** What the flag stands for: an entity within the depth bound that there was no room for. */
  ghost predicate Missing(g: Graph, found: map<EntityId, Affected>, v: EntityId) {
    v !in found && Within(g, v, g.bounds.maxDepth) && |found| >= g.bounds.maxEntities
  }

  // ---------- One step of the search ----------

  function StepReason(path: seq<EntityId>, depth: nat, u: EntityId, e: CodeEdge, v: EntityId): Reason {
    Reason(GraphEdge, EdgeScore(depth, e), Traversed(e.kind, e.confidence, u, v), path + [v])
  }

  function Again(a: Affected, r: Reason): Affected { Affected(a.entity, Max(a.score, r.score), a.reasons + [r]) }

  /** The state in which an entity is being expanded, and a step from it. */
  ghost predicate Stepping(
      g: Graph, found: map<EntityId, Affected>, depth: Depths, u: EntityId, path: seq<EntityId>, e: CodeEdge,
      v: EntityId)
  {
    && u in depth && depth[u] < g.bounds.maxDepth && |path| == depth[u] + 1
    && Way(g, path, u) && Step(g, u, e, v) && Sound(g, found, depth)
  }

  lemma ReasonIsReal(
      g: Graph, found: map<EntityId, Affected>, depth: Depths, u: EntityId, path: seq<EntityId>, e: CodeEdge,
      v: EntityId)
    requires Stepping(g, found, depth, u, path, e, v)
    ensures Way(g, path + [v], v) && |path + [v]| == depth[u] + 2 <= g.bounds.maxDepth + 1
    ensures Within(g, v, g.bounds.maxDepth) && TellsStep(g, v, StepReason(path, depth[u], u, e, v))
  {
    hide Sound, Step;
    WayAppend(g, path, u, e, v);
    var r := StepReason(path, depth[u], u, e, v);
    assert r.entityPath[|r.entityPath| - 2] == u;
    WorthOfStep(depth[u], e);
  }

  lemma WorthOfStep(depth: nat, e: CodeEdge)
    ensures EdgeScore(depth, e) == StepWorth(depth + 1, e.kind)
  {
  }

  lemma EdgeScoreRange(depth: nat, e: CodeEdge)
    ensures 1 <= EdgeScore(depth, e) <= 80
  {
  }

  /** One more real reason, counted in, keeps an entity's justification. */
  lemma AgainJustified(g: Graph, v: EntityId, a: Affected, r: Reason)
    requires Justified(g, v, a) && 1 <= r.score <= 80 && TellsStep(g, v, r)
    requires Way(g, r.entityPath, v) && |r.entityPath| <= g.bounds.maxDepth + 1
    ensures Justified(g, v, Again(a, r))
  {
    hide Way, TellsStep;
    var b := Again(a, r);
    assert r in b.reasons;
    var best :| best in a.reasons && best.score == a.score;
    assert best in b.reasons;
    assert forall x :: x in b.reasons ==> x in a.reasons || x == r;
  }

  lemma AgainAttained(g: Graph, depth: Depths, v: EntityId, a: Affected, r: Reason)
    requires Attained(g, depth, v, a.score) && Attained(g, depth, v, r.score)
    ensures Attained(g, depth, v, Again(a, r).score)
  {
    hide Attained;
  }

  lemma StepAttains(g: Graph, depth: Depths, u: EntityId, e: CodeEdge, v: EntityId)
    requires u in depth && depth[u] < g.bounds.maxDepth && Step(g, u, e, v)
    ensures Attained(g, depth, v, EdgeScore(depth[u], e))
  {
    hide Step;
  }

  lemma AgainEntry(
      g: Graph, found: map<EntityId, Affected>, depth: Depths, u: EntityId, path: seq<EntityId>, e: CodeEdge,
      v: EntityId)
    requires Stepping(g, found, depth, u, path, e, v) && v in found
    ensures Entry(g, depth, v, Again(found[v], StepReason(path, depth[u], u, e, v)))
  {
    hide Way, Within, Justified, Attained, EdgeScore, Step, Again;
    ReasonIsReal(g, found, depth, u, path, e, v);
    var a, r := found[v], StepReason(path, depth[u], u, e, v);
    assert Entry(g, depth, v, a);
    EdgeScoreRange(depth[u], e);
    AgainJustified(g, v, a, r);
    StepAttains(g, depth, u, e, v);
    if v !in g.targets { AgainAttained(g, depth, v, a, r); }
  }

  lemma SeenAgain(
      g: Graph, found: map<EntityId, Affected>, depth: Depths, queue: seq<Visit>, u: EntityId,
      path: seq<EntityId>, e: CodeEdge, v: EntityId)
    requires Stepping(g, found, depth, u, path, e, v) && v in found
    ensures var found' := found[v := Again(found[v], StepReason(path, depth[u], u, e, v))];
            Sound(g, found', depth) && (Settled(g, found, depth, queue) ==> Settled(g, found', depth, queue))
  {
    hide Entry;
    AgainEntry(g, found, depth, u, path, e, v);
    var found' := found[v := Again(found[v], StepReason(path, depth[u], u, e, v))];
    if Settled(g, found, depth, queue) {
      forall n | n in depth && !Waiting(queue, n) && depth[n] < g.bounds.maxDepth
        ensures Expanded(g, found', depth, n)
      {
        AgainTells(found[v], path, depth[u], u, e, v);
        RaisedStays(g, found, found', depth, n);
      }
    }
  }

  lemma RaisedStays(
      g: Graph, found: map<EntityId, Affected>, found': map<EntityId, Affected>, depth: Depths, n: EntityId)
    requires n in depth && Expanded(g, found, depth, n)
    requires forall v :: v in found ==> v in found' && Grew(found[v], found'[v])
    ensures Expanded(g, found', depth, n)
  {
    forall e, v | Step(g, n, e, v) ensures Covered(found', depth, n, e, v, depth[n] + 1, EdgeScore(depth[n], e)) {
      assert Covered(found, depth, n, e, v, depth[n] + 1, EdgeScore(depth[n], e));
    }
  }

  lemma FirstJustified(g: Graph, v: EntityId, entity: CodeEntity, r: Reason)
    requires v !in g.targets && entity.id == v && 1 <= r.score <= 80 && TellsStep(g, v, r)
    requires Way(g, r.entityPath, v) && |r.entityPath| <= g.bounds.maxDepth + 1
    ensures Justified(g, v, Affected(entity, r.score, [r]))
  {
    hide Way, TellsStep;
    assert r in [r];
  }

  lemma NewEntry(
      g: Graph, found: map<EntityId, Affected>, depth: Depths, u: EntityId, path: seq<EntityId>, e: CodeEdge,
      v: EntityId, entity: CodeEntity, d: nat, r: Reason)
    requires u in depth && d == depth[u] + 1 && v !in depth && entity.id == v &&
             r == StepReason(path, depth[u], u, e, v)
    requires Stepping(g, found, depth, u, path, e, v)
    ensures Entry(g, depth[v := d], v, Affected(entity, r.score, [r]))
  {
    hide Way, Within, Justified, Attained, EdgeScore, Entry, Step;
    ReasonIsReal(g, found, depth, u, path, e, v);
    EdgeScoreRange(depth[u], e);
    var depth' := depth[v := d];
    assert v !in g.targets;
    FirstJustified(g, v, entity, r);
    StepAttains(g, depth', u, e, v);
    StepKnown(g, u, e, v);
    MakeEntry(g, depth', v, Affected(entity, r.score, [r]), path + [v]);
  }

  lemma StepKnown(g: Graph, u: EntityId, e: CodeEdge, v: EntityId)
    requires Step(g, u, e, v)
    ensures v in g.known
  {
  }

  lemma MakeEntry(g: Graph, depth: Depths, v: EntityId, a: Affected, p: seq<EntityId>)
    requires v in depth && Justified(g, v, a) && v in g.known && depth[v] <= g.bounds.maxDepth && v !in g.targets
    requires Way(g, p, v) && |p| == depth[v] + 1 && Attained(g, depth, v, a.score)
    ensures Entry(g, depth, v, a)
  {
    hide Way, Justified, Attained;
  }

  lemma EntryStays(g: Graph, depth: Depths, n: EntityId, a: Affected, v: EntityId, d: nat)
    requires n in depth && v !in depth && Entry(g, depth, n, a)
    ensures Entry(g, depth[v := d], n, a)
  {
    hide Justified, Way;
    if n !in g.targets {
      var u, e :| u in depth && depth[u] < g.bounds.maxDepth && Step(g, u, e, n) && a.score == EdgeScore(depth[u], e);
      assert depth[v := d][u] == depth[u];
    }
  }

  lemma SeenFirst(
      g: Graph, found: map<EntityId, Affected>, depth: Depths, u: EntityId,
      path: seq<EntityId>, e: CodeEdge, v: EntityId, entity: CodeEntity, d: nat, r: Reason)
    requires u in depth && d == depth[u] + 1 && v !in depth && entity.id == v &&
             r == StepReason(path, depth[u], u, e, v)
    requires Stepping(g, found, depth, u, path, e, v)
    ensures Sound(g, found[v := Affected(entity, r.score, [r])], depth[v := d])
  {
    hide Entry, StepReason, Way, Step;
    NewEntry(g, found, depth, u, path, e, v, entity, d, r);
    forall n | n in depth ensures Entry(g, depth[v := d], n, found[n]) {
      EntryStays(g, depth, n, found[n], v, d);
    }
  }

  lemma NewLayer(g: Graph, depth: Depths, queue: seq<Visit>, level: nat, v: EntityId, path: seq<EntityId>)
    requires Layered(g, depth, queue, level) && v !in depth && Way(g, path, v) && |path| == level + 2
    ensures Layered(g, depth[v := level + 1], queue + [Visit(v, level + 1, path)], level)
  {
    hide Way;
  }

  lemma WaitingMore(open: seq<Visit>, visit: Visit, n: EntityId)
    ensures Waiting(open + [visit], n) <==> Waiting(open, n) || n == visit.id
  {
    var all := open + [visit];
    assert all[|open|] == visit;
    assert forall i :: 0 <= i < |open| ==> all[i] == open[i];
  }

  lemma NewSettled(
      g: Graph, found: map<EntityId, Affected>, depth: Depths, open: seq<Visit>, v: EntityId, d: nat,
      a: Affected, visit: Visit)
    requires Settled(g, found, depth, open) && v !in depth && v !in found && visit.id == v
    ensures Settled(g, found[v := a], depth[v := d], open + [visit])
  {
    hide Expanded, Waiting;
    var open' := open + [visit];
    WaitingMore(open, visit, v);
    forall n | n in depth[v := d] && !Waiting(open', n) && depth[v := d][n] < g.bounds.maxDepth
      ensures Expanded(g, found[v := a], depth[v := d], n)
    {
      assert n != v;
      WaitingMore(open, visit, n);
      GrownStays(g, found, depth, n, v, d, a);
    }
  }

  lemma GrownStays(
      g: Graph, found: map<EntityId, Affected>, depth: Depths, n: EntityId, v: EntityId, d: nat, a: Affected)
    requires n in depth && v !in depth && v !in found && Expanded(g, found, depth, n)
    ensures Expanded(g, found[v := a], depth[v := d], n)
  {
    forall e, w | Step(g, n, e, w)
      ensures Covered(found[v := a], depth[v := d], n, e, w, depth[v := d][n] + 1, EdgeScore(depth[v := d][n], e))
    {
      assert Covered(found, depth, n, e, w, depth[n] + 1, EdgeScore(depth[n], e));
    }
  }

  // ---------- Adjacency ----------

  function Incoming(es: seq<CodeEdge>, b: Bounds, id: EntityId): (r: seq<CodeEdge>)
    ensures forall e :: e in r <==> e in es && Allowed(e, b) && e.to == id
  {
    if es == [] then []
    else
      var last := es[|es| - 1];
      Incoming(es[..|es| - 1], b, id) + (if Allowed(last, b) && last.to == id then [last] else [])
  }

  function Outgoing(es: seq<CodeEdge>, b: Bounds, id: EntityId): (r: seq<CodeEdge>)
    ensures forall e :: e in r <==> e in es && Allowed(e, b) && e.from == id
  {
    if es == [] then []
    else
      var last := es[|es| - 1];
      Outgoing(es[..|es| - 1], b, id) + (if Allowed(last, b) && last.from == id then [last] else [])
  }

  ghost predicate Indexed(
      es: seq<CodeEdge>, b: Bounds, inbound: map<EntityId, seq<CodeEdge>>,
      outbound: map<EntityId, seq<CodeEdge>>)
  {
    && (forall id :: EdgesAt(inbound, id) == Incoming(es, b, id))
    && (forall id :: EdgesAt(outbound, id) == Outgoing(es, b, id))
  }

  function EdgesAt(index: map<EntityId, seq<CodeEdge>>, id: EntityId): seq<CodeEdge> {
    if id in index then index[id] else []
  }

  lemma IncomingStep(es: seq<CodeEdge>, edge: CodeEdge, b: Bounds, id: EntityId)
    ensures Incoming(es + [edge], b, id) == Incoming(es, b, id) +
            (if Allowed(edge, b) && edge.to == id then [edge] else [])
    ensures Outgoing(es + [edge], b, id) == Outgoing(es, b, id) +
            (if Allowed(edge, b) && edge.from == id then [edge] else [])
  {
    hide Allowed;
    var all := es + [edge];
    assert all[..|all| - 1] == es;
  }

  lemma IndexStep(
      es: seq<CodeEdge>, edge: CodeEdge, b: Bounds, inbound: map<EntityId, seq<CodeEdge>>,
      outbound: map<EntityId, seq<CodeEdge>>)
    requires Indexed(es, b, inbound, outbound)
    ensures if Allowed(edge, b)
            then Indexed(es + [edge], b, inbound[edge.to := EdgesAt(inbound, edge.to) + [edge]],
                         outbound[edge.from := EdgesAt(outbound, edge.from) + [edge]])
            else Indexed(es + [edge], b, inbound, outbound)
  {
    hide Allowed, Incoming, Outgoing;
    var ins := if Allowed(edge, b) then inbound[edge.to := EdgesAt(inbound, edge.to) + [edge]] else inbound;
    var outs := if Allowed(edge, b) then outbound[edge.from := EdgesAt(outbound, edge.from) + [edge]] else outbound;
    forall id ensures EdgesAt(ins, id) == Incoming(es + [edge], b, id) {
      IncomingStep(es, edge, b, id);
      assert EdgesAt(inbound, id) == Incoming(es, b, id);
    }
    forall id ensures EdgesAt(outs, id) == Outgoing(es + [edge], b, id) {
      IncomingStep(es, edge, b, id);
      assert EdgesAt(outbound, id) == Outgoing(es, b, id);
    }
  }

  method BuildIndex(
      es: seq<CodeEdge>, b: Bounds)
      returns (inbound: map<EntityId, seq<CodeEdge>>, outbound: map<EntityId, seq<CodeEdge>>)
    ensures Indexed(es, b, inbound, outbound)
  {
    hide Allowed;
    inbound, outbound := map[], map[];
    for i := 0 to |es|
      invariant Indexed(es[..i], b, inbound, outbound)
    {
      var edge := es[i];
      assert es[..i + 1] == es[..i] + [edge];
      IndexStep(es[..i], edge, b, inbound, outbound);
      if !Allowed(edge, b) { continue; }
      inbound := inbound[edge.to := EdgesAt(inbound, edge.to) + [edge]];
      outbound := outbound[edge.from := EdgesAt(outbound, edge.from) + [edge]];
    }
    assert es[..|es|] == es;
  }

  function OfKind(es: seq<CodeEdge>, contains: bool): (r: seq<CodeEdge>)
    ensures forall e :: e in r <==> e in es && (e.kind == Contains) == contains
  {
    if es == [] then [] else (if (es[0].kind == Contains) == contains then [es[0]] else []) + OfKind(es[1..], contains)
  }

  /** The edges along which impact may leave an entity. */
  ghost predicate LeadsFrom(g: Graph, adjacent: seq<CodeEdge>, u: EntityId) {
    && (forall e :: e in adjacent <==>
       e in g.edges && Allowed(e, g.bounds) && if e.kind == Contains then e.from == u else e.to == u)
  }

  function Other(e: CodeEdge, u: EntityId): EntityId { if e.from == u then e.to else e.from }

  lemma OtherSteps(g: Graph, adjacent: seq<CodeEdge>, u: EntityId, e: CodeEdge)
    requires LeadsFrom(g, adjacent, u)
    ensures forall v :: Step(g, u, e, v) <==> e in adjacent && v == Other(e, u) && v in g.known
  {
    hide Allowed;
  }

  // ---------- The traversal ----------

  /** The entries followed so far have led to covered entities. */
  ghost predicate Followed(
      g: Graph, found: map<EntityId, Affected>, depth: Depths, u: EntityId, adjacent: seq<CodeEdge>, j: int)
  {
    u in depth && forall i :: 0 <= i < j && i < |adjacent| && Other(adjacent[i], u) in g.known ==>
      Covered(found, depth, u, adjacent[i], Other(adjacent[i], u), depth[u] + 1, EdgeScore(depth[u], adjacent[i]))
  }

  lemma FollowedAll(g: Graph, found: map<EntityId, Affected>, depth: Depths, u: EntityId, adjacent: seq<CodeEdge>)
    requires u in depth && LeadsFrom(g, adjacent, u) && Followed(g, found, depth, u, adjacent, |adjacent|)
    ensures Expanded(g, found, depth, u)
  {
    hide Allowed, Step, Covered, LeadsFrom, Other;
    forall e, v | Step(g, u, e, v) ensures Covered(found, depth, u, e, v, depth[u] + 1, EdgeScore(depth[u], e)) {
      OtherSteps(g, adjacent, u, e);
      var i :| 0 <= i < |adjacent| && adjacent[i] == e;
    }
  }

  lemma FollowedStays(
      g: Graph, found: map<EntityId, Affected>, depth: Depths, found': map<EntityId, Affected>, depth': Depths,
      u: EntityId, adjacent: seq<CodeEdge>, j: nat)
    requires u in depth && Followed(g, found, depth, u, adjacent, j) && u in depth' && depth'[u] == depth[u]
    requires forall v :: v in found && v in depth ==>
             v in found' && v in depth' && Grew(found[v], found'[v]) && depth'[v] == depth[v]
    requires j < |adjacent| && Other(adjacent[j], u) in g.known ==>
               Covered(found', depth', u, adjacent[j], Other(adjacent[j], u), depth[u] + 1,
                       EdgeScore(depth[u], adjacent[j]))
    ensures Followed(g, found', depth', u, adjacent, j + 1)
  {
    hide Other, EdgeScore;
  }

  lemma SettledAll(g: Graph, found: map<EntityId, Affected>, depth: Depths, current: Visit, queue: seq<Visit>)
    requires Settled(g, found, depth, [current] + queue) && current.id in depth
    requires depth[current.id] < g.bounds.maxDepth ==> Expanded(g, found, depth, current.id)
    ensures Settled(g, found, depth, queue)
  {
    hide Expanded;
    forall n | n in depth && !Waiting(queue, n) && depth[n] < g.bounds.maxDepth ensures Expanded(g, found, depth, n) {
      if n != current.id { NotWaiting(current, queue, n); }
    }
  }

  lemma NotWaiting(current: Visit, queue: seq<Visit>, n: EntityId)
    requires !Waiting(queue, n) && n != current.id
    ensures !Waiting([current] + queue, n)
  {
    var all := [current] + queue;
    assert forall i :: 0 < i < |all| ==> all[i] == queue[i - 1];
  }

  lemma KnownDepth(g: Graph, depth: Depths, queue: seq<Visit>, level: nat, v: EntityId)
    requires Layered(g, depth, queue, level) && v in depth
    ensures depth[v] <= level + 1
  {
  }

  lemma Room(g: Graph, found: map<EntityId, Affected>, v: EntityId)
    requires v !in found && Within(g, v, g.bounds.maxDepth) && |found| >= g.bounds.maxEntities
    ensures Missing(g, found, v)
  {
  }

  lemma MissingRaised(g: Graph, found: map<EntityId, Affected>, v: EntityId, w: EntityId, a: Affected)
    requires Missing(g, found, v) && w in found
    ensures Missing(g, found[w := a], v)
  {
    assert found[w := a].Keys == found.Keys;
    assert |found[w := a]| == |found[w := a].Keys| == |found.Keys| == |found|;
  }

  lemma OneMore(found: map<EntityId, Affected>, v: EntityId, a: Affected)
    ensures |found[v := a]| == |found| + (if v in found then 0 else 1)
  {
    assert found[v := a].Keys == found.Keys + {v};
    assert |found[v := a]| == |found[v := a].Keys| && |found| == |found.Keys|;
  }

  ghost predicate Searching(
      g: Graph, found: map<EntityId, Affected>, depth: Depths, queue: seq<Visit>, open: seq<Visit>, level: nat,
      truncated: bool, missed: EntityId)
  {
    && Sound(g, found, depth) && Layered(g, depth, queue, level)
    && (if truncated then Missing(g, found, missed) else Settled(g, found, depth, open))
    && |found| <= Max(g.bounds.maxEntities, |g.targets|)
  }

  /** The current entity is being expanded: the first entries have been followed, unless room ran out. */
  ghost predicate Turn(
      g: Graph, found: map<EntityId, Affected>, depth: Depths, queue: seq<Visit>, truncated: bool, missed: EntityId,
      current: Visit, adjacent: seq<CodeEdge>, j: int)
  {
    && Searching(g, found, depth, queue, [current] + queue, current.depth, truncated, missed)
    && Pending(g, depth, current, current.depth) && current.depth < g.bounds.maxDepth
    && LeadsFrom(g, adjacent, current.id)
    && (!truncated ==> Followed(g, found, depth, current.id, adjacent, j))
  }

  lemma TurnStart(
      g: Graph, found: map<EntityId, Affected>, depth: Depths, queue: seq<Visit>, truncated: bool, missed: EntityId,
      current: Visit, adjacent: seq<CodeEdge>)
    requires Searching(g, found, depth, queue, [current] + queue, current.depth, truncated, missed)
    requires Pending(g, depth, current, current.depth) && current.depth < g.bounds.maxDepth &&
             LeadsFrom(g, adjacent, current.id)
    ensures Turn(g, found, depth, queue, truncated, missed, current, adjacent, 0)
  {
    hide Searching, LeadsFrom, Way;
  }

  lemma TurnEnd(
      g: Graph, found: map<EntityId, Affected>, depth: Depths, queue: seq<Visit>, truncated: bool, missed: EntityId,
      current: Visit, adjacent: seq<CodeEdge>)
    requires Turn(g, found, depth, queue, truncated, missed, current, adjacent, |adjacent|)
    ensures Searching(g, found, depth, queue, queue, current.depth, truncated, missed)
  {
    hide Sound, Layered, Settled, Missing, Way, Followed, Expanded, LeadsFrom;
    if !truncated {
      FollowedAll(g, found, depth, current.id, adjacent);
      SettledAll(g, found, depth, current, queue);
    }
  }

  lemma TurnFacts(
      g: Graph, found: map<EntityId, Affected>, depth: Depths, queue: seq<Visit>, truncated: bool, missed: EntityId,
      current: Visit, adjacent: seq<CodeEdge>, j: nat)
    requires Turn(g, found, depth, queue, truncated, missed, current, adjacent, j) && j < |adjacent|
    ensures found.Keys == depth.Keys && found.Keys <= g.known
    ensures current.id in depth && depth[current.id] == current.depth
    ensures var v := Other(adjacent[j], current.id);
            v in g.known ==> Stepping(g, found, depth, current.id, current.path, adjacent[j], v)
  {
    hide Sound, Layered, Settled, Missing, Way, Followed, Expanded, LeadsFrom, Step, Other;
    SoundKeys(g, found, depth);
    OtherSteps(g, adjacent, current.id, adjacent[j]);
  }

  /** The entry leads outside the known entities: nothing happens. */
  lemma TurnUnknown(
      g: Graph, found: map<EntityId, Affected>, depth: Depths, queue: seq<Visit>, truncated: bool, missed: EntityId,
      current: Visit, adjacent: seq<CodeEdge>, j: nat)
    requires Turn(g, found, depth, queue, truncated, missed, current, adjacent, j) && j < |adjacent|
    requires Other(adjacent[j], current.id) !in g.known
    ensures Turn(g, found, depth, queue, truncated, missed, current, adjacent, j + 1)
  {
    hide Searching, Way, LeadsFrom, Other, Covered, EdgeScore;
  }

  /** The entry leads to an entity found before: its score is raised and the reason added. */
  lemma TurnAgain(
      g: Graph, found: map<EntityId, Affected>, depth: Depths, queue: seq<Visit>, truncated: bool, missed: EntityId,
      current: Visit, adjacent: seq<CodeEdge>, j: nat)
    requires Turn(g, found, depth, queue, truncated, missed, current, adjacent, j) && j < |adjacent|
    requires Other(adjacent[j], current.id) in found
    ensures var v := Other(adjacent[j], current.id);
            var raised := Again(found[v], StepReason(current.path, current.depth, current.id, adjacent[j], v));
            Turn(g, found[v := raised], depth, queue, truncated, missed, current, adjacent, j + 1)
  {
    hide Sound, Layered, Settled, Missing, Way, Followed, Expanded, LeadsFrom, Step, Other, EdgeScore, Stepping;
    var e, u, v := adjacent[j], current.id, Other(adjacent[j], current.id);
    TurnFacts(g, found, depth, queue, truncated, missed, current, adjacent, j);
    var raised := Again(found[v], StepReason(current.path, current.depth, u, e, v));
    SeenAgain(g, found, depth, [current] + queue, u, current.path, e, v);
    OneMore(found, v, raised);
    if truncated {
      MissingRaised(g, found, missed, v, raised);
    } else {
      KnownDepth(g, depth, queue, current.depth, v);
      AgainTells(found[v], current.path, current.depth, u, e, v);
      FollowedStays(g, found, depth, found[v := raised], depth, u, adjacent, j);
    }
  }

  /** The entry leads to a new entity, but there is no room: the search is truncated. */
  lemma TurnFull(
      g: Graph, found: map<EntityId, Affected>, depth: Depths, queue: seq<Visit>, truncated: bool, missed: EntityId,
      current: Visit, adjacent: seq<CodeEdge>, j: nat)
    requires Turn(g, found, depth, queue, truncated, missed, current, adjacent, j) && j < |adjacent|
    requires Other(adjacent[j], current.id) in g.known && Other(adjacent[j], current.id) !in found &&
             |found| >= g.bounds.maxEntities
    ensures Turn(g, found, depth, queue, true, Other(adjacent[j], current.id), current, adjacent, j + 1)
  {
    hide Sound, Layered, Settled, Missing, Way, Followed, Expanded, LeadsFrom, Step, Other, EdgeScore, Stepping;
    var v := Other(adjacent[j], current.id);
    TurnFacts(g, found, depth, queue, truncated, missed, current, adjacent, j);
    ReasonIsReal(g, found, depth, current.id, current.path, adjacent[j], v);
    Room(g, found, v);
  }

  lemma FirstFollowed(
      g: Graph, found: map<EntityId, Affected>, depth: Depths, u: EntityId, adjacent: seq<CodeEdge>, j: nat,
      a: Affected)
    requires Followed(g, found, depth, u, adjacent, j) && found.Keys == depth.Keys && j < |adjacent|
    requires Other(adjacent[j], u) !in found && a.score == EdgeScore(depth[u], adjacent[j])
    requires Told(a, u, adjacent[j], Other(adjacent[j], u), EdgeScore(depth[u], adjacent[j]))
    ensures var v := Other(adjacent[j], u); Followed(g, found[v := a], depth[v := depth[u] + 1], u, adjacent, j + 1)
  {
    hide Other, EdgeScore;
    var v := Other(adjacent[j], u);
    FollowedStays(g, found, depth, found[v := a], depth[v := depth[u] + 1], u, adjacent, j);
  }

  lemma PendingStays(g: Graph, depth: Depths, q: Visit, v: EntityId, d: nat)
    requires Pending(g, depth, q, q.depth) && v !in depth
    ensures Pending(g, depth[v := d], q, q.depth)
  {
    hide Way;
  }

  /** The entry leads to a new entity, which is found and queued. */
  lemma TurnFirst(
      g: Graph, found: map<EntityId, Affected>, depth: Depths, queue: seq<Visit>, truncated: bool, missed: EntityId,
      current: Visit, adjacent: seq<CodeEdge>, j: nat, v: EntityId, entity: CodeEntity, r: Reason,
      visit: Visit)
    requires j < |adjacent| && v == Other(adjacent[j], current.id) && v in g.known && v !in found &&
             |found| < g.bounds.maxEntities
    requires entity.id == v && r == StepReason(current.path, current.depth, current.id, adjacent[j], v)
    requires visit == Visit(v, current.depth + 1, r.entityPath)
    requires Turn(g, found, depth, queue, truncated, missed, current, adjacent, j)
    ensures Turn(g, found[v := Affected(entity, r.score, [r])], depth[v := visit.depth], queue + [visit],
                 truncated, missed, current, adjacent, j + 1)
  {
    hide Sound, Layered, Settled, Missing, Way, Within, Followed, Expanded, LeadsFrom, Step, Other, EdgeScore, Stepping,
         Pending, Searching, Turn, Again, StepReason;
    var e, u := adjacent[j], current.id;
    TurnParts(g, found, depth, queue, truncated, missed, current, adjacent, j);
    assert r.score == EdgeScore(current.depth, e) && r.entityPath == current.path + [v] &&
        Told(Affected(entity, r.score, [r]), u, e, v, EdgeScore(current.depth, e)) by {
      StepReasonParts(current.path, current.depth, u, e, v);
      StepTells(entity, current.path, current.depth, u, e, v);
    }
    TurnFacts(g, found, depth, queue, truncated, missed, current, adjacent, j);
    var first := Affected(entity, r.score, [r]);
    RoomLeft(g, found, depth, queue, [current] + queue, current.depth, truncated, missed);
    ReasonIsReal(g, found, depth, u, current.path, e, v);
    SeenFirst(g, found, depth, u, current.path, e, v, entity, visit.depth, r);
    FirstSearching(g, found, depth, queue, [current] + queue, current.depth, truncated, missed, first, visit);
    FirstFollowed(g, found, depth, u, adjacent, j, first);
    PendingStays(g, depth, current, v, visit.depth);
    FirstTurn(g, found[v := first], depth[v := visit.depth], queue, truncated, missed, current, adjacent, j + 1, visit);
  }

  lemma StepTells(entity: CodeEntity, path: seq<EntityId>, depth: nat, u: EntityId, e: CodeEdge, v: EntityId)
    ensures var r := StepReason(path, depth, u, e, v);
            Told(Affected(entity, r.score, [r]), u, e, v, EdgeScore(depth, e))
  {
    var r := StepReason(path, depth, u, e, v);
    assert r in [r];
  }

  lemma AgainTells(a: Affected, path: seq<EntityId>, depth: nat, u: EntityId, e: CodeEdge, v: EntityId)
    ensures var b := Again(a, StepReason(path, depth, u, e, v)); Grew(a, b) && Told(b, u, e, v, EdgeScore(depth, e))
  {
    var r := StepReason(path, depth, u, e, v);
    assert r in a.reasons + [r];
  }

  lemma StepReasonParts(path: seq<EntityId>, depth: nat, u: EntityId, e: CodeEdge, v: EntityId)
    ensures StepReason(path, depth, u, e, v).score == EdgeScore(depth, e)
    ensures StepReason(path, depth, u, e, v).entityPath == path + [v]
  {
  }

  lemma TurnParts(
      g: Graph, found: map<EntityId, Affected>, depth: Depths, queue: seq<Visit>, truncated: bool, missed: EntityId,
      current: Visit, adjacent: seq<CodeEdge>, j: nat)
    requires Turn(g, found, depth, queue, truncated, missed, current, adjacent, j)
    ensures Searching(g, found, depth, queue, [current] + queue, current.depth, truncated, missed)
    ensures Pending(g, depth, current, current.depth) && current.depth < g.bounds.maxDepth &&
            LeadsFrom(g, adjacent, current.id)
    ensures !truncated ==> Followed(g, found, depth, current.id, adjacent, j)
  {
    hide Searching, Pending, LeadsFrom, Followed;
  }

  lemma FirstTurn(
      g: Graph, found: map<EntityId, Affected>, depth: Depths, queue: seq<Visit>, truncated: bool, missed: EntityId,
      current: Visit, adjacent: seq<CodeEdge>, j: nat, visit: Visit)
    requires Searching(g, found, depth, queue + [visit], [current] + queue + [visit], current.depth, truncated, missed)
    requires Pending(g, depth, current, current.depth) && current.depth < g.bounds.maxDepth &&
             LeadsFrom(g, adjacent, current.id)
    requires Followed(g, found, depth, current.id, adjacent, j)
    ensures Turn(g, found, depth, queue + [visit], truncated, missed, current, adjacent, j)
  {
    hide Searching, Pending, LeadsFrom, Followed;
    assert [current] + queue + [visit] == [current] + (queue + [visit]);
  }

  lemma RoomLeft(
      g: Graph, found: map<EntityId, Affected>, depth: Depths, queue: seq<Visit>, open: seq<Visit>, level: nat,
      truncated: bool, missed: EntityId)
    requires Searching(g, found, depth, queue, open, level, truncated, missed) && |found| < g.bounds.maxEntities
    ensures !truncated
  {
    hide Sound, Layered, Settled, Within;
  }

  lemma FirstSearching(
      g: Graph, found: map<EntityId, Affected>, depth: Depths, queue: seq<Visit>, open: seq<Visit>, level: nat,
      truncated: bool, missed: EntityId,
      a: Affected, visit: Visit)
    requires Searching(g, found, depth, queue, open, level, truncated, missed) && !truncated &&
             |found| < g.bounds.maxEntities
    requires visit.id !in found && found.Keys == depth.Keys && visit.depth == level + 1
    requires Way(g, visit.path, visit.id) && |visit.path| == level + 2
    requires Sound(g, found[visit.id := a], depth[visit.id := level + 1])
    ensures Searching(g, found[visit.id := a], depth[visit.id := level + 1], queue + [visit], open + [visit], level,
            truncated, missed)
  {
    hide Sound, Layered, Settled, Missing, Way;
    NewLayer(g, depth, queue, level, visit.id, visit.path);
    OneMore(found, visit.id, a);
    NewSettled(g, found, depth, open, visit.id, visit.depth, a, visit);
  }

  /** Each entry holds an entity of the input. */
  ghost predicate FromInput(found: map<EntityId, Affected>, entities: seq<CodeEntity>) {
    forall v :: v in found ==> found[v].entity in entities
  }

  /** Follows the edges that lead from the current entity. */
  method Expand(
      g: Graph, entities: seq<CodeEntity>, byId: map<EntityId, CodeEntity>, adjacent: seq<CodeEdge>, current: Visit,
      found0: map<EntityId, Affected>, ghost depth0: Depths, queue0: seq<Visit>, truncated0: bool,
      ghost missed0: EntityId)
    returns (found: map<EntityId, Affected>, ghost depth: Depths, queue: seq<Visit>, truncated: bool,
            ghost missed: EntityId)
    requires byId.Keys == g.known && forall id :: id in byId ==> byId[id].id == id && byId[id] in entities
    requires Turn(g, found0, depth0, queue0, truncated0, missed0, current, adjacent, 0) && FromInput(found0, entities)
    ensures Searching(g, found, depth, queue, queue, current.depth, truncated, missed) && FromInput(found, entities)
    ensures depth0.Keys <= depth.Keys && (depth.Keys == depth0.Keys ==> queue == queue0)
  {
    hide Turn, Searching, Stepping, EdgeScore;
    found, depth, queue, truncated, missed := found0, depth0, queue0, truncated0, missed0;
    for j := 0 to |adjacent|
      invariant Turn(g, found, depth, queue, truncated, missed, current, adjacent, j) && FromInput(found, entities)
      invariant depth0.Keys <= depth.Keys && (depth.Keys == depth0.Keys ==> queue == queue0)
    {
      var edge := adjacent[j];
      var nextId := if edge.from == current.id then edge.to else edge.from;
      TurnFacts(g, found, depth, queue, truncated, missed, current, adjacent, j);
      if nextId !in byId {
        TurnUnknown(g, found, depth, queue, truncated, missed, current, adjacent, j);
        continue;
      }
      var nextReason := StepReason(current.path, current.depth, current.id, edge, nextId);
      if nextId in found {
        TurnAgain(g, found, depth, queue, truncated, missed, current, adjacent, j);
        found := found[nextId := Again(found[nextId], nextReason)];
        continue;
      }
      if |found| >= g.bounds.maxEntities {
        TurnFull(g, found, depth, queue, truncated, missed, current, adjacent, j);
        truncated := true;
        missed := nextId;
        continue;
      }
      var visit := Visit(nextId, current.depth + 1, nextReason.entityPath);
      TurnFirst(g, found, depth, queue, truncated, missed, current, adjacent, j, nextId, byId[nextId], nextReason,
        visit);
      found := found[nextId := Affected(byId[nextId], nextReason.score, [nextReason])];
      depth := depth[nextId := visit.depth];
      queue := queue + [visit];
    }
    TurnEnd(g, found, depth, queue, truncated, missed, current, adjacent);
  }

  lemma SoundKeys(g: Graph, found: map<EntityId, Affected>, depth: Depths)
    requires Sound(g, found, depth)
    ensures found.Keys == depth.Keys && g.targets <= found.Keys && found.Keys <= g.known
  {
    hide Justified, Attained;
    forall v | v in found ensures v in g.known { assert Entry(g, depth, v, found[v]); }
  }

  /** What the traversal promises, without mention of the search. */
  ghost predicate Explores(g: Graph, entities: seq<CodeEntity>, found: map<EntityId, Affected>, truncated: bool) {
    && FromInput(found, entities)
    && |found| <= Max(g.bounds.maxEntities, |g.targets|)
    && (forall v :: v in found ==> Within(g, v, g.bounds.maxDepth) && Justified(g, v, found[v]))
    && (truncated <==> exists v :: Within(g, v, g.bounds.maxDepth) && v !in found)
    && (!truncated ==> forall v :: v in found && v !in g.targets ==> BestStep(g, v, found[v].score))
    && (!truncated ==> forall u, e, v, d: nat :: d < g.bounds.maxDepth && AtDistance(g, u, d) && Step(g, u, e, v) ==>
          v in found && Told(found[v], u, e, v, StepWorth(d + 1, e.kind)))
  }

  method GraphTraversal(targets: seq<CodeEntity>, entities: seq<CodeEntity>, edges: seq<CodeEdge>, bounds: Bounds)
    returns (found: map<EntityId, Affected>, truncated: bool)
    requires forall t :: t in targets ==> t in entities
    ensures Explores(Graph(EntityIds(targets), EntityIds(entities), edges, bounds), entities, found, truncated)
  {
    hide Searching, Turn, Sound, Layered, Settled, Way, Within, Missing, Allowed, Indexed, Incoming, Outgoing, Explores,
         Pending, LeadsFrom, FromInput, Seeded, OfKind;
    var g := Graph(EntityIds(targets), EntityIds(entities), edges, bounds);
    var byId := ById(entities);
    var inbound, outbound := BuildIndex(edges, bounds);
    var queue;
    found, queue := Seed(g, targets);
    ghost var depth: Depths := map id | id in found :: 0;
    truncated := false;
    ghost var missed, level: nat := 0, 0;
    assert g.targets <= g.known;
    SeedSearching(g, targets, found, depth, queue);
    SeedFromInput(targets, entities, found, queue);
    while queue != []
      invariant Searching(g, found, depth, queue, queue, level, truncated, missed) && FromInput(found, entities)
      decreases g.known - depth.Keys, |queue|
    {
      ghost var known := depth.Keys;
      found, depth, queue, level, truncated, missed :=
        VisitFirst(g, entities, byId, inbound, outbound, found, depth, queue, level, truncated, missed);
      SearchKeys(g, found, depth, queue, level, truncated, missed);
      if depth.Keys != known {
        var n :| n in depth.Keys && n !in known;
        assert n in g.known - known && n !in g.known - depth.Keys;
      }
    }
    SearchExplores(g, entities, found, depth, level, truncated, missed);
  }

  /** Takes the first visit from the queue: skips it at the depth bound, otherwise follows its edges. */
  method VisitFirst(g: Graph, entities: seq<CodeEntity>, byId: map<EntityId, CodeEntity>,
                    inbound: map<EntityId, seq<CodeEdge>>, outbound: map<EntityId, seq<CodeEdge>>,
                    found0: map<EntityId, Affected>, ghost depth0: Depths, queue0: seq<Visit>, ghost level0: nat,
                    truncated0: bool, ghost missed0: EntityId)
    returns (found: map<EntityId, Affected>, ghost depth: Depths, queue: seq<Visit>, ghost level: nat, truncated: bool,
            ghost missed: EntityId)
    requires byId.Keys == g.known && forall id :: id in byId ==> byId[id].id == id && byId[id] in entities
    requires Indexed(g.edges, g.bounds, inbound, outbound) && queue0 != []
    requires FromInput(found0, entities) && Searching(g, found0, depth0, queue0, queue0, level0, truncated0, missed0)
    ensures Searching(g, found, depth, queue, queue, level, truncated, missed) && FromInput(found, entities)
    ensures depth0.Keys <= depth.Keys && (depth.Keys == depth0.Keys ==> |queue| < |queue0|)
  {
    hide Searching, Turn, Sound, Layered, Settled, Way, Within, Missing, Allowed, Indexed, Incoming, Outgoing, Pending,
         LeadsFrom, OfKind, FromInput;
    found, depth, truncated, missed := found0, depth0, truncated0, missed0;
    var current := queue0[0];
    queue := queue0[1..];
    assert queue0 == [current] + queue;
    PopQueue(g, found, depth, current, queue, level0, truncated, missed);
    level := current.depth;
    if current.depth >= g.bounds.maxDepth {
      SkipVisit(g, found, depth, current, queue, truncated, missed);
      return;
    }
    var adjacent := OfKind(EdgesAt(inbound, current.id), false) + OfKind(EdgesAt(outbound, current.id), true);
    AdjacentLeads(g, inbound, outbound, adjacent, current.id);
    TurnStart(g, found, depth, queue, truncated, missed, current, adjacent);
    found, depth, queue, truncated, missed :=
      Expand(g, entities, byId, adjacent, current, found, depth, queue, truncated, missed);
  }

  /** The targets, found at the full score and queued in order. */
  method Seed(g: Graph, targets: seq<CodeEntity>) returns (found: map<EntityId, Affected>, queue: seq<Visit>)
    requires EntityIds(targets) == g.targets
    ensures Seeded(targets, found, queue)
  {
    found, queue := map[], [];
    for i := 0 to |targets|
      invariant Seeded(targets[..i], found, queue)
    {
      var target := targets[i];
      assert targets[..i + 1] == targets[..i] + [target];
      queue := queue + [Visit(target.id, 0, [target.id])];
      found := found[target.id := SeedEntry(target)];
    }
    assert targets[..|targets|] == targets;
  }

  function SeedEntry(t: CodeEntity): Affected {
    Affected(t, TARGET_SCORE, [Reason(ExactScopeOverlap, TARGET_SCORE, ScopeMatches(t.displayName), [t.id])])
  }

  ghost predicate Seeded(targets: seq<CodeEntity>, found: map<EntityId, Affected>, queue: seq<Visit>) {
    && found.Keys == EntityIds(targets)
    && (forall id :: id in found ==>
       found[id].entity in targets && found[id].entity.id == id && found[id] == SeedEntry(found[id].entity))
    && |queue| == |targets|
    && (forall i :: 0 <= i < |queue| ==> queue[i] == Visit(targets[i].id, 0, [targets[i].id]))
  }

  lemma SeedWay(g: Graph, v: EntityId)
    requires v in g.targets
    ensures Way(g, [v], v)
  {
  }

  lemma SeedIsEntry(g: Graph, depth: Depths, t: CodeEntity)
    requires t.id in depth && depth[t.id] == 0 && t.id in g.targets && t.id in g.known
    ensures Entry(g, depth, t.id, SeedEntry(t))
  {
    hide Way, Attained;
    SeedWay(g, t.id);
    var r := SeedEntry(t).reasons[0];
    assert r in SeedEntry(t).reasons;
    assert |[t.id]| == depth[t.id] + 1;
  }

  lemma SeedFromInput(
      targets: seq<CodeEntity>, entities: seq<CodeEntity>, found: map<EntityId, Affected>, queue: seq<Visit>)
    requires Seeded(targets, found, queue) && forall t :: t in targets ==> t in entities
    ensures FromInput(found, entities)
  {
  }

  lemma SeedSound(g: Graph, targets: seq<CodeEntity>, found: map<EntityId, Affected>, depth: Depths, queue: seq<Visit>)
    requires Seeded(targets, found, queue) && EntityIds(targets) == g.targets && g.targets <= g.known
    requires depth == map id | id in found :: 0
    ensures Sound(g, found, depth)
  {
    hide Way, Attained, Entry, SeedEntry;
    forall v | v in found ensures Entry(g, depth, v, found[v]) { SeedIsEntry(g, depth, found[v].entity); }
  }

  lemma SeedQueue(g: Graph, targets: seq<CodeEntity>, found: map<EntityId, Affected>, depth: Depths, queue: seq<Visit>)
    requires Seeded(targets, found, queue) && EntityIds(targets) == g.targets
    requires depth == map id | id in found :: 0
    ensures Layered(g, depth, queue, 0) && forall u :: u in depth ==> Waiting(queue, u)
  {
    hide Way, SeedEntry;
    forall i | 0 <= i < |queue| ensures Pending(g, depth, queue[i], 0) {
      assert targets[i] in targets;
      SeedWay(g, targets[i].id);
    }
    forall u | u in depth ensures Waiting(queue, u) {
      var t :| t in targets && t.id == u;
      var i :| 0 <= i < |targets| && targets[i] == t;
      assert queue[i].id == u;
    }
  }

  lemma SeedSearching(
      g: Graph, targets: seq<CodeEntity>, found: map<EntityId, Affected>, depth: Depths, queue: seq<Visit>)
    requires Seeded(targets, found, queue) && EntityIds(targets) == g.targets && g.targets <= g.known
    requires depth == map id | id in found :: 0
    ensures Searching(g, found, depth, queue, queue, 0, false, 0)
  {
    hide Sound, Layered, Waiting, SeedEntry, EntityIds;
    SeedSound(g, targets, found, depth, queue);
    SeedQueue(g, targets, found, depth, queue);
    assert |found| == |found.Keys|;
  }

  lemma PopQueue(
      g: Graph, found: map<EntityId, Affected>, depth: Depths, current: Visit, queue: seq<Visit>, level: nat,
      truncated: bool, missed: EntityId)
    requires Searching(g, found, depth, [current] + queue, [current] + queue, level, truncated, missed)
    ensures Searching(g, found, depth, queue, [current] + queue, current.depth, truncated, missed)
    ensures Pending(g, depth, current, current.depth)
  {
    hide Sound, Settled, Missing, Way;
    var all := [current] + queue;
    assert all[0] == current;
    assert forall i :: 0 <= i < |queue| ==> queue[i] == all[i + 1];
  }

  lemma SkipVisit(
      g: Graph, found: map<EntityId, Affected>, depth: Depths, current: Visit, queue: seq<Visit>,
      truncated: bool, missed: EntityId)
    requires Searching(g, found, depth, queue, [current] + queue, current.depth, truncated, missed)
    requires Pending(g, depth, current, current.depth) && current.depth >= g.bounds.maxDepth
    ensures Searching(g, found, depth, queue, queue, current.depth, truncated, missed)
  {
    hide Sound, Layered, Settled, Missing, Way;
    if !truncated { SettledAll(g, found, depth, current, queue); }
  }

  lemma AdjacentLeads(
      g: Graph, inbound: map<EntityId, seq<CodeEdge>>, outbound: map<EntityId, seq<CodeEdge>>,
      adjacent: seq<CodeEdge>, u: EntityId)
    requires Indexed(g.edges, g.bounds, inbound, outbound)
    requires adjacent == OfKind(EdgesAt(inbound, u), false) + OfKind(EdgesAt(outbound, u), true)
    ensures LeadsFrom(g, adjacent, u)
  {
    hide Allowed, OfKind, Incoming, Outgoing;
    assert EdgesAt(inbound, u) == Incoming(g.edges, g.bounds, u);
    assert EdgesAt(outbound, u) == Outgoing(g.edges, g.bounds, u);
    assert forall e :: e in adjacent <==>
        e in OfKind(EdgesAt(inbound, u), false) || e in OfKind(EdgesAt(outbound, u), true);
  }

  lemma SearchKeys(
      g: Graph, found: map<EntityId, Affected>, depth: Depths, queue: seq<Visit>, level: nat, truncated: bool,
      missed: EntityId)
    requires Searching(g, found, depth, queue, queue, level, truncated, missed)
    ensures depth.Keys <= g.known
  {
    hide Sound, Layered, Settled, Missing;
    SoundKeys(g, found, depth);
  }

  /** When the queue runs empty and nothing was left out, depths are distances. */
  lemma DepthIsDistance(g: Graph, found: map<EntityId, Affected>, depth: Depths, u: EntityId, d: nat)
    requires d <= g.bounds.maxDepth && Sound(g, found, depth) && Settled(g, found, depth, [])
    ensures (u in depth && depth[u] == d) <==> AtDistance(g, u, d)
  {
    hide Way, Settled, Justified, Attained;
    if u in depth && depth[u] == d {
      assert Entry(g, depth, u, found[u]);
      forall p | Way(g, p, u) ensures d + 1 <= |p| {
        if |p| < d + 1 { WayIsCovered(g, found, depth, [], 0, p, u); }
      }
    }
    if AtDistance(g, u, d) {
      var p :| Way(g, p, u) && |p| == d + 1;
      WayIsCovered(g, found, depth, [], 0, p, u);
      assert Entry(g, depth, u, found[u]);
    }
  }

  lemma ScoreIsBest(g: Graph, found: map<EntityId, Affected>, depth: Depths, v: EntityId)
    requires v in found && v !in g.targets && Sound(g, found, depth) && Settled(g, found, depth, [])
    ensures BestStep(g, v, found[v].score)
  {
    hide Way, AtDistance, Justified, Step, EdgeScore;
    assert Entry(g, depth, v, found[v]);
    var u, e :| u in depth && depth[u] < g.bounds.maxDepth && Step(g, u, e, v) &&
        found[v].score == EdgeScore(depth[u], e);
    DepthIsDistance(g, found, depth, u, depth[u]);
    forall w, f, d: nat | d < g.bounds.maxDepth && AtDistance(g, w, d) && Step(g, w, f, v)
      ensures EdgeScore(d, f) <= found[v].score
    {
      DepthIsDistance(g, found, depth, w, d);
      assert !Waiting([], w);
      assert Expanded(g, found, depth, w);
      assert Covered(found, depth, w, f, v, depth[w] + 1, EdgeScore(depth[w], f));
    }
  }

  /** Every step from an entity nearer than the bound is told by a reason. */
  lemma StepIsTold(
      g: Graph, found: map<EntityId, Affected>, depth: Depths, u: EntityId, e: CodeEdge, v: EntityId, d: nat)
    requires Sound(g, found, depth) && Settled(g, found, depth, [])
    requires d < g.bounds.maxDepth && AtDistance(g, u, d) && Step(g, u, e, v)
    ensures v in found && Told(found[v], u, e, v, StepWorth(d + 1, e.kind))
  {
    hide AtDistance, Justified, Step, EdgeScore, StepWorth, Told, Entry;
    DepthIsDistance(g, found, depth, u, d);
    assert !Waiting([], u);
    assert Expanded(g, found, depth, u);
    assert Covered(found, depth, u, e, v, depth[u] + 1, EdgeScore(depth[u], e));
    WorthOfStep(d, e);
  }

  lemma SearchExplores(
      g: Graph, entities: seq<CodeEntity>, found: map<EntityId, Affected>, depth: Depths, level: nat,
      truncated: bool, missed: EntityId)
    requires Searching(g, found, depth, [], [], level, truncated, missed) && FromInput(found, entities)
    ensures Explores(g, entities, found, truncated)
  {
    hide Way, Justified, Attained, Settled, Layered, BestStep, Told, Step, AtDistance;
    forall v | v in found ensures Within(g, v, g.bounds.maxDepth) && Justified(g, v, found[v]) {
      assert Entry(g, depth, v, found[v]);
    }
    if !truncated {
      forall v | Within(g, v, g.bounds.maxDepth) ensures v in found {
        var p :| Way(g, p, v) && |p| <= g.bounds.maxDepth + 1;
        WayIsCovered(g, found, depth, [], 0, p, v);
      }
      forall v | v in found && v !in g.targets ensures BestStep(g, v, found[v].score) {
        ScoreIsBest(g, found, depth, v);
      }
      forall u, e, v, d: nat | d < g.bounds.maxDepth && AtDistance(g, u, d) && Step(g, u, e, v)
        ensures v in found && Told(found[v], u, e, v, StepWorth(d + 1, e.kind))
      {
        StepIsTold(g, found, depth, u, e, v, d);
      }
    }
  }
}
