/** The bounded directed trace: breadth-first search over a canonical snapshot. */
module GraphTrace {
  import opened Text
  import opened Wrappers
  import opened Sorting
  import opened GraphSnapshot

  const DEFAULT_MAX_DEPTH := 8
  const MAX_DEPTH := 8

  datatype TraceInput = TraceInput(
    snapshot: SnapshotInput, fromNodeId: Text, toNodeId: Text, bounds: Option<PartialBounds>, maxDepth: Option<int>)

  datatype Trace = Trace(
    graphVersion: Text, kind: GraphKind, fromNodeId: Text, toNodeId: Text, maxDepth: int,
    nodes: seq<GraphNode>, edges: seq<GraphEdge>, bounds: GraphBounds,
    found: bool, truncated: bool, degraded: Option<(Text, Text)>)

  datatype Step = Step(nodeId: Text, edge: GraphEdge)

  type Depths = map<Text, nat>

  // ---------- Walks ----------

  /** The edges lead, one after the other, from one node to another. */
  ghost predicate Walk(es: seq<GraphEdge>, from: Text, w: seq<GraphEdge>, to: Text) {
    && (forall i :: 0 <= i < |w| ==> w[i] in es)
    && (forall i :: 0 < i < |w| ==> w[i - 1].target == w[i].source)
    && (if w == [] then from == to else w[0].source == from && w[|w| - 1].target == to)
  }

  /** A walk of this length exists, and none is shorter. */
  ghost predicate AtDistance(es: seq<GraphEdge>, from: Text, to: Text, d: nat) {
    && (exists w :: Walk(es, from, w, to) && |w| == d)
    && NoShorter(es, from, to, d)
  }

  ghost predicate NoShorter(es: seq<GraphEdge>, from: Text, to: Text, d: nat) {
    forall w :: Walk(es, from, w, to) ==> d <= |w|
  }

  ghost predicate ReachableWithin(es: seq<GraphEdge>, from: Text, to: Text, d: nat) {
    exists w :: Walk(es, from, w, to) && |w| <= d
  }

  lemma WalkInit(es: seq<GraphEdge>, from: Text, w: seq<GraphEdge>, to: Text)
    requires Walk(es, from, w, to) && w != []
    ensures var last := w[|w| - 1]; Walk(es, from, w[..|w| - 1], last.source) && last in es && last.target == to
  {
  }

  lemma WalkAppend(es: seq<GraphEdge>, from: Text, w: seq<GraphEdge>, e: GraphEdge)
    requires Walk(es, from, w, e.source) && e in es
    ensures Walk(es, from, w + [e], e.target)
  {
  }

  lemma WalkPrepend(es: seq<GraphEdge>, e: GraphEdge, w: seq<GraphEdge>, to: Text)
    requires Walk(es, e.target, w, to) && e in es
    ensures Walk(es, e.source, [e] + w, to)
  {
  }

  // ---------- The state of the search ----------

  /** Every reached node but the start hangs from a reached node one step nearer. */
  ghost predicate Tree(
      es: seq<GraphEdge>, ids: set<Text>, from: Text, depth: Depths, parent: map<Text, Step>, maxDepth: nat)
  {
    && from in depth && depth[from] == 0 && depth.Keys <= ids
    && (forall n :: n in depth ==> depth[n] <= maxDepth)
    && (forall n :: n in depth && n != from ==> n in parent && Hangs(es, depth, n, parent[n]))
  }

  ghost predicate Hangs(es: seq<GraphEdge>, depth: Depths, n: Text, s: Step)
    requires n in depth
  {
    s.edge in es && s.edge.target == n && s.edge.source == s.nodeId && s.nodeId in depth &&
        depth[n] == depth[s.nodeId] + 1
  }

  /** The queue holds two adjacent layers in order; what left it lies no deeper than the first. */
  ghost predicate Layered(depth: Depths, queue: seq<Text>, level: nat) {
    && (forall i :: 0 <= i < |queue| ==> queue[i] in depth && level <= depth[queue[i]] <= level + 1)
    && (forall i, j :: 0 <= i < j < |queue| ==> depth[queue[i]] <= depth[queue[j]])
    && (forall n :: n in depth && n !in queue ==> depth[n] <= level)
  }

  /** All the node's edges have been followed. */
  ghost predicate Expanded(es: seq<GraphEdge>, depth: Depths, n: Text)
    requires n in depth
  {
    forall e :: e in es && e.source == n ==> e.target in depth && depth[e.target] <= depth[n] + 1
  }

  ghost predicate Settled(es: seq<GraphEdge>, depth: Depths, queue: seq<Text>, maxDepth: nat) {
    forall n :: n in depth && n !in queue && depth[n] < maxDepth ==> Expanded(es, depth, n)
  }

  /** Completeness of the layers: a walk no longer than the current layer ends at a reached node. */
  lemma {:induction false} WalkIsCovered(
      es: seq<GraphEdge>, from: Text, depth: Depths, queue: seq<Text>, level: nat, maxDepth: nat, w: seq<GraphEdge>,
      to: Text)
    requires from in depth && depth[from] == 0
    requires Settled(es, depth, queue, maxDepth)
    requires forall q :: q in queue ==> q in depth && level <= depth[q]
    requires Walk(es, from, w, to) && |w| <= maxDepth && (|w| <= level || queue == [])
    ensures to in depth && depth[to] <= |w|
    decreases |w|
  {
    if w != [] {
      var last := w[|w| - 1];
      WalkInit(es, from, w, to);
      WalkIsCovered(es, from, depth, queue, level, maxDepth, w[..|w| - 1], last.source);
      assert Expanded(es, depth, last.source);
    }
  }

  lemma NotYetReached(
      es: seq<GraphEdge>, from: Text, depth: Depths, queue: seq<Text>, level: nat, maxDepth: nat, to: Text)
    requires from in depth && depth[from] == 0 && to !in depth && level < maxDepth
    requires Settled(es, depth, queue, maxDepth)
    requires forall q :: q in queue ==> q in depth && level <= depth[q]
    ensures NoShorter(es, from, to, level + 1)
  {
    forall w | Walk(es, from, w, to) ensures level + 1 <= |w| {
      if |w| <= level { WalkIsCovered(es, from, depth, queue, level, maxDepth, w, to); }
    }
  }

  /** Reaching one more node keeps the tree and the layers. */
  lemma ReachOne(
      es: seq<GraphEdge>, ids: set<Text>, from: Text, depth: Depths, parent: map<Text, Step>, queue: seq<Text>,
      maxDepth: nat, current: Text, e: GraphEdge)
    requires Tree(es, ids, from, depth, parent, maxDepth) && current in depth && depth[current] < maxDepth
    requires Layered(depth, queue, depth[current])
    requires e in es && e.source == current && e.target !in depth && e.target in ids
    ensures var t := e.target;
            && Tree(es, ids, from, depth[t := depth[current] + 1], parent[t := Step(current, e)], maxDepth)
            && Layered(depth[t := depth[current] + 1], queue + [t], depth[current])
  {
  }

  lemma PopQueue(depth: Depths, queue: seq<Text>, level: nat)
    requires Layered(depth, queue, level) && queue != []
    ensures queue[0] in depth && queue == [queue[0]] + queue[1..]
    ensures forall q :: q in queue ==> q in depth && depth[queue[0]] <= depth[q]
    ensures Layered(depth, queue[1..], depth[queue[0]])
  {
    forall q | q in queue ensures q in depth && depth[queue[0]] <= depth[q] {
      var i :| 0 <= i < |queue| && queue[i] == q;
    }
    forall n | n in depth && n !in queue[1..] ensures depth[n] <= depth[queue[0]] {
      if n in queue { assert n == queue[0]; } else { assert depth[n] <= level; }
    }
  }

  lemma SettledStep(
      es: seq<GraphEdge>, depth: Depths, open: seq<Text>, maxDepth: nat, t: Text, d: nat, open': seq<Text>)
    requires Settled(es, depth, open, maxDepth) && t !in depth
    requires forall n :: n in open' <==> n in open || n == t
    ensures Settled(es, depth[t := d], open', maxDepth)
  {
    hide Expanded;
    forall n | n in depth && n !in open' && depth[n] < maxDepth ensures Expanded(es, depth[t := d], n) {
      ExpandedStays(es, depth, t, d, n);
    }
  }

  lemma SettledAll(es: seq<GraphEdge>, depth: Depths, current: Text, queue: seq<Text>, maxDepth: nat)
    requires Settled(es, depth, [current] + queue, maxDepth) && current in depth
    requires depth[current] < maxDepth ==> Expanded(es, depth, current)
    ensures Settled(es, depth, queue, maxDepth)
  {
    hide Expanded;
  }

  lemma ExpandedStays(es: seq<GraphEdge>, depth: Depths, t: Text, d: nat, n: Text)
    requires n in depth && t !in depth && Expanded(es, depth, n)
    ensures Expanded(es, depth[t := d], n)
  {
  }

  lemma TreeStart(es: seq<GraphEdge>, ids: set<Text>, from: Text, depth: Depths, parent: map<Text, Step>, maxDepth: nat)
    requires Tree(es, ids, from, depth, parent, maxDepth)
    ensures from in depth && depth[from] == 0 && depth.Keys <= ids
  {
  }

  lemma StartState(es: seq<GraphEdge>, ids: set<Text>, from: Text, to: Text, maxDepth: nat)
    ensures from in ids ==> Tree(es, ids, from, map[from := 0], map[], maxDepth)
    ensures Layered(map[from := 0], [from], 0) && Layered(map[], [], 0)
    ensures Settled(es, map[from := 0], [from], maxDepth) && Settled(es, map[], [], maxDepth)
    ensures from == to ==> NoShorter(es, from, to, 0)
  {
  }

  // ---------- Adjacency ----------

  function Outgoing(es: seq<GraphEdge>, id: Text): (r: seq<GraphEdge>)
    ensures forall e :: e in r <==> e in es && e.source == id
  {
    if es == [] then []
    else
      var last := es[|es| - 1];
      Outgoing(es[..|es| - 1], id) + (if last.source == id then [last] else [])
  }

  /** The lists of outgoing edges, as a search looks them up. */
  ghost predicate Adjacent(es: seq<GraphEdge>, adjacency: map<Text, seq<GraphEdge>>) {
    forall id :: if id in adjacency then adjacency[id] == Outgoing(es, id) else Outgoing(es, id) == []
  }

  method BuildAdjacency(es: seq<GraphEdge>) returns (adjacency: map<Text, seq<GraphEdge>>)
    ensures Adjacent(es, adjacency)
  {
    adjacency := map[];
    for i := 0 to |es|
      invariant Adjacent(es[..i], adjacency)
    {
      var edge := es[i];
      assert es[..i + 1][..i] == es[..i];
      var entries := if edge.source in adjacency then adjacency[edge.source] else [];
      adjacency := adjacency[edge.source := entries + [edge]];
    }
    assert es[..|es|] == es;
  }

  function Entries(adjacency: map<Text, seq<GraphEdge>>, id: Text): seq<GraphEdge> {
    if id in adjacency then adjacency[id] else []
  }

  ghost predicate Followed(depth: Depths, entries: seq<GraphEdge>, j: int, bound: nat) {
    forall i :: 0 <= i < j && i < |entries| ==> entries[i].target in depth && depth[entries[i].target] <= bound
  }

  lemma FollowedAll(es: seq<GraphEdge>, depth: Depths, entries: seq<GraphEdge>, current: Text)
    requires current in depth && entries == Outgoing(es, current) &&
             Followed(depth, entries, |entries|, depth[current] + 1)
    ensures Expanded(es, depth, current)
  {
    forall e | e in es && e.source == current ensures e.target in depth && depth[e.target] <= depth[current] + 1 {
      assert e in entries;
    }
  }

  lemma KnownDepth(depth: Depths, queue: seq<Text>, level: nat, n: Text)
    requires Layered(depth, queue, level) && n in depth
    ensures depth[n] <= level + 1
  {
    if n in queue { var i :| 0 <= i < |queue| && queue[i] == n; }
  }

  // ---------- The search ----------

  /** Breadth-first search, stopping as soon as the goal is reached. */
  method Search(
      es: seq<GraphEdge>, ids: set<Text>, adjacency: map<Text, seq<GraphEdge>>, from: Text, to: Text, maxDepth: nat)
    returns (depth: Depths, parent: map<Text, Step>)
    requires Adjacent(es, adjacency) && forall e :: e in es ==> e.source in ids && e.target in ids
    ensures from !in ids ==> depth == map[]
    ensures from in ids ==> Tree(es, ids, from, depth, parent, maxDepth)
    ensures from in ids && to in depth ==> NoShorter(es, from, to, depth[to])
    ensures from in ids && to !in depth ==> Settled(es, depth, [], maxDepth)
  {
    hide Tree, Layered, Settled, Expanded, NoShorter, Outgoing;
    depth, parent := map[], map[];
    var queue := [];
    if from in ids {
      depth := map[from := 0];
      queue := [from];
    }
    ghost var level: nat := 0;
    StartState(es, ids, from, to, maxDepth);
    while queue != [] && to !in depth
      invariant from !in ids ==> depth == map[] && queue == []
      invariant from in ids ==> Tree(es, ids, from, depth, parent, maxDepth)
      invariant Layered(depth, queue, level)
      invariant from in ids && to in depth ==> NoShorter(es, from, to, depth[to])
      invariant to !in depth ==> Settled(es, depth, queue, maxDepth)
      decreases ids - depth.Keys, |queue|
    {
      ghost var whole := queue;
      PopQueue(depth, queue, level);
      var current := queue[0];
      queue := queue[1..];
      var currentDepth := depth[current];
      level := currentDepth;
      TreeStart(es, ids, from, depth, parent, maxDepth);
      if currentDepth >= maxDepth {
        SettledAll(es, depth, current, queue, maxDepth);
        continue;
      }
      NotYetReached(es, from, depth, whole, level, maxDepth, to);
      ghost var known := depth.Keys;
      depth, parent, queue :=
          Expand(es, ids, Entries(adjacency, current), from, to, maxDepth, current, depth, parent, queue);
      TreeStart(es, ids, from, depth, parent, maxDepth);
      if depth.Keys != known {
        var n :| n in depth.Keys && n !in known;
        assert n in ids - known && n !in ids - depth.Keys;
      }
    }
  }

  /** One turn of the search: follow the edges of the current node. */
  method Expand(
      es: seq<GraphEdge>, ids: set<Text>, entries: seq<GraphEdge>, from: Text, to: Text, maxDepth: nat,
      current: Text, depth0: Depths, parent0: map<Text, Step>, queue0: seq<Text>)
    returns (depth: Depths, parent: map<Text, Step>, queue: seq<Text>)
    requires entries == Outgoing(es, current) && forall e :: e in es ==> e.target in ids
    requires Tree(es, ids, from, depth0, parent0, maxDepth) && to !in depth0
    requires current in depth0 && depth0[current] < maxDepth && Layered(depth0, queue0, depth0[current])
    requires Settled(es, depth0, [current] + queue0, maxDepth)
    requires NoShorter(es, from, to, depth0[current] + 1)
    ensures Tree(es, ids, from, depth, parent, maxDepth) && Layered(depth, queue, depth0[current])
    ensures to in depth ==> NoShorter(es, from, to, depth[to])
    ensures to !in depth ==> Settled(es, depth, queue, maxDepth)
    ensures depth0.Keys <= depth.Keys && (depth.Keys == depth0.Keys ==> queue == queue0)
  {
    hide Tree, Layered, Settled, NoShorter, Outgoing, Expanded;
    depth, parent, queue := depth0, parent0, queue0;
    var currentDepth := depth[current];
    for j := 0 to |entries|
      invariant Tree(es, ids, from, depth, parent, maxDepth) && Layered(depth, queue, currentDepth)
      invariant current in depth && depth[current] == currentDepth && to !in depth
      invariant depth0.Keys <= depth.Keys && (depth.Keys == depth0.Keys ==> queue == queue0)
      invariant Settled(es, depth, [current] + queue, maxDepth)
      invariant Followed(depth, entries, j, currentDepth + 1)
    {
      var edge := entries[j];
      var target := edge.target;
      if target in depth {
        KnownDepth(depth, queue, currentDepth, target);
        continue;
      }
      assert edge in es && edge.source == current;
      ReachOne(es, ids, from, depth, parent, queue, maxDepth, current, edge);
      SettledStep(es, depth, [current] + queue, maxDepth, target, currentDepth + 1, [current] + (queue + [target]));
      depth := depth[target := currentDepth + 1];
      parent := parent[target := Step(current, edge)];
      queue := queue + [target];
      if target == to { break; }
    }
    if to !in depth {
      FollowedAll(es, depth, entries, current);
      SettledAll(es, depth, current, queue, maxDepth);
    }
  }

  /** The depths of an exhausted search are the distances, up to the bound. */
  lemma DepthIsDistance(
      es: seq<GraphEdge>, ids: set<Text>, from: Text, depth: Depths, parent: map<Text, Step>, maxDepth: nat,
      n: Text, d: nat)
    requires Tree(es, ids, from, depth, parent, maxDepth) && Settled(es, depth, [], maxDepth) && d <= maxDepth
    ensures (n in depth && depth[n] == d) <==> AtDistance(es, from, n, d)
  {
    if n in depth && depth[n] == d {
      var w := TreeWalk(es, ids, from, depth, parent, maxDepth, n);
      forall v | Walk(es, from, v, n) ensures d <= |v| {
        if |v| < d { WalkIsCovered(es, from, depth, [], 0, maxDepth, v, n); }
      }
    }
    if AtDistance(es, from, n, d) {
      var w :| Walk(es, from, w, n) && |w| == d;
      WalkIsCovered(es, from, depth, [], 0, maxDepth, w, n);
      var v := TreeWalk(es, ids, from, depth, parent, maxDepth, n);
    }
  }

  /** The walk that the parents spell out. */
  lemma {:induction false} TreeWalk(
      es: seq<GraphEdge>, ids: set<Text>, from: Text, depth: Depths, parent: map<Text, Step>, maxDepth: nat,
      n: Text)
    returns (w: seq<GraphEdge>)
    requires Tree(es, ids, from, depth, parent, maxDepth) && n in depth
    ensures Walk(es, from, w, n) && |w| == depth[n]
    decreases depth[n]
  {
    if n == from {
      w := [];
    } else {
      var s := parent[n];
      var v := TreeWalk(es, ids, from, depth, parent, maxDepth, s.nodeId);
      WalkAppend(es, from, v, s.edge);
      w := v + [s.edge];
    }
  }

  // ---------- The selected path ----------

  function EdgeIds(es: seq<GraphEdge>): set<Text> { set e | e in es :: e.id }

  /** The start of each step, and the end. */
  function Stops(w: seq<GraphEdge>, to: Text): set<Text> { (set e | e in w :: e.source) + {to} }

  lemma EmptyPath(es: seq<GraphEdge>, to: Text)
    ensures Walk(es, to, [], to) && Stops([], to) == {to} && EdgeIds([]) == {}
  {
  }

  lemma OneMoreStop(e: GraphEdge, w: seq<GraphEdge>, to: Text)
    ensures Stops([e] + w, to) == Stops(w, to) + {e.source} && EdgeIds([e] + w) == EdgeIds(w) + {e.id}
  {
    assert forall x :: x in [e] + w <==> x == e || x in w;
    assert e in [e] + w;
  }

  /** Follows the parents back from the goal. */
  method Backtrack(
      es: seq<GraphEdge>, ids: set<Text>, from: Text, to: Text, depth: Depths, parent: map<Text, Step>, maxDepth: nat)
    returns (nodeIds: set<Text>, edgeIds: set<Text>, ghost walk: seq<GraphEdge>)
    requires Tree(es, ids, from, depth, parent, maxDepth) && to in depth
    ensures Walk(es, from, walk, to) && |walk| == depth[to]
    ensures nodeIds == Stops(walk, to) && edgeIds == EdgeIds(walk)
  {
    hide Walk, Stops, EdgeIds;
    var current := to;
    nodeIds, edgeIds, walk := {current}, {}, [];
    EmptyPath(es, to);
    while current != from
      invariant current in depth && Walk(es, current, walk, to) && |walk| + depth[current] == depth[to]
      invariant nodeIds == Stops(walk, to) && edgeIds == EdgeIds(walk)
      decreases depth[current]
    {
      var previous := parent[current];
      edgeIds := edgeIds + {previous.edge.id};
      current := previous.nodeId;
      nodeIds := nodeIds + {current};
      WalkPrepend(es, previous.edge, walk, to);
      OneMoreStop(previous.edge, walk, to);
      walk := [previous.edge] + walk;
    }
  }

  function NodesNamed(ns: seq<GraphNode>, ids: set<Text>): (r: seq<GraphNode>)
    ensures forall n :: n in r <==> n in ns && n.id in ids
  {
    if ns == [] then [] else (if ns[0].id in ids then [ns[0]] else []) + NodesNamed(ns[1..], ids)
  }

  function EdgesNamed(es: seq<GraphEdge>, ids: set<Text>): (r: seq<GraphEdge>)
    ensures forall e :: e in r <==> e in es && e.id in ids
  {
    if es == [] then [] else (if es[0].id in ids then [es[0]] else []) + EdgesNamed(es[1..], ids)
  }

  // ---------- The trace ----------

  function DepthBound(input: TraceInput): int {
    if input.maxDepth.Some? then input.maxDepth.value else DEFAULT_MAX_DEPTH
  }

  /** What the request must satisfy before the search starts. */
  predicate Answerable(input: TraceInput, measure: Measure) {
    && Acceptable(input.snapshot, measure)
    && BoundedText(input.fromNodeId, 512) && BoundedText(input.toNodeId, 512)
    && 1 <= DepthBound(input) <= MAX_DEPTH
  }

  /** What the final bounding receives: the named nodes and edges, under the requested bounds. */
  function TracedInput(input: TraceInput, s: Snapshot, nodeIds: set<Text>, edgeIds: set<Text>): SnapshotInput {
    SnapshotInput(
      Header(s.header.graphVersion, s.header.kind, None, None, s.header.degraded),
      NodesNamed(s.nodes, nodeIds), EdgesNamed(s.edges, edgeIds),
      if input.bounds.Some? then input.bounds.value else AsInput(s).bounds, s.truncated)
  }

  /** Some node at exactly the depth bound has edges that the search may not follow. */
  ghost predicate BeyondBound(s: Snapshot, from: Text, maxDepth: nat) {
    from in Ids(s.nodes) && exists e :: e in s.edges && AtDistance(s.edges, from, e.source, maxDepth)
  }

  ghost predicate Findable(s: Snapshot, from: Text, to: Text, maxDepth: nat) {
    from in Ids(s.nodes) && ReachableWithin(s.edges, from, to, maxDepth)
  }

  function AssembleTrace(input: TraceInput, n: Snapshot, found: bool, atBound: bool): Trace {
    Trace(n.header.graphVersion, n.header.kind, input.fromNodeId, input.toNodeId, DepthBound(input),
          n.nodes, n.edges, n.bounds, found, n.truncated || atBound, n.header.degraded)
  }

  /** What a trace says about the canonical snapshot it searched, without mention of the search. */
  ghost predicate Answers(input: TraceInput, s: Snapshot, measure: Measure, r: Option<Trace>, walk: seq<GraphEdge>)
    requires 0 <= DepthBound(input)
  {
    var from, to, maxDepth := input.fromNodeId, input.toNodeId, DepthBound(input);
    var found := Findable(s, from, to, maxDepth);
    && (found ==> Walk(s.edges, from, walk, to) && |walk| <= maxDepth && NoShorter(s.edges, from, to, |walk|))
    && (!found ==> walk == [])
    && var nodeIds := if found then Stops(walk, to) else {from, to} * Ids(s.nodes);
       var n := Normalize(TracedInput(input, s, nodeIds, EdgeIds(walk)), measure);
       r == if n.None? then None
           else Some(AssembleTrace(input, n.value, found, !found && BeyondBound(s, from, maxDepth)))
  }

  method TraceGraphSnapshot(input: TraceInput, measure: Measure) returns (r: Option<Trace>, ghost walk: seq<GraphEdge>)
    ensures !Answerable(input, measure) ==> r == None
    ensures Answerable(input, measure) ==> Answers(input, Normalize(input.snapshot, measure).value, measure, r, walk)
  {
    hide Canonical, Normalize, Acceptable, Walk, Tree, Settled, NoShorter, Adjacent, Ascending, TracedInput,
         AssembleTrace,
         SortBy, AtDistance, ReachableWithin, Stops, Ids, Less, BoundedText, NormalizeBounds;
    walk := [];
    if !Answerable(input, measure) { return None, []; }
    var snapshot := Normalize(input.snapshot, measure).value;
    NormalizeIsCanonical(input.snapshot, measure);
    CanonicalEdges(snapshot, measure);
    var from, to, maxDepth := input.fromNodeId, input.toNodeId, DepthBound(input);
    var ids := Ids(snapshot.nodes);
    var es := SortBy(snapshot.edges, EdgeId);
    var adjacency := BuildAdjacency(es);
    var depth, parent := Search(es, ids, adjacency, from, to, maxDepth);
    var found := from in ids && to in depth;
    var nodeIds, edgeIds := {}, {};
    if found {
      nodeIds, edgeIds, walk := Backtrack(es, ids, from, to, depth, parent, maxDepth);
    } else {
      if from in ids { nodeIds := nodeIds + {from}; }
      if to in ids { nodeIds := nodeIds + {to}; }
      assert nodeIds == {from, to} * ids;
      assert edgeIds == EdgeIds([]);
    }
    SearchDecides(es, ids, from, to, depth, parent, maxDepth);
    if found { TreeBounds(es, ids, from, depth, parent, maxDepth, to); }
    var normalized := Normalize(TracedInput(input, snapshot, nodeIds, edgeIds), measure);
    var frontierAtBound := !found && exists id :: id in depth && depth[id] >= maxDepth && Entries(adjacency, id) != [];
    BoundaryMeans(es, ids, adjacency, from, to, depth, parent, maxDepth);
    r := if normalized.None? then None else Some(AssembleTrace(input, normalized.value, found, frontierAtBound));
  }

  lemma CanonicalEdges(s: Snapshot, measure: Measure)
    requires Canonical(s, measure)
    ensures SortBy(s.edges, EdgeId) == s.edges && forall e :: e in s.edges ==>
            e.source in Ids(s.nodes) && e.target in Ids(s.nodes)
  {
    hide Ascending, SortBy;
    SortOfAscending(s.edges, EdgeId);
  }

  lemma TreeBounds(
      es: seq<GraphEdge>, ids: set<Text>, from: Text, depth: Depths, parent: map<Text, Step>, maxDepth: nat,
      n: Text)
    requires Tree(es, ids, from, depth, parent, maxDepth) && n in depth
    ensures depth[n] <= maxDepth
  {
  }

  /** The search reaches the goal exactly when a walk within the bound does. */
  lemma SearchDecides(
      es: seq<GraphEdge>, ids: set<Text>, from: Text, to: Text, depth: Depths, parent: map<Text, Step>, maxDepth: nat)
    requires from !in ids ==> depth == map[]
    requires from in ids ==> Tree(es, ids, from, depth, parent, maxDepth)
    requires from in ids && to !in depth ==> Settled(es, depth, [], maxDepth)
    ensures (from in ids && to in depth) <==> (from in ids && ReachableWithin(es, from, to, maxDepth))
  {
    if from in ids {
      if to in depth {
        var w := TreeWalk(es, ids, from, depth, parent, maxDepth, to);
      } else if ReachableWithin(es, from, to, maxDepth) {
        var w :| Walk(es, from, w, to) && |w| <= maxDepth;
        WalkIsCovered(es, from, depth, [], 0, maxDepth, w, to);
      }
    }
  }

  /** The flag for an unexplored frontier, in terms of distances. */
  lemma BoundaryMeans(
      es: seq<GraphEdge>, ids: set<Text>, adjacency: map<Text, seq<GraphEdge>>, from: Text, to: Text,
      depth: Depths, parent: map<Text, Step>, maxDepth: nat)
    requires Adjacent(es, adjacency)
    requires from !in ids ==> depth == map[]
    requires from in ids ==> Tree(es, ids, from, depth, parent, maxDepth)
    requires from in ids && to !in depth ==> Settled(es, depth, [], maxDepth)
    ensures !(from in ids && to in depth) ==>
              ((exists id :: id in depth && depth[id] >= maxDepth && Entries(adjacency, id) != []) <==>
               (from in ids && exists e :: e in es && AtDistance(es, from, e.source, maxDepth)))
  {
    hide Walk, AtDistance, Settled;
    if from in ids && to !in depth {
      if id :| id in depth && depth[id] >= maxDepth && Entries(adjacency, id) != [] {
        var e := Entries(adjacency, id)[0];
        assert e in Outgoing(es, id);
        DepthIsDistance(es, ids, from, depth, parent, maxDepth, id, maxDepth);
      }
      if e :| e in es && AtDistance(es, from, e.source, maxDepth) {
        DepthIsDistance(es, ids, from, depth, parent, maxDepth, e.source, maxDepth);
        assert e in Outgoing(es, e.source);
        assert Entries(adjacency, e.source) != [];
      }
    }
  }

  // ---------- What a reader may conclude ----------

  lemma NamedEdges(s: Snapshot, measure: Measure, from: Text, walk: seq<GraphEdge>, to: Text)
    requires Canonical(s, measure) && Walk(s.edges, from, walk, to)
    ensures forall e :: e in EdgesNamed(s.edges, EdgeIds(walk)) <==> e in walk
  {
    hide Ascending, ValidNode, ValidEdge, ValidHeader, CleanNode, CleanEdge;
    UniqueOfAscending(s.edges, EdgeId);
    forall e | e in EdgesNamed(s.edges, EdgeIds(walk)) ensures e in walk {
      var v :| v in walk && v.id == e.id;
      assert EdgeId(v) == EdgeId(e);
    }
  }

  lemma StopsAreNodes(s: Snapshot, measure: Measure, from: Text, walk: seq<GraphEdge>, to: Text)
    requires Canonical(s, measure) && Walk(s.edges, from, walk, to) && from in Ids(s.nodes)
    ensures Stops(walk, to) <= Ids(s.nodes)
  {
    hide Ascending, ValidNode, ValidEdge, ValidHeader, CleanNode, CleanEdge;
  }

  lemma NamedNodes(ns: seq<GraphNode>, ids: set<Text>)
    requires ids <= Ids(ns)
    ensures Ids(NodesNamed(ns, ids)) == ids
  {
    forall id | id in ids ensures id in Ids(NodesNamed(ns, ids)) {
      var n :| n in ns && n.id == id;
    }
  }

  /** Bounding a selection from a canonical snapshot without truncation keeps exactly the selection. */
  lemma UntruncatedKeeps(input: TraceInput, s: Snapshot, nodeIds: set<Text>, edgeIds: set<Text>, measure: Measure)
    requires Canonical(s, measure)
    requires var n := Normalize(TracedInput(input, s, nodeIds, edgeIds), measure); n.Some? && !n.value.truncated
    ensures !s.truncated
    ensures var n := Normalize(TracedInput(input, s, nodeIds, edgeIds), measure).value;
            && (forall e :: e in n.edges <==> e in EdgesNamed(s.edges, edgeIds))
            && (forall m :: m in n.nodes <==> m in NodesNamed(s.nodes, nodeIds))
  {
    hide Ascending, ValidNode, ValidEdge, ValidHeader, Normalize, CleanNode, CleanEdge, Acceptable;
    var picked := TracedInput(input, s, nodeIds, edgeIds);
    var n := Normalize(picked, measure).value;
    TruncatedIsHonest(picked, measure);
    assert CleanNodes(picked.nodes) == picked.nodes;
    assert CleanEdges(picked.edges) == picked.edges;
    MultisetMembers(n.nodes, picked.nodes);
    MultisetMembers(n.edges, picked.edges);
  }

  /** A positive answer that is not truncated lists exactly the steps of a shortest walk, and the nodes on it. */
  lemma FoundShowsPath(input: TraceInput, measure: Measure, r: Option<Trace>, walk: seq<GraphEdge>)
    requires Answerable(input, measure)
    requires Answers(input, Normalize(input.snapshot, measure).value, measure, r, walk)
    requires r.Some? && r.value.found && !r.value.truncated
    ensures Walk(r.value.edges, input.fromNodeId, walk, input.toNodeId) && |walk| <= r.value.maxDepth
    ensures forall e :: e in r.value.edges <==> e in walk
    ensures Ids(r.value.nodes) == Stops(walk, input.toNodeId)
  {
    hide Canonical, Normalize, Acceptable, NoShorter, TracedInput, EdgeIds, Stops, AtDistance, ReachableWithin;
    var s := Normalize(input.snapshot, measure).value;
    NormalizeIsCanonical(input.snapshot, measure);
    NamedEdges(s, measure, input.fromNodeId, walk, input.toNodeId);
    StopsAreNodes(s, measure, input.fromNodeId, walk, input.toNodeId);
    NamedNodes(s.nodes, Stops(walk, input.toNodeId));
    UntruncatedKeeps(input, s, Stops(walk, input.toNodeId), EdgeIds(walk), measure);
  }

  lemma {:induction false} Shortest(es: seq<GraphEdge>, from: Text, to: Text, w: seq<GraphEdge>) returns (d: nat)
    requires Walk(es, from, w, to)
    ensures AtDistance(es, from, to, d) && d <= |w|
    decreases |w|
  {
    if v :| Walk(es, from, v, to) && |v| < |w| {
      d := Shortest(es, from, to, v);
    } else {
      d := |w|;
    }
  }

  /** When no edge leaves a node at the bound, whatever can be reached is reached within the bound. */
  lemma {:induction false} NothingBeyond(es: seq<GraphEdge>, from: Text, w: seq<GraphEdge>, to: Text, maxDepth: nat)
    requires Walk(es, from, w, to) && !exists e :: e in es && AtDistance(es, from, e.source, maxDepth)
    ensures ReachableWithin(es, from, to, maxDepth)
    decreases |w|
  {
    hide Walk, NoShorter;
    if w == [] {
      assert |w| <= maxDepth;
    } else {
      var last := w[|w| - 1];
      WalkInit(es, from, w, to);
      NothingBeyond(es, from, w[..|w| - 1], last.source, maxDepth);
      var v :| Walk(es, from, v, last.source) && |v| <= maxDepth;
      var d := Shortest(es, from, last.source, v);
      var u :| Walk(es, from, u, last.source) && |u| == d;
      WalkAppend(es, from, u, last);
      assert d <= maxDepth - 1;
    }
  }

  lemma CleanEnds(es: seq<GraphEdge>)
    ensures forall i :: 0 <= i < |es| ==>
            CleanEdges(es)[i].source == es[i].source && CleanEdges(es)[i].target == es[i].target
  {
    hide SortEvidence, Mapped;
  }

  lemma CleanWalk(es: seq<GraphEdge>, from: Text, w: seq<GraphEdge>, to: Text)
    requires Walk(es, from, w, to)
    ensures Walk(CleanEdges(es), from, CleanEdges(w), to)
  {
    hide CleanEdge, CleanEdges;
    CleanEnds(w);
    forall i | 0 <= i < |w| ensures CleanEdges(w)[i] in CleanEdges(es) { CleanMember(es, w[i]); }
  }

  /** A negative answer that is not truncated is conclusive: the input's own edges hold no walk of any length. */
  lemma NotFoundIsConclusive(
      input: TraceInput, measure: Measure, r: Option<Trace>, walk: seq<GraphEdge>, w: seq<GraphEdge>)
    requires Answerable(input, measure)
    requires Answers(input, Normalize(input.snapshot, measure).value, measure, r, walk)
    requires r.Some? && !r.value.found && !r.value.truncated
    ensures !(input.fromNodeId in Ids(input.snapshot.nodes) &&
            Walk(input.snapshot.edges, input.fromNodeId, w, input.toNodeId))
  {
    hide Canonical, Normalize, Acceptable, NoShorter, TracedInput, AtDistance, ReachableWithin, CleanEdges, CleanNodes,
         Walk, Ids;
    var from, to := input.fromNodeId, input.toNodeId;
    var s := Normalize(input.snapshot, measure).value;
    NormalizeIsCanonical(input.snapshot, measure);
    UntruncatedKeeps(input, s, {from, to} * Ids(s.nodes), EdgeIds([]), measure);
    TruncatedIsHonest(input.snapshot, measure);
    if from in Ids(input.snapshot.nodes) && Walk(input.snapshot.edges, from, w, to) {
      SameIds(input.snapshot.nodes, s.nodes);
      CleanWalk(input.snapshot.edges, from, w, to);
      SameWalk(CleanEdges(input.snapshot.edges), s.edges, from, CleanEdges(w), to);
      NothingBeyond(s.edges, from, CleanEdges(w), to, DepthBound(input));
    }
  }

  lemma SameWalk(a: seq<GraphEdge>, b: seq<GraphEdge>, from: Text, w: seq<GraphEdge>, to: Text)
    requires multiset(a) == multiset(b) && Walk(a, from, w, to)
    ensures Walk(b, from, w, to)
  {
    MultisetMembers(a, b);
  }

  /** Under the snapshot's own bounds the final bounding never rejects: an answerable question gets an answer. */
  lemma AnsweredUnderOwnBounds(input: TraceInput, measure: Measure, r: Option<Trace>, walk: seq<GraphEdge>)
    requires Answerable(input, measure) && input.bounds.None?
    requires Answers(input, Normalize(input.snapshot, measure).value, measure, r, walk)
    ensures r.Some?
  {
    hide Normalize, Acceptable, NoShorter, AtDistance, ReachableWithin, Walk, Stops, Ids, EdgeIds;
    var s := Normalize(input.snapshot, measure).value;
    NormalizeIsCanonical(input.snapshot, measure);
    var found := Findable(s, input.fromNodeId, input.toNodeId, DepthBound(input));
    var nodeIds := if found then Stops(walk, input.toNodeId) else {input.fromNodeId, input.toNodeId} * Ids(s.nodes);
    SelectionAcceptable(input, s, nodeIds, EdgeIds(walk), measure);
  }

  lemma SelectionAcceptable(input: TraceInput, s: Snapshot, nodeIds: set<Text>, edgeIds: set<Text>, measure: Measure)
    requires Canonical(s, measure) && input.bounds.None?
    ensures Acceptable(TracedInput(input, s, nodeIds, edgeIds), measure)
  {
    hide ValidNode, ValidEdge, Ascending, CleanNode, CleanEdge;
    UniqueOfAscending(s.nodes, NodeId);
    UniqueOfAscending(s.edges, EdgeId);
    NamedNodesUnique(s.nodes, nodeIds);
    NamedEdgesUnique(s.edges, edgeIds);
  }

  lemma {:induction false} NamedNodesUnique(ns: seq<GraphNode>, ids: set<Text>)
    requires UniqueKeys(ns, NodeId)
    ensures UniqueKeys(NodesNamed(ns, ids), NodeId)
  {
    if ns != [] {
      var tail := ns[1..];
      assert forall i :: 0 <= i < |tail| ==> tail[i] == ns[i + 1];
      NamedNodesUnique(tail, ids);
      var r := NodesNamed(tail, ids);
      forall j | 0 <= j < |r| ensures NodeId(r[j]) != NodeId(ns[0]) {
        assert r[j] in r;
        var k :| 0 <= k < |tail| && tail[k] == r[j];
      }
    }
  }

  lemma {:induction false} NamedEdgesUnique(es: seq<GraphEdge>, ids: set<Text>)
    requires UniqueKeys(es, EdgeId)
    ensures UniqueKeys(EdgesNamed(es, ids), EdgeId)
  {
    if es != [] {
      var tail := es[1..];
      assert forall i :: 0 <= i < |tail| ==> tail[i] == es[i + 1];
      NamedEdgesUnique(tail, ids);
      var r := EdgesNamed(tail, ids);
      forall j | 0 <= j < |r| ensures EdgeId(r[j]) != EdgeId(es[0]) {
        assert r[j] in r;
        var k :| 0 <= k < |tail| && tail[k] == r[j];
      }
    }
  }
}
