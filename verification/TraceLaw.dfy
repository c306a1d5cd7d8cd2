/** What a trace takes over from its request, and exactly when it admits to be incomplete. */
module TraceLaw {
  import opened Text
  import opened Wrappers
  import opened Sorting
  import opened GraphSnapshot
  import opened SnapshotLaw
  import opened GraphTrace

  // ---------- A shortest walk passes every node once ----------

  lemma Shortcut(es: seq<GraphEdge>, from: Text, w: seq<GraphEdge>, to: Text, i: nat, j: nat)
    requires Walk(es, from, w, to) && i < j <= |w| && w[i].source == (if j == |w| then to else w[j].source)
    ensures Walk(es, from, w[..i] + w[j..], to)
  {
    var v := w[..i] + w[j..];
    assert forall k :: 0 <= k < |v| ==> v[k] == if k < i then w[k] else w[k + j - i];
  }

  /** The nodes at which the steps of a walk begin. */
  function StartOf(w: seq<GraphEdge>, i: nat): Text
    requires i < |w|
  {
    w[i].source
  }

  lemma NoStopTwice(es: seq<GraphEdge>, from: Text, w: seq<GraphEdge>, to: Text)
    requires Walk(es, from, w, to) && NoShorter(es, from, to, |w|)
    ensures forall i, j :: 0 <= i < j < |w| ==> StartOf(w, i) != StartOf(w, j)
    ensures forall i :: 0 <= i < |w| ==> StartOf(w, i) != to
  {
    hide Walk;
    forall i, j | 0 <= i < j < |w| ensures StartOf(w, i) != StartOf(w, j) {
      if StartOf(w, i) == StartOf(w, j) { Shortcut(es, from, w, to, i, j); }
    }
    forall i | 0 <= i < |w| ensures StartOf(w, i) != to {
      if StartOf(w, i) == to { Shortcut(es, from, w, to, i, |w|); }
    }
  }

  lemma {:induction false} StopsCounted(w: seq<GraphEdge>, to: Text)
    requires forall i, j :: 0 <= i < j < |w| ==> StartOf(w, i) != StartOf(w, j)
    requires forall i :: 0 <= i < |w| ==> StartOf(w, i) != to
    ensures |Stops(w, to)| == |w| + 1
  {
    if w == [] {
      assert Stops(w, to) == {to};
    } else {
      var tail := w[1..];
      assert forall i :: 0 <= i < |tail| ==> StartOf(tail, i) == StartOf(w, i + 1);
      StopsCounted(tail, to);
      OneMoreStop(w[0], tail, to);
      assert [w[0]] + tail == w;
      NewStop(w, tail, to);
      hide Stops;
    }
  }

  lemma NewStop(w: seq<GraphEdge>, tail: seq<GraphEdge>, to: Text)
    requires w != [] && tail == w[1..] && StartOf(w, 0) != to
    requires forall i :: 0 < i < |w| ==> StartOf(w, 0) != StartOf(w, i)
    ensures w[0].source !in Stops(tail, to)
  {
    forall e | e in tail ensures e.source != w[0].source {
      var k :| 0 <= k < |tail| && tail[k] == e;
      assert StartOf(w, 0) != StartOf(w, k + 1);
    }
  }

  // ---------- What a trace selects ----------

  lemma {:induction false} NodesCounted(ns: seq<GraphNode>)
    requires UniqueKeys(ns, NodeId)
    ensures |Ids(ns)| == |ns|
  {
    if ns != [] {
      var tail := ns[1..];
      assert forall i :: 0 <= i < |tail| ==> tail[i] == ns[i + 1];
      forall i, j | 0 <= i < j < |tail| ensures NodeId(tail[i]) != NodeId(tail[j]) {
        assert NodeId(ns[i + 1]) != NodeId(ns[j + 1]);
      }
      NodesCounted(tail);
      forall n | n in tail ensures n.id != ns[0].id {
        var k :| 0 <= k < |tail| && tail[k] == n;
        assert NodeId(ns[0]) != NodeId(ns[k + 1]);
      }
      assert ns == [ns[0]] + tail;
      assert Ids(ns) == Ids(tail) + {ns[0].id};
    }
  }

  lemma {:induction false} EdgesCounted(es: seq<GraphEdge>)
    requires UniqueKeys(es, EdgeId)
    ensures |EdgeIds(es)| == |es|
  {
    if es != [] {
      var tail := es[1..];
      assert forall i :: 0 <= i < |tail| ==> tail[i] == es[i + 1];
      forall i, j | 0 <= i < j < |tail| ensures EdgeId(tail[i]) != EdgeId(tail[j]) {
        assert EdgeId(es[i + 1]) != EdgeId(es[j + 1]);
      }
      EdgesCounted(tail);
      forall e | e in tail ensures e.id != es[0].id {
        var k :| 0 <= k < |tail| && tail[k] == e;
        assert EdgeId(es[0]) != EdgeId(es[k + 1]);
      }
      assert es == [es[0]] + tail;
      assert EdgeIds(es) == EdgeIds(tail) + {es[0].id};
    }
  }

  lemma StepsUnique(s: Snapshot, measure: Measure, from: Text, w: seq<GraphEdge>, to: Text)
    requires Canonical(s, measure) && Walk(s.edges, from, w, to) && NoShorter(s.edges, from, to, |w|)
    ensures UniqueKeys(w, EdgeId)
  {
    hide Ascending, ValidNode, ValidEdge, ValidHeader, CleanNode, CleanEdge, NoShorter;
    NoStopTwice(s.edges, from, w, to);
    UniqueOfAscending(s.edges, EdgeId);
    forall i, j | 0 <= i < j < |w| ensures EdgeId(w[i]) != EdgeId(w[j]) {
      assert w[i] in s.edges && w[j] in s.edges;
      var a :| 0 <= a < |s.edges| && s.edges[a] == w[i];
      var b :| 0 <= b < |s.edges| && s.edges[b] == w[j];
      assert StartOf(w, i) != StartOf(w, j);
      assert a < b ==> EdgeId(s.edges[a]) != EdgeId(s.edges[b]);
      assert b < a ==> EdgeId(s.edges[b]) != EdgeId(s.edges[a]);
    }
  }

  lemma StepsCounted(s: Snapshot, measure: Measure, from: Text, w: seq<GraphEdge>, to: Text)
    requires Canonical(s, measure) && Walk(s.edges, from, w, to) && NoShorter(s.edges, from, to, |w|)
    ensures |EdgesNamed(s.edges, EdgeIds(w))| == |w|
  {
    hide Ascending, ValidNode, ValidEdge, ValidHeader, CleanNode, CleanEdge, NoShorter, Walk, UniqueKeys, Canonical;
    StepsUnique(s, measure, from, w, to);
    EdgesCounted(w);
    NamedEdges(s, measure, from, w, to);
    IdentifiersUnique(s, measure);
    NamedEdgesUnique(s.edges, EdgeIds(w));
    EdgesCounted(EdgesNamed(s.edges, EdgeIds(w)));
    assert EdgeIds(EdgesNamed(s.edges, EdgeIds(w))) == EdgeIds(w);
  }

  lemma IdentifiersUnique(s: Snapshot, measure: Measure)
    requires Canonical(s, measure)
    ensures UniqueKeys(s.edges, EdgeId) && UniqueKeys(s.nodes, NodeId)
  {
    hide Ascending, ValidNode, ValidEdge, ValidHeader, CleanNode, CleanEdge;
    UniqueOfAscending(s.edges, EdgeId);
    UniqueOfAscending(s.nodes, NodeId);
  }

  /** As many nodes are selected as are named. */
  lemma StopsSelected(s: Snapshot, measure: Measure, nodeIds: set<Text>)
    requires Canonical(s, measure) && nodeIds <= Ids(s.nodes)
    ensures var r := NodesNamed(s.nodes, nodeIds); |r| == |nodeIds| && Ids(r) == nodeIds
  {
    hide Canonical, UniqueKeys, Ids;
    IdentifiersUnique(s, measure);
    NamedNodesUnique(s.nodes, nodeIds);
    NamedNodes(s.nodes, nodeIds);
    NodesCounted(NodesNamed(s.nodes, nodeIds));
  }

  /** The selection leads nowhere else. */
  lemma SelectionClosed(
      input: TraceInput, s: Snapshot, measure: Measure, from: Text, w: seq<GraphEdge>, to: Text, nodeIds: set<Text>)
    requires Canonical(s, measure) && nodeIds <= Ids(s.nodes)
    requires w != [] ==> Walk(s.edges, from, w, to) && nodeIds == Stops(w, to)
    ensures !LeadsOut(TracedInput(input, s, nodeIds, EdgeIds(w)))
  {
    hide Canonical, Ids;
    StopsSelected(s, measure, nodeIds);
    if w != [] { NamedEdges(s, measure, from, w, to); }
    forall e | e in EdgesNamed(s.edges, EdgeIds(w)) ensures e.source in nodeIds && e.target in nodeIds {
      assert e in w;
      var k :| 0 <= k < |w| && w[k] == e;
      if k + 1 < |w| { assert w[k].target == w[k + 1].source && w[k + 1] in w; }
    }
  }

  // ---------- What a trace tells ----------

  /** The bounds a trace is given: those asked for, with the usual ones for what is not said, or else the snapshot's. */
  function TraceBounds(input: TraceInput, s: Snapshot): GraphBounds {
    if input.bounds.None? then s.bounds else BoundsOf(input.bounds.value)
  }

  /** Neither the bounds nor the depth kept anything from the answer: of a found goal at this distance, that the walk
      fits; otherwise that both ends fit and no edge leaves a node at the depth bound. */
  ghost predicate Whole(t: Trace, s: Snapshot, distance: nat)
    requires 0 <= t.maxDepth
  {
    if t.found then distance + 1 <= t.bounds.maxNodes && distance <= t.bounds.maxEdges
    else |{t.fromNodeId, t.toNodeId} * Ids(s.nodes)| <= t.bounds.maxNodes && !BeyondBound(s, t.fromNodeId, t.maxDepth)
  }

  lemma TracedTruncated(
      input: TraceInput, s: Snapshot, measure: Measure, from: Text, w: seq<GraphEdge>, to: Text, nodeIds: set<Text>)
    requires Canonical(s, measure) && nodeIds <= Ids(s.nodes)
    requires w != [] ==> Walk(s.edges, from, w, to) && NoShorter(s.edges, from, to, |w|) && nodeIds == Stops(w, to)
    requires Acceptable(TracedInput(input, s, nodeIds, EdgeIds(w)), measure)
    ensures var n := Normalize(TracedInput(input, s, nodeIds, EdgeIds(w)), measure).value;
            && n.bounds == TraceBounds(input, s)
            && n.header == Header(s.header.graphVersion, s.header.kind, None, None, s.header.degraded)
            && n.bounds.maxEdges >= 1
            && (n.truncated <==> s.truncated || |nodeIds| > n.bounds.maxNodes || |w| > n.bounds.maxEdges)
  {
    hide Canonical, Normalize, Acceptable, Walk, NoShorter, Ids, Stops, EdgeIds;
    var picked := TracedInput(input, s, nodeIds, EdgeIds(w));
    TakenOver(picked, measure);
    WithinBounds(picked, measure);
    TruncatedExactly(picked, measure);
    StopsSelected(s, measure, nodeIds);
    SelectionClosed(input, s, measure, from, w, to, nodeIds);
    if w != [] { StepsCounted(s, measure, from, w, to); } else { NoneNamed(s.edges); }
  }

  lemma {:induction false} NoneNamed(es: seq<GraphEdge>)
    ensures EdgesNamed(es, EdgeIds([])) == []
  {
    if es != [] { NoneNamed(es[1..]); }
  }

  /** What an answered trace tells: whether the goal is within reach in the canonical snapshot, what it took over from
      the request, and exactly when it is truncated. */
  lemma TraceTells(input: TraceInput, measure: Measure, r: Option<Trace>, walk: seq<GraphEdge>)
    requires Answerable(input, measure) && r.Some?
    requires Answers(input, Normalize(input.snapshot, measure).value, measure, r, walk)
    ensures var s, t := Normalize(input.snapshot, measure).value, r.value;
            && t.graphVersion == input.snapshot.header.graphVersion && t.kind == input.snapshot.header.kind
            && t.degraded == input.snapshot.header.degraded
            && t.fromNodeId == input.fromNodeId && t.toNodeId == input.toNodeId
            && t.maxDepth == Requested(input.maxDepth, 8) && t.bounds == TraceBounds(input, s)
            && (t.found <==> t.fromNodeId in Ids(s.nodes) &&
                             ReachableWithin(s.edges, t.fromNodeId, t.toNodeId, t.maxDepth))
            && (t.found ==> AtDistance(s.edges, t.fromNodeId, t.toNodeId, |walk|))
            && (t.truncated <==> s.truncated || !Whole(t, s, |walk|))
  {
    hide Canonical, Normalize, Acceptable, Walk, NoShorter, Ids, Stops, EdgeIds, ReachableWithin, TracedInput;
    var s := Normalize(input.snapshot, measure).value;
    var from, to := input.fromNodeId, input.toNodeId;
    NormalizeIsCanonical(input.snapshot, measure);
    TakenOver(input.snapshot, measure);
    if r.value.found {
      StopsAreNodes(s, measure, from, walk, to);
      NoStopTwice(s.edges, from, walk, to);
      StopsCounted(walk, to);
      TracedTruncated(input, s, measure, from, walk, to, Stops(walk, to));
    } else {
      TracedTruncated(input, s, measure, from, [], to, {from, to} * Ids(s.nodes));
    }
  }

  /** Which requests are searched: those with an acceptable snapshot, two identifiers and a depth from 1 to 8. */
  lemma AnswerableExactly(input: TraceInput, measure: Measure)
    ensures Answerable(input, measure) <==>
              Fair(input.snapshot, measure) && Within(input.fromNodeId, 512) && Within(input.toNodeId, 512) &&
              1 <= Requested(input.maxDepth, 8) <= 8
  {
    hide Fair, Acceptable;
    AcceptedExactly(input.snapshot, measure);
  }

  predicate Fits(a: Option<Attributes>, maxBytes: int, measure: Measure) { a.None? || measure(a.value) <= maxBytes }

  /** The nodes that an answer is about: those on the walk, or the ends that exist. */
  ghost function Selected(input: TraceInput, s: Snapshot, found: bool, walk: seq<GraphEdge>): set<Text> {
    if found then Stops(walk, input.toNodeId) else {input.fromNodeId, input.toNodeId} * Ids(s.nodes)
  }

  /** A request that is searched gets no answer exactly when the bounds it asks for are out of range, or what it would
      list has longer attributes than they allow. */
  lemma AnsweredExactly(input: TraceInput, measure: Measure, r: Option<Trace>, walk: seq<GraphEdge>)
    requires Answerable(input, measure)
    requires Answers(input, Normalize(input.snapshot, measure).value, measure, r, walk)
    ensures var s := Normalize(input.snapshot, measure).value;
            var b := TraceBounds(input, s);
            var found := Findable(s, input.fromNodeId, input.toNodeId, DepthBound(input));
            r.Some? <==>
              && FairBounds(b)
              && (forall n :: n in s.nodes && n.id in Selected(input, s, found, walk) ==>
                     Fits(n.attributes, b.maxAttributeBytes, measure))
              && (forall e :: e in walk ==> Fits(e.attributes, b.maxAttributeBytes, measure))
  {
    hide Canonical, Normalize, Acceptable, Walk, NoShorter, Ids, Stops, ReachableWithin, Fair;
    var s := Normalize(input.snapshot, measure).value;
    var from, to := input.fromNodeId, input.toNodeId;
    NormalizeIsCanonical(input.snapshot, measure);
    var found := Findable(s, from, to, DepthBound(input));
    if found { NamedEdges(s, measure, from, walk, to); } else { NoneNamed(s.edges); }
    SelectionFair(input, s, measure, Selected(input, s, found, walk), EdgeIds(walk));
  }

  /** Of a selection from a canonical snapshot only the bounds and the attributes can be out of range. */
  lemma SelectionFair(input: TraceInput, s: Snapshot, measure: Measure, nodeIds: set<Text>, edgeIds: set<Text>)
    requires Canonical(s, measure)
    ensures var b := TraceBounds(input, s);
            Normalize(TracedInput(input, s, nodeIds, edgeIds), measure).Some? <==>
              && FairBounds(b)
              && (forall n :: n in s.nodes && n.id in nodeIds ==> Fits(n.attributes, b.maxAttributeBytes, measure))
              && (forall e :: e in EdgesNamed(s.edges, edgeIds) ==> Fits(e.attributes, b.maxAttributeBytes, measure))
  {
    hide ValidNode, ValidEdge, FairHeader, FairNode, FairEdge, Ascending, Normalize, CleanNode, CleanEdge, ValidHeader,
         UniqueKeys, Ids, IdentifierTwice, FairBounds;
    var picked := TracedInput(input, s, nodeIds, edgeIds);
    var max := TraceBounds(input, s).maxAttributeBytes;
    AcceptedExactly(picked, measure);
    IdentifiersUnique(s, measure);
    NamedNodesUnique(s.nodes, nodeIds);
    NamedEdgesUnique(s.edges, edgeIds);
    IdentifiersMean(picked);
    HeaderStays(s, measure);
    forall n | n in s.nodes ensures FairNode(n, max, measure) <==> Fits(n.attributes, max, measure) {
      NodeFits(n, s.bounds.maxAttributeBytes, max, measure);
    }
    forall e | e in s.edges ensures FairEdge(e, max, measure) <==> Fits(e.attributes, max, measure) {
      EdgeFits(e, s.bounds.maxAttributeBytes, max, measure);
    }
  }

  lemma HeaderStays(s: Snapshot, measure: Measure)
    requires Canonical(s, measure)
    ensures FairHeader(Header(s.header.graphVersion, s.header.kind, None, None, s.header.degraded))
  {
    hide ValidNode, ValidEdge, CleanNode, CleanEdge, Ascending, Ids;
  }

  lemma NodeFits(n: GraphNode, maxBytes: int, max: int, measure: Measure)
    requires ValidNode(n, maxBytes, measure)
    ensures FairNode(n, max, measure) <==> Fits(n.attributes, max, measure)
  {
    hide FairEvidence, ValidEvidence;
    FairEvidenceMeans(n.evidence);
  }

  lemma EdgeFits(e: GraphEdge, maxBytes: int, max: int, measure: Measure)
    requires ValidEdge(e, maxBytes, measure)
    ensures FairEdge(e, max, measure) <==> Fits(e.attributes, max, measure)
  {
    hide FairEvidence, ValidEvidence;
    FairEvidenceMeans(e.evidence);
  }
}
