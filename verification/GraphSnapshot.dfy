/** Graph snapshots and their canonical form. */
module GraphSnapshot {
  import opened Text
  import opened Wrappers
  import opened Sorting

  const DEFAULT_MAX_NODES := 500
  const DEFAULT_MAX_EDGES := 2_000
  const DEFAULT_MAX_ATTRIBUTE_BYTES := 4_096
  const MAX_NODES := 10_000
  const MAX_EDGES := 50_000
  const MAX_ATTRIBUTE_BYTES := 64 * 1024
  const MAX_TEXT := 4_096
  const MAX_EVIDENCE_REFS := 64

  datatype Scalar = TextScalar(text: Text) | NumberScalar(literal: Text) | BoolScalar(value: bool) | NullScalar

  type Attributes = map<Text, Scalar>

  /** Length of the UTF-8 JSON text of an attribute object. */
  type Measure = Attributes -> nat

  datatype EvidenceKind = Source | Record | Derived

  datatype EvidenceRef = EvidenceRef(kind: EvidenceKind, id: Text, locator: Option<Text>)

  datatype GraphProvenance = Authoritative | DerivedProvenance

  datatype GraphNode = GraphNode(
    id: Text, kind: Text, text: Text,
    attributes: Option<Attributes>, evidence: Option<seq<EvidenceRef>>, provenance: Option<GraphProvenance>)

  datatype GraphEdge = GraphEdge(
    id: Text, kind: Text, source: Text, target: Text,
    attributes: Option<Attributes>, evidence: Option<seq<EvidenceRef>>, provenance: Option<GraphProvenance>)

  datatype GraphKind = Code | Impact | Work | Lineage

  datatype GraphBounds = GraphBounds(maxNodes: int, maxEdges: int, maxAttributeBytes: int)

  datatype PartialBounds = PartialBounds(maxNodes: Option<int>, maxEdges: Option<int>, maxAttributeBytes: Option<int>)

  /** The parts of a snapshot that normalisation checks and passes on. */
  datatype Header = Header(
    graphVersion: Text, kind: GraphKind, cursor: Option<Text>, generatedAt: Option<Text>,
    degraded: Option<(Text, Text)>)

  datatype SnapshotInput = SnapshotInput(
    header: Header, nodes: seq<GraphNode>, edges: seq<GraphEdge>, bounds: PartialBounds, truncated: bool)

  datatype Snapshot = Snapshot(
    header: Header, nodes: seq<GraphNode>, edges: seq<GraphEdge>, bounds: GraphBounds, truncated: bool)

  predicate BoundedText(s: Text, max: nat) { 1 <= |s| <= max }

  function NodeId(n: GraphNode): Text { n.id }

  function EdgeId(e: GraphEdge): Text { e.id }

  function Ids(nodes: seq<GraphNode>): set<Text> { set n | n in nodes :: n.id }

  // ---------- Attributes and evidence ----------

  predicate ValidAttributes(a: Option<Attributes>, maxBytes: int, measure: Measure) {
    a.Some? ==>
      && (forall k :: k in a.value ==>
            BoundedText(k, 256) && k != Ascii("__proto__") && k != Ascii("constructor") && k != Ascii("prototype"))
      && measure(a.value) <= maxBytes
  }

  function KindText(k: EvidenceKind): Text {
    match k
    case Source => Ascii("source")
    case Record => Ascii("record")
    case Derived => Ascii("derived")
  }

  function EvidenceKey(e: EvidenceRef): Text {
    KindText(e.kind) + [0] + e.id + [0] + (if e.locator.Some? then e.locator.value else [])
  }

  predicate ValidEvidence(ev: Option<seq<EvidenceRef>>) {
    ev.Some? ==>
      && |ev.value| <= MAX_EVIDENCE_REFS
      && (forall e :: e in ev.value ==>
         BoundedText(e.id, 512) && (e.locator.Some? ==> BoundedText(e.locator.value, 1_024)))
      && UniqueKeys(ev.value, EvidenceKey)
  }

  function SortEvidence(ev: Option<seq<EvidenceRef>>): Option<seq<EvidenceRef>> {
    if ev.None? then None else Some(SortBy(ev.value, EvidenceKey))
  }

  lemma UniqueOfAscending<T>(xs: seq<T>, key: T -> Text)
    requires Ascending(xs, key)
    ensures UniqueKeys(xs, key)
  {
    forall i, j | 0 <= i < j < |xs| ensures key(xs[i]) != key(xs[j]) { LessTrichotomy(key(xs[i]), key(xs[j])); }
  }

  lemma SortedEvidence(ev: Option<seq<EvidenceRef>>)
    requires ValidEvidence(ev)
    ensures ValidEvidence(SortEvidence(ev)) && SortEvidence(SortEvidence(ev)) == SortEvidence(ev)
  {
    if ev.Some? {
      SortAscending(ev.value, EvidenceKey);
      UniqueOfAscending(SortBy(ev.value, EvidenceKey), EvidenceKey);
      SortMembers(ev.value, EvidenceKey);
      SortOfAscending(SortBy(ev.value, EvidenceKey), EvidenceKey);
    }
  }

  // ---------- Nodes and edges ----------

  predicate ValidNode(n: GraphNode, maxBytes: int, measure: Measure) {
    && BoundedText(n.id, 512) && BoundedText(n.kind, 128) && BoundedText(n.text, MAX_TEXT)
    && ValidAttributes(n.attributes, maxBytes, measure) && ValidEvidence(n.evidence)
  }

  predicate ValidEdge(e: GraphEdge, maxBytes: int, measure: Measure) {
    && BoundedText(e.id, 512) && BoundedText(e.kind, 128) && BoundedText(e.source, 512) && BoundedText(e.target, 512)
    && ValidAttributes(e.attributes, maxBytes, measure) && ValidEvidence(e.evidence)
  }

  function CleanNode(n: GraphNode): GraphNode { n.(evidence := SortEvidence(n.evidence)) }

  function CleanEdge(e: GraphEdge): GraphEdge { e.(evidence := SortEvidence(e.evidence)) }

  function CleanNodes(ns: seq<GraphNode>): (r: seq<GraphNode>)
    ensures |r| == |ns| && forall i :: 0 <= i < |ns| ==> r[i] == CleanNode(ns[i])
  {
    Mapped(ns, CleanNode)
  }

  function CleanEdges(es: seq<GraphEdge>): (r: seq<GraphEdge>)
    ensures |r| == |es| && forall i :: 0 <= i < |es| ==> r[i] == CleanEdge(es[i])
  {
    Mapped(es, CleanEdge)
  }

  function Take<T>(xs: seq<T>, n: int): (r: seq<T>)
    requires 0 <= n
  {
    if n < |xs| then xs[..n] else xs
  }

  /** The edges whose endpoints are both among the given nodes. */
  function Connected(es: seq<GraphEdge>, ids: set<Text>): (r: seq<GraphEdge>)
    ensures forall e :: e in r <==> e in es && e.source in ids && e.target in ids
    ensures |r| <= |es|
  {
    if es == [] then []
    else (if es[0].source in ids && es[0].target in ids then [es[0]] else []) + Connected(es[1..], ids)
  }

  // ---------- Normalisation ----------

  function Bounded(value: Option<int>, default: int, max: int): Option<int> {
    var v := if value.Some? then value.value else default;
    if 1 <= v <= max then Some(v) else None
  }

  function NormalizeBounds(b: PartialBounds): Option<GraphBounds> {
    var n, e, a := Bounded(b.maxNodes, DEFAULT_MAX_NODES, MAX_NODES), Bounded(b.maxEdges, DEFAULT_MAX_EDGES, MAX_EDGES),
                   Bounded(b.maxAttributeBytes, DEFAULT_MAX_ATTRIBUTE_BYTES, MAX_ATTRIBUTE_BYTES);
    if n.Some? && e.Some? && a.Some? then Some(GraphBounds(n.value, e.value, a.value)) else None
  }

  predicate ValidHeader(h: Header) {
    && BoundedText(h.graphVersion, 256)
    && (h.cursor.Some? ==> BoundedText(h.cursor.value, 512))
    && (h.generatedAt.Some? ==> BoundedText(h.generatedAt.value, 128))
    && (h.degraded.Some? ==> BoundedText(h.degraded.value.0, 128) && BoundedText(h.degraded.value.1, 1_024))
  }

  /** Everything normalisation checks before it orders and cuts. */
  predicate Acceptable(input: SnapshotInput, measure: Measure) {
    && ValidHeader(input.header)
    && NormalizeBounds(input.bounds).Some?
    && var maxBytes := NormalizeBounds(input.bounds).value.maxAttributeBytes;
       && (forall n :: n in input.nodes ==> ValidNode(n, maxBytes, measure))
       && (forall e :: e in input.edges ==> ValidEdge(e, maxBytes, measure))
       && UniqueKeys(input.nodes, NodeId)
       && UniqueKeys(input.edges, EdgeId)
  }

  /** The canonical snapshot of an input; None when the source throws. */
  function Normalize(input: SnapshotInput, measure: Measure): (r: Option<Snapshot>)
    ensures r.Some? <==> Acceptable(input, measure)
  {
    if !Acceptable(input, measure) then None
    else
      var bounds := NormalizeBounds(input.bounds).value;
      var allNodes := SortBy(CleanNodes(input.nodes), NodeId);
      var nodes := Take(allNodes, bounds.maxNodes);
      var allEdges := SortBy(CleanEdges(input.edges), EdgeId);
      var connected := Connected(allEdges, Ids(nodes));
      var edges := Take(connected, bounds.maxEdges);
      var truncated := input.truncated || |nodes| != |allNodes| || |edges| != |connected| || |connected| != |allEdges|;
      Some(Snapshot(input.header, nodes, edges, bounds, truncated))
  }

  /** A snapshot handed in again. */
  function AsInput(s: Snapshot): SnapshotInput {
    SnapshotInput(s.header, s.nodes, s.edges,
                  PartialBounds(Some(s.bounds.maxNodes), Some(s.bounds.maxEdges), Some(s.bounds.maxAttributeBytes)),
                    s.truncated)
  }

  predicate Validate(s: Snapshot, measure: Measure) {
    && |s.nodes| <= s.bounds.maxNodes && |s.edges| <= s.bounds.maxEdges
    && UniqueKeys(s.nodes, NodeId)
    && (forall e :: e in s.edges ==> e.source in Ids(s.nodes) && e.target in Ids(s.nodes))
    && var again := Normalize(AsInput(s), measure);
       again.Some? && |again.value.nodes| == |s.nodes| && |again.value.edges| == |s.edges|
  }

  // ---------- The canonical form ----------

  /** What a canonical snapshot looks like: ordered by unique identifiers, within its bounds, with
      clean parts and no edge leading out. */
  ghost predicate Canonical(s: Snapshot, measure: Measure) {
    && ValidHeader(s.header)
    && 1 <= s.bounds.maxNodes <= MAX_NODES && 1 <= s.bounds.maxEdges <= MAX_EDGES
    && 1 <= s.bounds.maxAttributeBytes <= MAX_ATTRIBUTE_BYTES
    && Ascending(s.nodes, NodeId) && Ascending(s.edges, EdgeId)
    && |s.nodes| <= s.bounds.maxNodes && |s.edges| <= s.bounds.maxEdges
    && (forall e :: e in s.edges ==> e.source in Ids(s.nodes) && e.target in Ids(s.nodes))
    && (forall n :: n in s.nodes ==> ValidNode(n, s.bounds.maxAttributeBytes, measure) && CleanNode(n) == n)
    && (forall e :: e in s.edges ==> ValidEdge(e, s.bounds.maxAttributeBytes, measure) && CleanEdge(e) == e)
  }

  lemma CleanNodeValid(n: GraphNode, maxBytes: int, measure: Measure)
    requires ValidNode(n, maxBytes, measure)
    ensures ValidNode(CleanNode(n), maxBytes, measure) && CleanNode(CleanNode(n)) == CleanNode(n)
  {
    SortedEvidence(n.evidence);
  }

  lemma CleanEdgeValid(e: GraphEdge, maxBytes: int, measure: Measure)
    requires ValidEdge(e, maxBytes, measure)
    ensures ValidEdge(CleanEdge(e), maxBytes, measure) && CleanEdge(CleanEdge(e)) == CleanEdge(e)
  {
    SortedEvidence(e.evidence);
  }

  lemma {:induction false} ConnectedAscending(es: seq<GraphEdge>, ids: set<Text>)
    requires Ascending(es, EdgeId)
    ensures Ascending(Connected(es, ids), EdgeId)
  {
    if es != [] {
      var tail := es[1..];
      assert forall i :: 0 <= i < |tail| ==> tail[i] == es[i + 1];
      ConnectedAscending(tail, ids);
      var c := Connected(tail, ids);
      forall j | 0 <= j < |c| ensures Less(EdgeId(es[0]), EdgeId(c[j])) {
        assert c[j] in c;
        var k :| 0 <= k < |tail| && tail[k] == c[j];
      }
    }
  }

  /** The canonical form of an accepted input is canonical. */
  lemma NormalizeIsCanonical(input: SnapshotInput, measure: Measure)
    requires Acceptable(input, measure)
    ensures Canonical(Normalize(input, measure).value, measure)
  {
    hide ValidNode, ValidEdge, ValidHeader, CleanNode, CleanEdge;
    var bounds := NormalizeBounds(input.bounds).value;
    SortedNodes(input.nodes, bounds.maxAttributeBytes, measure);
    SortedEdges(input.edges, bounds.maxAttributeBytes, measure);
    var nodes := Take(SortBy(CleanNodes(input.nodes), NodeId), bounds.maxNodes);
    ConnectedAscending(SortBy(CleanEdges(input.edges), EdgeId), Ids(nodes));
  }

  lemma SortedNodes(ns: seq<GraphNode>, maxBytes: int, measure: Measure)
    requires UniqueKeys(ns, NodeId) && forall n :: n in ns ==> ValidNode(n, maxBytes, measure)
    ensures var r := SortBy(CleanNodes(ns), NodeId);
            Ascending(r, NodeId) && forall n :: n in r ==> ValidNode(n, maxBytes, measure) && CleanNode(n) == n
  {
    hide ValidNode;
    var clean := CleanNodes(ns);
    forall i, j | 0 <= i < j < |clean| ensures NodeId(clean[i]) != NodeId(clean[j]) {
      assert NodeId(ns[i]) != NodeId(ns[j]);
    }
    SortAscending(clean, NodeId);
    SortMembers(clean, NodeId);
    forall n | n in SortBy(clean, NodeId) ensures ValidNode(n, maxBytes, measure) && CleanNode(n) == n {
      assert n in clean;
      var i :| 0 <= i < |clean| && clean[i] == n;
      CleanNodeValid(ns[i], maxBytes, measure);
    }
  }

  lemma SortedEdges(es: seq<GraphEdge>, maxBytes: int, measure: Measure)
    requires UniqueKeys(es, EdgeId) && forall e :: e in es ==> ValidEdge(e, maxBytes, measure)
    ensures var r := SortBy(CleanEdges(es), EdgeId);
            Ascending(r, EdgeId) && forall e :: e in r ==> ValidEdge(e, maxBytes, measure) && CleanEdge(e) == e
  {
    hide ValidEdge;
    var clean := CleanEdges(es);
    forall i, j | 0 <= i < j < |clean| ensures EdgeId(clean[i]) != EdgeId(clean[j]) {
      assert EdgeId(es[i]) != EdgeId(es[j]);
    }
    SortAscending(clean, EdgeId);
    SortMembers(clean, EdgeId);
    forall e | e in SortBy(clean, EdgeId) ensures ValidEdge(e, maxBytes, measure) && CleanEdge(e) == e {
      assert e in clean;
      var i :| 0 <= i < |clean| && clean[i] == e;
      CleanEdgeValid(es[i], maxBytes, measure);
    }
  }

  lemma {:induction false} ConnectedAll(es: seq<GraphEdge>, ids: set<Text>)
    requires forall e :: e in es ==> e.source in ids && e.target in ids
    ensures Connected(es, ids) == es
  {
    if es != [] {
      ConnectedAll(es[1..], ids);
      assert es == [es[0]] + es[1..];
    }
  }

  lemma CanonicalIsAcceptable(s: Snapshot, measure: Measure)
    requires Canonical(s, measure)
    ensures Acceptable(AsInput(s), measure) && NormalizeBounds(AsInput(s).bounds) == Some(s.bounds)
  {
    hide ValidNode, ValidEdge, ValidHeader, CleanNode, CleanEdge, Ascending;
    UniqueOfAscending(s.nodes, NodeId);
    UniqueOfAscending(s.edges, EdgeId);
  }

  lemma CanonicalParts(s: Snapshot, measure: Measure)
    requires Canonical(s, measure)
    ensures SortBy(CleanNodes(s.nodes), NodeId) == s.nodes && SortBy(CleanEdges(s.edges), EdgeId) == s.edges
    ensures Connected(s.edges, Ids(s.nodes)) == s.edges
  {
    hide ValidNode, ValidEdge, ValidHeader, CleanNode, CleanEdge, SortBy, Ascending;
    assert CleanNodes(s.nodes) == s.nodes;
    assert CleanEdges(s.edges) == s.edges;
    SortOfAscending(s.nodes, NodeId);
    SortOfAscending(s.edges, EdgeId);
    ConnectedAll(s.edges, Ids(s.nodes));
  }

  /** A canonical snapshot is its own canonical form. */
  lemma CanonicalIsFixed(s: Snapshot, measure: Measure)
    requires Canonical(s, measure)
    ensures Normalize(AsInput(s), measure) == Some(s)
  {
    hide Acceptable, NormalizeBounds, SortBy, CleanNodes, CleanEdges, Connected, Ids, Ascending,
         ValidHeader, ValidNode, ValidEdge, CleanNode, CleanEdge;
    CanonicalIsAcceptable(s, measure);
    CanonicalParts(s, measure);
  }

  /** A canonical snapshot passes validation. */
  lemma CanonicalValidates(s: Snapshot, measure: Measure)
    requires Canonical(s, measure)
    ensures Validate(s, measure)
  {
    hide Normalize, Ascending, ValidHeader, ValidNode, ValidEdge, CleanNode, CleanEdge;
    CanonicalIsFixed(s, measure);
    UniqueOfAscending(s.nodes, NodeId);
  }

  /** Normalising twice changes nothing, and what normalisation returns always validates. */
  lemma NormalizeIdempotent(input: SnapshotInput, measure: Measure)
    requires Acceptable(input, measure)
    ensures var s := Normalize(input, measure).value;
            Normalize(AsInput(s), measure) == Some(s) && Validate(s, measure)
  {
    hide Normalize, Canonical, Validate, Acceptable;
    NormalizeIsCanonical(input, measure);
    CanonicalIsFixed(Normalize(input, measure).value, measure);
    CanonicalValidates(Normalize(input, measure).value, measure);
  }

  /** The canonical form does not depend on the order in which nodes and edges are listed. */
  lemma NormalizeOrderFree(a: SnapshotInput, b: SnapshotInput, measure: Measure)
    requires multiset(a.nodes) == multiset(b.nodes) && multiset(a.edges) == multiset(b.edges)
    requires a.header == b.header && a.bounds == b.bounds && a.truncated == b.truncated
    ensures Normalize(a, measure) == Normalize(b, measure)
  {
    hide ValidNode, ValidEdge, ValidHeader, CleanNode, CleanEdge, SortBy;
    if Acceptable(a, measure) { SameAcceptance(a, b, measure); }
    if Acceptable(b, measure) { SameAcceptance(b, a, measure); }
    if Acceptable(a, measure) {
      MappedMultiset(a.nodes, b.nodes, CleanNode);
      MappedMultiset(a.edges, b.edges, CleanEdge);
      CleanUnique(a);
      SortCanonical(CleanNodes(a.nodes), CleanNodes(b.nodes), NodeId);
      SortCanonical(CleanEdges(a.edges), CleanEdges(b.edges), EdgeId);
    }
  }

  lemma CleanUnique(a: SnapshotInput)
    requires UniqueKeys(a.nodes, NodeId) && UniqueKeys(a.edges, EdgeId)
    ensures UniqueKeys(CleanNodes(a.nodes), NodeId) && UniqueKeys(CleanEdges(a.edges), EdgeId)
  {
    forall i, j | 0 <= i < j < |a.nodes| ensures NodeId(CleanNodes(a.nodes)[i]) != NodeId(CleanNodes(a.nodes)[j]) {
      assert NodeId(a.nodes[i]) != NodeId(a.nodes[j]);
    }
    forall i, j | 0 <= i < j < |a.edges| ensures EdgeId(CleanEdges(a.edges)[i]) != EdgeId(CleanEdges(a.edges)[j]) {
      assert EdgeId(a.edges[i]) != EdgeId(a.edges[j]);
    }
  }

  lemma SameAcceptance(a: SnapshotInput, b: SnapshotInput, measure: Measure)
    requires multiset(a.nodes) == multiset(b.nodes) && multiset(a.edges) == multiset(b.edges)
    requires a.header == b.header && a.bounds == b.bounds && Acceptable(a, measure)
    ensures Acceptable(b, measure)
  {
    hide ValidNode, ValidEdge, ValidHeader;
    MultisetMembers(a.nodes, b.nodes);
    MultisetMembers(a.edges, b.edges);
    UniqueOfMultiset(a.nodes, b.nodes, NodeId);
    UniqueOfMultiset(a.edges, b.edges, EdgeId);
  }

  lemma CleanMember(es: seq<GraphEdge>, e: GraphEdge)
    requires e in es
    ensures CleanEdge(e) in CleanEdges(es)
  {
    hide CleanEdge, Mapped;
    var j :| 0 <= j < |es| && es[j] == e;
    assert CleanEdges(es)[j] == CleanEdge(e);
  }

  lemma SameIds(ns: seq<GraphNode>, sorted: seq<GraphNode>)
    requires multiset(sorted) == multiset(CleanNodes(ns))
    ensures Ids(sorted) == Ids(ns)
  {
    MultisetMembers(sorted, CleanNodes(ns));
    var clean := CleanNodes(ns);
    forall id | id in Ids(ns) ensures id in Ids(sorted) {
      var n :| n in ns && n.id == id;
      var i :| 0 <= i < |ns| && ns[i] == n;
      assert clean[i] in sorted;
    }
    forall id | id in Ids(sorted) ensures id in Ids(ns) {
      var n :| n in sorted && n.id == id;
      var i :| 0 <= i < |clean| && clean[i] == n;
      assert ns[i] in ns;
    }
  }

  /** The flag is honest: set exactly when it was set before or a node or an edge was left out. */
  lemma TruncatedIsHonest(input: SnapshotInput, measure: Measure)
    requires Acceptable(input, measure)
    ensures var s := Normalize(input, measure).value;
            && (s.truncated <==> input.truncated || |s.nodes| < |input.nodes| || |s.edges| < |input.edges|)
            && (!s.truncated ==> multiset(s.nodes) == multiset(CleanNodes(input.nodes)) &&
                                 multiset(s.edges) == multiset(CleanEdges(input.edges)))
  {
    hide ValidNode, ValidEdge, ValidHeader, CleanNode, CleanEdge, SortBy;
    var allEdges := SortBy(CleanEdges(input.edges), EdgeId);
    SortContents(CleanNodes(input.nodes), NodeId);
    SortContents(CleanEdges(input.edges), EdgeId);
    var s := Normalize(input, measure).value;
    ConnectedLength(allEdges, Ids(s.nodes));
  }

  lemma {:induction false} ConnectedLength(es: seq<GraphEdge>, ids: set<Text>)
    ensures |Connected(es, ids)| == |es| ==> Connected(es, ids) == es
  {
    if es != [] {
      ConnectedLength(es[1..], ids);
      assert es == [es[0]] + es[1..];
    }
  }

  lemma TakeIsFirst<T(!new)>(xs: seq<T>, n: int, key: T -> Text)
    requires 0 <= n && Ascending(xs, key)
    ensures |Take(xs, n)| == if n < |xs| then n else |xs|
    ensures forall x, k :: x in xs && x !in Take(xs, n) && k in Take(xs, n) ==> Less(key(k), key(x))
  {
    hide Less;
    assert forall a :: 0 <= a < n && a < |xs| ==> Take(xs, n)[a] == xs[a];
    assert forall a :: 0 <= a < n && a < |xs| ==> xs[a] in Take(xs, n);
    forall x, k | x in xs && x !in Take(xs, n) && k in Take(xs, n) ensures Less(key(k), key(x)) {
      var i :| 0 <= i < |xs| && xs[i] == x;
      var j :| 0 <= j < |Take(xs, n)| && Take(xs, n)[j] == k;
    }
  }

  /** An edge between kept nodes that was not kept. */
  predicate LeftOut(e: GraphEdge, es: seq<GraphEdge>, s: Snapshot) {
    e in es && e.source in Ids(s.nodes) && e.target in Ids(s.nodes) && e !in s.edges
  }

  /** What is cut is cut from the end: kept nodes come before those left out, as many as the bound allows, and the
      same holds of the edges whose endpoints were kept. */
  lemma CutsFromTheEnd(input: SnapshotInput, measure: Measure)
    requires Acceptable(input, measure)
    ensures var s := Normalize(input, measure).value;
            var fit := Connected(SortBy(CleanEdges(input.edges), EdgeId), Ids(s.nodes));
            && |s.nodes| == (if s.bounds.maxNodes < |input.nodes| then s.bounds.maxNodes else |input.nodes|)
            && (forall n, k :: n in CleanNodes(input.nodes) && n !in s.nodes && k in s.nodes ==> Less(k.id, n.id))
            && |s.edges| == (if s.bounds.maxEdges < |fit| then s.bounds.maxEdges else |fit|)
            && (forall e, k :: LeftOut(e, CleanEdges(input.edges), s) && k in s.edges ==> Less(k.id, e.id))
  {
    hide ValidNode, ValidEdge, ValidHeader, CleanNode, CleanEdge, SortBy, Less, Take, Connected;
    var s := Normalize(input, measure).value;
    var maxBytes := s.bounds.maxAttributeBytes;
    var nodes, edges := SortBy(CleanNodes(input.nodes), NodeId), SortBy(CleanEdges(input.edges), EdgeId);
    SortedNodes(input.nodes, maxBytes, measure);
    SortedEdges(input.edges, maxBytes, measure);
    SortMembers(CleanNodes(input.nodes), NodeId);
    SortMembers(CleanEdges(input.edges), EdgeId);
    TakeIsFirst(nodes, s.bounds.maxNodes, NodeId);
    ConnectedAscending(edges, Ids(s.nodes));
    TakeIsFirst(Connected(edges, Ids(s.nodes)), s.bounds.maxEdges, EdgeId);
  }
}
