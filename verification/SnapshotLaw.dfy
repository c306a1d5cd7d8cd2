/** Which snapshots are accepted, what they take over from their input, and exactly when they admit to be incomplete. */
module SnapshotLaw {
  import opened Text
  import opened Wrappers
  import opened Sorting
  import opened GraphSnapshot

  // ---------- What a snapshot takes over ----------

  function KindWord(k: EvidenceKind): string {
    match k
    case Source => "source"
    case Record => "record"
    case Derived => "derived"
  }

  lemma KindIsWord(k: EvidenceKind)
    ensures forall i :: 0 <= i < |KindWord(k)| ==> KindWord(k)[i] as int < 128
    ensures KindText(k) == Ascii(KindWord(k))
  {
  }

  /** What evidence is ordered by: kind, identifier and locator, with a NUL between each two. */
  function EvidenceText(e: EvidenceRef): Text {
    KindIsWord(e.kind);
    Ascii(KindWord(e.kind)) + [0] + e.id + [0] + (if e.locator.Some? then e.locator.value else [])
  }

  /** The same references, in order. */
  ghost predicate Rearranged(r: Option<seq<EvidenceRef>>, ev: Option<seq<EvidenceRef>>) {
    && (r.Some? <==> ev.Some?)
    && (r.Some? ==> multiset(r.value) == multiset(ev.value) &&
                    forall i, j :: 0 <= i < j < |r.value| ==> Less(EvidenceText(r.value[i]), EvidenceText(r.value[j])))
  }

  ghost predicate SameNode(r: GraphNode, n: GraphNode) {
    && r.id == n.id && r.kind == n.kind && r.text == n.text && r.attributes == n.attributes
    && r.provenance == n.provenance && Rearranged(r.evidence, n.evidence)
  }

  ghost predicate SameEdge(r: GraphEdge, e: GraphEdge) {
    && r.id == e.id && r.kind == e.kind && r.source == e.source && r.target == e.target
    && r.attributes == e.attributes && r.provenance == e.provenance && Rearranged(r.evidence, e.evidence)
  }

  lemma EvidenceRearranged(ev: Option<seq<EvidenceRef>>)
    requires ValidEvidence(ev)
    ensures Rearranged(SortEvidence(ev), ev)
  {
    hide SortBy, KindText, KindWord;
    if ev.Some? {
      SortContents(ev.value, EvidenceKey);
      SortAscending(ev.value, EvidenceKey);
      var r := SortBy(ev.value, EvidenceKey);
      forall i | 0 <= i < |r| ensures EvidenceText(r[i]) == EvidenceKey(r[i]) { KindIsWord(r[i].kind); }
    }
  }

  /** A snapshot holds nodes and edges of the input as they were given, but for the order of their evidence, with the
      bounds asked for or 500 nodes, 2000 edges and 4096 bytes of attributes. */
  lemma TakenOver(input: SnapshotInput, measure: Measure)
    requires Acceptable(input, measure)
    ensures var s := Normalize(input, measure).value;
            && s.header == input.header
            && (forall r :: r in s.nodes ==> exists n :: n in input.nodes && SameNode(r, n))
            && (forall r :: r in s.edges ==> exists e :: e in input.edges && SameEdge(r, e))
            && s.bounds.maxNodes == (if input.bounds.maxNodes.Some? then input.bounds.maxNodes.value else 500)
            && s.bounds.maxEdges == (if input.bounds.maxEdges.Some? then input.bounds.maxEdges.value else 2_000)
            && s.bounds.maxAttributeBytes ==
               (if input.bounds.maxAttributeBytes.Some? then input.bounds.maxAttributeBytes.value else 4_096)
  {
    hide SortBy, SortEvidence, Rearranged, UniqueKeys, BoundedText, ValidAttributes, ValidHeader, ValidEvidence;
    var s := Normalize(input, measure).value;
    var nodes, edges := CleanNodes(input.nodes), CleanEdges(input.edges);
    SortMembers(nodes, NodeId);
    SortMembers(edges, EdgeId);
    forall r | r in s.nodes ensures exists n :: n in input.nodes && SameNode(r, n) {
      assert r in nodes;
      var i :| 0 <= i < |nodes| && nodes[i] == r;
      assert input.nodes[i] in input.nodes;
      EvidenceRearranged(input.nodes[i].evidence);
      assert SameNode(r, input.nodes[i]);
    }
    forall r | r in s.edges ensures exists e :: e in input.edges && SameEdge(r, e) {
      assert r in edges;
      var i :| 0 <= i < |edges| && edges[i] == r;
      assert input.edges[i] in input.edges;
      EvidenceRearranged(input.edges[i].evidence);
      assert SameEdge(r, input.edges[i]);
    }
  }

  // ---------- When a snapshot is truncated ----------

  /** An edge with an end that is no node of the input. */
  ghost predicate LeadsOut(input: SnapshotInput) {
    exists e :: e in input.edges && !(e.source in Ids(input.nodes) && e.target in Ids(input.nodes))
  }

  /** A snapshot is truncated exactly when its input was, when there are more nodes or edges than the bounds allow, or
      when an edge leads out of the graph. */
  lemma TruncatedExactly(input: SnapshotInput, measure: Measure)
    requires Acceptable(input, measure)
    ensures var s := Normalize(input, measure).value;
            s.truncated <==>
              input.truncated || |input.nodes| > s.bounds.maxNodes || |input.edges| > s.bounds.maxEdges ||
              LeadsOut(input)
  {
    hide Normalize, Acceptable, LeadsOut;
    var s := Normalize(input, measure).value;
    WithinBounds(input, measure);
    TruncatedIsHonest(input, measure);
    if !s.truncated { NothingLeadsOut(input, measure); }
    if !input.truncated && |input.nodes| <= s.bounds.maxNodes && |input.edges| <= s.bounds.maxEdges &&
      !LeadsOut(input) {
      EverythingFits(input, measure);
    }
  }

  lemma WithinBounds(input: SnapshotInput, measure: Measure)
    requires Acceptable(input, measure)
    ensures var s := Normalize(input, measure).value;
            |s.nodes| <= s.bounds.maxNodes && |s.edges| <= s.bounds.maxEdges && s.bounds.maxEdges >= 1
  {
    hide Acceptable, Canonical;
    NormalizeIsCanonical(input, measure);
    SizesOfCanonical(Normalize(input, measure).value, measure);
  }

  lemma SizesOfCanonical(s: Snapshot, measure: Measure)
    requires Canonical(s, measure)
    ensures |s.nodes| <= s.bounds.maxNodes && |s.edges| <= s.bounds.maxEdges && s.bounds.maxEdges >= 1
    ensures forall e :: e in s.edges ==> e.source in Ids(s.nodes) && e.target in Ids(s.nodes)
  {
    hide ValidNode, ValidEdge, ValidHeader, CleanNode, CleanEdge, Ascending;
  }

  lemma NothingLeadsOut(input: SnapshotInput, measure: Measure)
    requires Acceptable(input, measure) && !Normalize(input, measure).value.truncated
    ensures !LeadsOut(input)
  {
    hide Normalize, Acceptable, CleanEdge, Ids, Canonical;
    var s := Normalize(input, measure).value;
    TruncatedIsHonest(input, measure);
    NormalizeIsCanonical(input, measure);
    SizesOfCanonical(s, measure);
    SameIds(input.nodes, s.nodes);
    MultisetMembers(s.edges, CleanEdges(input.edges));
    forall e | e in input.edges ensures e.source in Ids(input.nodes) && e.target in Ids(input.nodes) {
      CleanMember(input.edges, e);
      CleanKeepsEnds(e);
    }
  }

  lemma EverythingFits(input: SnapshotInput, measure: Measure)
    requires Acceptable(input, measure) && !input.truncated && !LeadsOut(input)
    requires var s := Normalize(input, measure).value;
             |input.nodes| <= s.bounds.maxNodes && |input.edges| <= s.bounds.maxEdges
    ensures !Normalize(input, measure).value.truncated
  {
    hide SortBy, Acceptable, Ids, CleanEdge;
    var s := Normalize(input, measure).value;
    var allEdges := SortBy(CleanEdges(input.edges), EdgeId);
    SortContents(CleanNodes(input.nodes), NodeId);
    SameIds(input.nodes, s.nodes);
    SortMembers(CleanEdges(input.edges), EdgeId);
    forall e | e in allEdges ensures e.source in Ids(s.nodes) && e.target in Ids(s.nodes) {
      var i :| 0 <= i < |input.edges| && CleanEdges(input.edges)[i] == e;
      assert input.edges[i] in input.edges;
      CleanKeepsEnds(input.edges[i]);
    }
    ConnectedAll(allEdges, Ids(s.nodes));
  }

  lemma CleanKeepsEnds(e: GraphEdge)
    ensures CleanEdge(e).source == e.source && CleanEdge(e).target == e.target
  {
  }

  // ---------- What is accepted ----------

  predicate Within(t: Text, max: nat) { t != [] && |t| <= max }

  /** No key that would reach an object's prototype, and as JSON no longer than the bound. */
  predicate FairAttributes(a: Option<Attributes>, maxBytes: int, measure: Measure) {
    a.None? ||
    (measure(a.value) <= maxBytes && Ascii("__proto__") !in a.value && Ascii("constructor") !in a.value &&
     Ascii("prototype") !in a.value && forall k :: k in a.value ==> Within(k, 256))
  }

  /** At most 64 references, no two of the same kind, identifier and locator. */
  predicate FairEvidence(ev: Option<seq<EvidenceRef>>) {
    ev.None? ||
    (|ev.value| <= 64
     && (forall i :: 0 <= i < |ev.value| ==>
           Within(ev.value[i].id, 512) && (ev.value[i].locator.None? || Within(ev.value[i].locator.value, 1_024)))
     && forall i, j :: 0 <= i < j < |ev.value| ==> EvidenceText(ev.value[i]) != EvidenceText(ev.value[j]))
  }

  predicate FairNode(n: GraphNode, maxBytes: int, measure: Measure) {
    && Within(n.id, 512) && Within(n.kind, 128) && Within(n.text, 4_096)
    && FairAttributes(n.attributes, maxBytes, measure) && FairEvidence(n.evidence)
  }

  predicate FairEdge(e: GraphEdge, maxBytes: int, measure: Measure) {
    && Within(e.id, 512) && Within(e.kind, 128) && Within(e.source, 512) && Within(e.target, 512)
    && FairAttributes(e.attributes, maxBytes, measure) && FairEvidence(e.evidence)
  }

  predicate FairHeader(h: Header) {
    && Within(h.graphVersion, 256) && (h.cursor.None? || Within(h.cursor.value, 512))
    && (h.generatedAt.None? || Within(h.generatedAt.value, 128))
    && (h.degraded.None? || (Within(h.degraded.value.0, 128) && Within(h.degraded.value.1, 1_024)))
  }

  function Requested(value: Option<int>, default: int): int { if value.Some? then value.value else default }

  /** The bounds in force: those asked for, and the usual ones for what is not said. */
  function BoundsOf(b: PartialBounds): GraphBounds {
    GraphBounds(Requested(b.maxNodes, 500), Requested(b.maxEdges, 2_000), Requested(b.maxAttributeBytes, 4_096))
  }

  predicate FairBounds(b: GraphBounds) {
    1 <= b.maxNodes <= 10_000 && 1 <= b.maxEdges <= 50_000 && 1 <= b.maxAttributeBytes <= 65_536
  }

  /** Two of the nodes, or two of the edges, share an identifier. */
  predicate IdentifierTwice(input: SnapshotInput) {
    || (exists i, j :: 0 <= i < j < |input.nodes| && input.nodes[i].id == input.nodes[j].id)
    || (exists i, j :: 0 <= i < j < |input.edges| && input.edges[i].id == input.edges[j].id)
  }

  lemma FairEvidenceMeans(ev: Option<seq<EvidenceRef>>)
    ensures FairEvidence(ev) <==> ValidEvidence(ev)
  {
    hide KindText, KindWord;
    if ev.Some? {
      forall i | 0 <= i < |ev.value| ensures EvidenceText(ev.value[i]) == EvidenceKey(ev.value[i]) {
        KindIsWord(ev.value[i].kind);
      }
    }
  }

  lemma FairAttributesMean(a: Option<Attributes>, maxBytes: int, measure: Measure)
    ensures FairAttributes(a, maxBytes, measure) <==> ValidAttributes(a, maxBytes, measure)
  {
  }

  lemma FairNodeMeans(n: GraphNode, maxBytes: int, measure: Measure)
    ensures FairNode(n, maxBytes, measure) <==> ValidNode(n, maxBytes, measure)
  {
    hide FairAttributes, ValidAttributes, FairEvidence, ValidEvidence;
    FairEvidenceMeans(n.evidence);
    FairAttributesMean(n.attributes, maxBytes, measure);
  }

  lemma FairEdgeMeans(e: GraphEdge, maxBytes: int, measure: Measure)
    ensures FairEdge(e, maxBytes, measure) <==> ValidEdge(e, maxBytes, measure)
  {
    hide FairAttributes, ValidAttributes, FairEvidence, ValidEvidence;
    FairEvidenceMeans(e.evidence);
    FairAttributesMean(e.attributes, maxBytes, measure);
  }

  lemma IdentifiersMean(input: SnapshotInput)
    ensures IdentifierTwice(input) <==> !UniqueKeys(input.nodes, NodeId) || !UniqueKeys(input.edges, EdgeId)
  {
  }

  /** Everything in the input is within the limits. */
  ghost predicate Fair(input: SnapshotInput, measure: Measure) {
    var b := BoundsOf(input.bounds);
    && FairHeader(input.header) && FairBounds(b) && !IdentifierTwice(input)
    && (forall n :: n in input.nodes ==> FairNode(n, b.maxAttributeBytes, measure))
    && (forall e :: e in input.edges ==> FairEdge(e, b.maxAttributeBytes, measure))
  }

  /** Which inputs are accepted: those whose texts, attributes, evidence and bounds keep the limits and whose
      identifiers are unique. */
  lemma AcceptedExactly(input: SnapshotInput, measure: Measure)
    ensures Normalize(input, measure).Some? <==> Fair(input, measure)
    ensures NormalizeBounds(input.bounds).Some? ==> NormalizeBounds(input.bounds).value == BoundsOf(input.bounds)
  {
    hide ValidNode, ValidEdge, FairNode, FairEdge, IdentifierTwice, UniqueKeys, Normalize;
    IdentifiersMean(input);
    forall n: GraphNode, maxBytes ensures FairNode(n, maxBytes, measure) <==> ValidNode(n, maxBytes, measure) {
      FairNodeMeans(n, maxBytes, measure);
    }
    forall e: GraphEdge, maxBytes ensures FairEdge(e, maxBytes, measure) <==> ValidEdge(e, maxBytes, measure) {
      FairEdgeMeans(e, maxBytes, measure);
    }
  }

  /** Which snapshots pass validation: those within the limits that normalisation would not cut. */
  lemma ValidatesExactly(s: Snapshot, measure: Measure)
    ensures Validate(s, measure) <==>
              Fair(AsInput(s), measure) && |s.nodes| <= s.bounds.maxNodes && |s.edges| <= s.bounds.maxEdges &&
              !LeadsOut(AsInput(s))
  {
    hide Fair, Normalize, Acceptable, Ids;
    var input := AsInput(s).(truncated := false);
    AcceptedExactly(AsInput(s), measure);
    FlagIsFree(s, measure);
    if Normalize(AsInput(s), measure).Some? {
      TruncatedExactly(input, measure);
      TruncatedIsHonest(input, measure);
      AcceptedParts(AsInput(s), measure);
    }
  }

  /** Whether and what is kept does not depend on the flag. */
  lemma FlagIsFree(s: Snapshot, measure: Measure)
    ensures var a, b := Normalize(AsInput(s), measure), Normalize(AsInput(s).(truncated := false), measure);
            && a.Some? == b.Some? && (Acceptable(AsInput(s).(truncated := false), measure) <==> b.Some?)
            && (a.Some? ==> a.value.nodes == b.value.nodes && a.value.edges == b.value.edges &&
                            b.value.bounds == s.bounds)
  {
    hide SortBy, ValidNode, ValidEdge, ValidHeader;
  }

  lemma AcceptedParts(input: SnapshotInput, measure: Measure)
    requires Normalize(input, measure).Some?
    ensures UniqueKeys(input.nodes, NodeId)
    ensures |Normalize(input, measure).value.nodes| <= |input.nodes|
    ensures |Normalize(input, measure).value.edges| <= |input.edges|
  {
    hide ValidNode, ValidEdge, ValidHeader;
  }
}
