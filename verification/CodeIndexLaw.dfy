/** What the merge of several providers' reports comes to, and what indexing a file makes of every single edge. */
module CodeIndexLaw {
  import opened Text
  import opened CodeGraph
  import opened CodeIndex

  // ---------- Merged edges ----------

  /** The two edges are reports of one thing: same ends, same kind, same provider. */
  predicate SameEdge(a: CodeEdge, b: CodeEdge) {
    a.from == b.from && a.to == b.to && a.kind == b.kind && a.provider == b.provider
  }

  /** The edge is reported, and nothing of the same key is reported after it. */
  ghost predicate LastReport(es: seq<CodeEdge>, e: CodeEdge) {
    exists i :: 0 <= i < |es| && es[i] == e && forall j :: i < j < |es| ==> !SameEdge(es[j], e)
  }

  lemma KeysAgree(a: CodeEdge, b: CodeEdge)
    ensures KeyOf(a) == KeyOf(b) <==> SameEdge(a, b)
  {
  }

  function EdgeKeys(es: seq<CodeEdge>): (r: seq<EdgeKey>)
    ensures |r| == |es| && forall i :: 0 <= i < |es| ==> r[i] == KeyOf(es[i])
  {
    seq(|es|, i requires 0 <= i < |es| => KeyOf(es[i]))
  }

  function StableKeys(es: seq<CodeEntity>): (r: seq<StableKey>)
    ensures |r| == |es| && forall i :: 0 <= i < |es| ==> r[i] == es[i].stableKey
  {
    seq(|es|, i requires 0 <= i < |es| => es[i].stableKey)
  }

  lemma MoreEdgeKeys(es: seq<CodeEdge>, e: CodeEdge)
    ensures EdgeKeys(es + [e]) == EdgeKeys(es) + [KeyOf(e)]
  {
  }

  lemma MoreStableKeys(es: seq<CodeEntity>, e: CodeEntity)
    ensures StableKeys(es + [e]) == StableKeys(es) + [e.stableKey]
  {
  }

  lemma {:induction false} ReplacedEdgeKeys(es: seq<CodeEdge>, e: CodeEdge)
    ensures EdgeKeys(ReplaceEdge(es, e)) == EdgeKeys(es)
  {
    if es != [] {
      var init, last := es[..|es| - 1], es[|es| - 1];
      assert es == init + [last];
      MoreEdgeKeys(init, last);
      if KeyOf(last) == KeyOf(e) { MoreEdgeKeys(init, e); }
      else {
        ReplacedEdgeKeys(init, e);
        MoreEdgeKeys(ReplaceEdge(init, e), last);
      }
    }
  }

  lemma {:induction false} ReplacedEntityKeys(es: seq<CodeEntity>, e: CodeEntity)
    ensures StableKeys(ReplaceEntity(es, e)) == StableKeys(es)
  {
    if es != [] {
      var init, last := es[..|es| - 1], es[|es| - 1];
      assert es == init + [last];
      MoreStableKeys(init, last);
      if last.stableKey == e.stableKey { MoreStableKeys(init, e); }
      else {
        ReplacedEntityKeys(init, e);
        MoreStableKeys(ReplaceEntity(init, e), last);
      }
    }
  }

  lemma UpsertEdgeKeys(es: seq<CodeEdge>, e: CodeEdge)
    ensures EdgeKeys(UpsertEdge(es, e)) ==
            if KeyOf(e) in EdgeKeys(es) then EdgeKeys(es) else EdgeKeys(es) + [KeyOf(e)]
  {
    ReplacedEdgeKeys(es, e);
    MoreEdgeKeys(es, e);
    hide ReplaceEdge;
    if x :| x in es && KeyOf(x) == KeyOf(e) {
      var i :| 0 <= i < |es| && es[i] == x;
      assert EdgeKeys(es)[i] == KeyOf(e);
    }
  }

  lemma UpsertEntityKeys(es: seq<CodeEntity>, e: CodeEntity)
    ensures StableKeys(UpsertEntity(es, e)) ==
            if e.stableKey in StableKeys(es) then StableKeys(es) else StableKeys(es) + [e.stableKey]
  {
    ReplacedEntityKeys(es, e);
    MoreStableKeys(es, e);
    hide ReplaceEntity;
    if x :| x in es && x.stableKey == e.stableKey {
      var i :| 0 <= i < |es| && es[i] == x;
      assert StableKeys(es)[i] == e.stableKey;
    }
  }

  lemma ListKeysStep<T>(ks: seq<T>, k: T)
    ensures ListKeys(ks + [k]) == if k in ListKeys(ks) then ListKeys(ks) else ListKeys(ks) + [k]
  {
    assert (ks + [k])[..|ks|] == ks;
  }

  lemma {:induction false} ListedEdgeKeys(es: seq<CodeEdge>)
    ensures EdgeKeys(ListEdges(es)) == ListKeys(EdgeKeys(es))
  {
    hide UpsertEdge, ListKeys;
    if es == [] {
      NoKeysListed<EdgeKey>();
    } else {
      var init, last := es[..|es| - 1], es[|es| - 1];
      ListedEdgeKeys(init);
      UpsertEdgeKeys(ListEdges(init), last);
      assert es == init + [last];
      MoreEdgeKeys(init, last);
      ListKeysStep(EdgeKeys(init), KeyOf(last));
      hide EdgeKeys;
    }
  }

  lemma NoKeysListed<T>()
    ensures ListKeys<T>([]) == []
  {
  }

  lemma {:induction false} ListedEntityKeys(es: seq<CodeEntity>)
    ensures StableKeys(ListEntities(es)) == ListKeys(StableKeys(es))
  {
    hide UpsertEntity, ListKeys;
    if es == [] {
      NoKeysListed<StableKey>();
    } else {
      var init, last := es[..|es| - 1], es[|es| - 1];
      ListedEntityKeys(init);
      UpsertEntityKeys(ListEntities(init), last);
      assert es == init + [last];
      MoreStableKeys(init, last);
      ListKeysStep(StableKeys(init), last.stableKey);
      hide StableKeys;
    }
  }

  /** The keys of a list without repetitions: each stands where it first came. */
  ghost predicate FirstsOf<T(!new)>(listed: seq<T>, ks: seq<T>) {
    && (forall k :: k in listed <==> k in ks)
    && (forall i, j :: 0 <= i < j < |listed| ==> listed[i] != listed[j])
    && (forall i, j :: 0 <= i < j < |listed| ==> ComesFirst(ks, listed[i], listed[j]))
  }

  /** The one comes in the list before the first of the other. */
  ghost predicate ComesFirst<T>(ks: seq<T>, a: T, b: T) {
    exists i :: 0 <= i < |ks| && ks[i] == a && b !in ks[..i]
  }

  lemma {:induction false} ListedFirsts<T(!new)>(ks: seq<T>)
    ensures FirstsOf(ListKeys(ks), ks)
  {
    if ks != [] {
      var init, last := ks[..|ks| - 1], ks[|ks| - 1];
      ListedFirsts(init);
      assert ks == init + [last];
      var before, r := ListKeys(init), ListKeys(ks);
      forall i, j | 0 <= i < j < |r| ensures ComesFirst(ks, r[i], r[j]) {
        if j < |before| {
          var k :| 0 <= k < |init| && init[k] == r[i] && r[j] !in init[..k];
          assert ks[k] == r[i] && ks[..k] == init[..k];
        } else {
          assert r[i] in init;
          var k :| 0 <= k < |init| && init[k] == r[i];
          assert ks[k] == r[i] && ks[..k] == init[..k];
          assert r[j] !in init;
        }
      }
    }
  }

  lemma PutEdgeStep(m: Edges, es: seq<CodeEdge>, e: CodeEdge)
    ensures PutEdges(m, es + [e]) == PutEdges(m, es)[KeyOf(e) := e]
  {
    assert (es + [e])[..|es|] == es;
  }

  lemma {:induction false} PutReplacedEdge(m: Edges, es: seq<CodeEdge>, e: CodeEdge)
    requires exists x :: x in es && KeyOf(x) == KeyOf(e)
    ensures PutEdges(m, ReplaceEdge(es, e)) == PutEdges(m, es)[KeyOf(e) := e]
  {
    hide PutEdges;
    var init, last := es[..|es| - 1], es[|es| - 1];
    assert es == init + [last];
    PutEdgeStep(m, init, last);
    if KeyOf(last) == KeyOf(e) {
      PutEdgeStep(m, init, e);
    } else {
      PutReplacedEdge(m, init, e);
      PutEdgeStep(m, ReplaceEdge(init, e), last);
    }
  }

  lemma PutUpsertEdge(m: Edges, es: seq<CodeEdge>, e: CodeEdge)
    ensures PutEdges(m, UpsertEdge(es, e)) == PutEdges(m, es)[KeyOf(e) := e]
  {
    if exists x :: x in es && KeyOf(x) == KeyOf(e) { PutReplacedEdge(m, es, e); }
    else { PutEdgeStep(m, es, e); }
  }

  lemma {:induction false} PutListedEdges(m: Edges, es: seq<CodeEdge>)
    ensures PutEdges(m, ListEdges(es)) == PutEdges(m, es)
  {
    hide UpsertEdge;
    if es != [] {
      PutListedEdges(m, es[..|es| - 1]);
      PutUpsertEdge(m, ListEdges(es[..|es| - 1]), es[|es| - 1]);
    }
  }

  /** What merging comes to: each key once, where it was first reported, with the value that was reported last; and of
      the removed keys each once. */
  lemma MergedExactly(changedPath: Text, ds: seq<Delta>)
    ensures var d := Merge(changedPath, ds);
            && d.changedPath == changedPath
            && FirstsOf(StableKeys(d.entities), StableKeys(AllEntities(ds)))
            && FirstsOf(EdgeKeys(d.edges), EdgeKeys(AllEdges(ds)))
            && FirstsOf(d.removedStableKeys, AllRemoved(ds))
            && (forall m :: PutEntities(m, d.entities) == PutEntities(m, AllEntities(ds)))
            && (forall m :: PutEdges(m, d.edges) == PutEdges(m, AllEdges(ds)))
  {
    hide ListEntities, ListEdges, ListKeys, FirstsOf, PutEntities, PutEdges;
    ListedEntityKeys(AllEntities(ds));
    ListedEdgeKeys(AllEdges(ds));
    ListedFirsts(StableKeys(AllEntities(ds)));
    ListedFirsts(EdgeKeys(AllEdges(ds)));
    ListedFirsts(AllRemoved(ds));
    forall m ensures PutEntities(m, ListEntities(AllEntities(ds))) == PutEntities(m, AllEntities(ds)) {
      PutListed(m, AllEntities(ds));
    }
    forall m ensures PutEdges(m, ListEdges(AllEdges(ds))) == PutEdges(m, AllEdges(ds)) {
      PutListedEdges(m, AllEdges(ds));
    }
  }

  // ---------- What indexing makes of an edge ----------

  lemma {:induction false} PutEdgesAt(m: Edges, es: seq<CodeEdge>, k: EdgeKey)
    ensures var r := PutEdges(m, es);
            && (forall e :: LastReport(es, e) && KeyOf(e) == k ==> k in r && r[k] == e)
            && ((forall i :: 0 <= i < |es| ==> KeyOf(es[i]) != k) ==>
                  (k in r <==> k in m) && (k in r ==> r[k] == m[k]))
  {
    if es != [] {
      var init, last := es[..|es| - 1], es[|es| - 1];
      PutEdgesAt(m, init, k);
      forall e | LastReport(es, e) && KeyOf(e) == k && KeyOf(last) != k ensures LastReport(init, e) {
        KeysAgree(last, e);
        LastInPrefix(es, e);
      }
      forall e | LastReport(es, e) && KeyOf(e) == k && KeyOf(last) == k ensures e == last {
        KeysAgree(last, e);
      }
      assert forall i :: 0 <= i < |init| ==> init[i] == es[i];
    }
  }

  lemma LastInPrefix(es: seq<CodeEdge>, e: CodeEdge)
    requires es != [] && LastReport(es, e) && !SameEdge(es[|es| - 1], e)
    ensures LastReport(es[..|es| - 1], e)
  {
    var i :| 0 <= i < |es| && es[i] == e && forall j :: i < j < |es| ==> !SameEdge(es[j], e);
    assert es[..|es| - 1][i] == e;
  }

  /** Under its key the table holds the last report of an edge that was reported, and of any other edge what it held,
      unless an end of it was touched. */
  ghost predicate EdgesFollow(before: Edges, touched: set<EntityId>, es: seq<CodeEdge>, after: Edges) {
    && (forall e :: LastReport(es, e) ==> KeyOf(e) in after && after[KeyOf(e)] == e)
    && (forall k :: (forall i :: 0 <= i < |es| ==> KeyOf(es[i]) != k) ==>
          (k in after <==> k in before && before[k].from !in touched && before[k].to !in touched))
    && (forall k :: k in after && (forall i :: 0 <= i < |es| ==> KeyOf(es[i]) != k) ==> after[k] == before[k])
  }

  lemma PutFollows(before: Edges, touched: set<EntityId>, es: seq<CodeEdge>)
    ensures EdgesFollow(before, touched, es, PutEdges(WithoutEnds(before, touched), es))
  {
    hide PutEdges, LastReport;
    forall k
      ensures var r, m := PutEdges(WithoutEnds(before, touched), es), WithoutEnds(before, touched);
              && (forall e :: LastReport(es, e) && KeyOf(e) == k ==> k in r && r[k] == e)
              && ((forall i :: 0 <= i < |es| ==> KeyOf(es[i]) != k) ==>
                    (k in r <==> k in m) && (k in r ==> r[k] == m[k]))
    {
      PutEdgesAt(WithoutEnds(before, touched), es, k);
    }
  }

  /** What indexing a file makes of the edges in memory and in the store. */
  lemma IndexedEdges(m: Memory, s: Rows, filePath: Text, ds: seq<Delta>)
    ensures var op := IndexFile(filePath, ds); var d := Merge(MergedPath(filePath, ds), ds);
            && EdgesFollow(m.edges, TouchedIds(m.entities, d), AllEdges(ds), MemoryNext(m, op).edges)
            && EdgesFollow(s.edges, TouchedRows(s.entities, d), AllEdges(ds), RowsNext(s, op).edges)
  {
    hide EdgesFollow, PutEdges, PutEntities, PutRows, WithoutEnds, TouchedIds, TouchedRows, DropKeys, ListEdges;
    var d := Merge(MergedPath(filePath, ds), ds);
    StoreDropsTouched(s, d);
    PutFollows(m.edges, TouchedIds(m.entities, d), AllEdges(ds));
    PutFollows(s.edges, TouchedRows(s.entities, d), AllEdges(ds));
    PutListedEdges(WithoutEnds(m.edges, TouchedIds(m.entities, d)), AllEdges(ds));
    PutListedEdges(WithoutEnds(s.edges, TouchedRows(s.entities, d)), AllEdges(ds));
  }
}
