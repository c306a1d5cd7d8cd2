/** The in-memory code index, the store's copy of it, and what each holds after any run. */
module CodeIndex {
  import opened Arithmetic
  import opened Text
  import opened Wrappers
  import opened CodeGraph

  type StableKey = Text

  datatype EdgeKey = EdgeKey(from: EntityId, to: EntityId, kind: EdgeKind, provider: Text)

  type Entities = map<StableKey, CodeEntity>
  type Edges = map<EdgeKey, CodeEdge>

  datatype Delta = Delta(
    changedPath: Text, entities: seq<CodeEntity>, edges: seq<CodeEdge>, removedStableKeys: seq<StableKey>)

  /** How identifiers come about: a digest of the stable key, taken to be injective, and the path a stable key names. */
  datatype Naming = Naming(identify: StableKey -> EntityId, pathOf: StableKey -> Text)

  ghost predicate Injective(n: Naming) { forall a, b :: n.identify(a) == n.identify(b) ==> a == b }

  function KeyOf(e: CodeEdge): EdgeKey { EdgeKey(e.from, e.to, e.kind, e.provider) }

  // ---------- Keyed upserts ----------

  function PutEntities(m: Entities, es: seq<CodeEntity>): Entities {
    if es == [] then m else var last := es[|es| - 1]; PutEntities(m, es[..|es| - 1])[last.stableKey := last]
  }

  function PutRows(m: map<EntityId, CodeEntity>, es: seq<CodeEntity>): map<EntityId, CodeEntity> {
    if es == [] then m else var last := es[|es| - 1]; PutRows(m, es[..|es| - 1])[last.id := last]
  }

  function PutEdges(m: Edges, es: seq<CodeEdge>): Edges {
    if es == [] then m else var last := es[|es| - 1]; PutEdges(m, es[..|es| - 1])[KeyOf(last) := last]
  }

  function WithoutEnds(edges: Edges, ids: set<EntityId>): Edges {
    map k | k in edges && edges[k].from !in ids && edges[k].to !in ids :: edges[k]
  }

  function WithBothEnds(edges: Edges, ids: set<EntityId>): Edges {
    map k | k in edges && edges[k].from in ids && edges[k].to in ids :: edges[k]
  }

  // ---------- Merging the providers' deltas ----------

  /** All entities, edges and removed keys of the deltas, in order. */
  function AllEntities(ds: seq<Delta>): seq<CodeEntity> {
    if ds == [] then [] else AllEntities(ds[..|ds| - 1]) + ds[|ds| - 1].entities
  }

  function AllEdges(ds: seq<Delta>): seq<CodeEdge> {
    if ds == [] then [] else AllEdges(ds[..|ds| - 1]) + ds[|ds| - 1].edges
  }

  function ReplaceEntity(es: seq<CodeEntity>, e: CodeEntity): seq<CodeEntity> {
    if es == [] then []
    else
      var init, last := es[..|es| - 1], es[|es| - 1];
      if last.stableKey == e.stableKey then init + [e] else ReplaceEntity(init, e) + [last]
  }

  /** Setting a key in an insertion-ordered map: a new value in the old place, or a new place at the end. */
  function UpsertEntity(es: seq<CodeEntity>, e: CodeEntity): seq<CodeEntity> {
    if exists x :: x in es && x.stableKey == e.stableKey then ReplaceEntity(es, e) else es + [e]
  }

  function ReplaceEdge(es: seq<CodeEdge>, e: CodeEdge): seq<CodeEdge> {
    if es == [] then []
    else
      var init, last := es[..|es| - 1], es[|es| - 1];
      if KeyOf(last) == KeyOf(e) then init + [e] else ReplaceEdge(init, e) + [last]
  }

  function UpsertEdge(es: seq<CodeEdge>, e: CodeEdge): seq<CodeEdge> {
    if exists x :: x in es && KeyOf(x) == KeyOf(e) then ReplaceEdge(es, e) else es + [e]
  }

  function ListEntities(es: seq<CodeEntity>): seq<CodeEntity> {
    if es == [] then [] else UpsertEntity(ListEntities(es[..|es| - 1]), es[|es| - 1])
  }

  function ListEdges(es: seq<CodeEdge>): seq<CodeEdge> {
    if es == [] then [] else UpsertEdge(ListEdges(es[..|es| - 1]), es[|es| - 1])
  }

  /** Each element once, in the order of first appearance. */
  function ListKeys<T(==)>(ks: seq<T>): seq<T> {
    if ks == [] then []
    else var before := ListKeys(ks[..|ks| - 1]); if ks[|ks| - 1] in before then before else before + [ks[|ks| - 1]]
  }

  function AllRemoved(ds: seq<Delta>): seq<StableKey> {
    if ds == [] then [] else AllRemoved(ds[..|ds| - 1]) + ds[|ds| - 1].removedStableKeys
  }

  function Merge(changedPath: Text, ds: seq<Delta>): Delta {
    Delta(changedPath, ListEntities(AllEntities(ds)), ListEdges(AllEdges(ds)), ListKeys(AllRemoved(ds)))
  }

  lemma EmptyLists()
    ensures ListEntities([]) == [] && ListEdges([]) == [] && ListKeys<StableKey>([]) == []
  {
  }

  lemma ListEntitiesStep(es: seq<CodeEntity>, e: CodeEntity)
    ensures ListEntities(es + [e]) == UpsertEntity(ListEntities(es), e)
  {
    hide UpsertEntity;
    assert (es + [e])[..|es|] == es;
  }

  method SetEntities(
      listed: seq<CodeEntity>, ghost before: seq<CodeEntity>, more: seq<CodeEntity>) returns (r: seq<CodeEntity>)
    requires listed == ListEntities(before)
    ensures r == ListEntities(before + more)
  {
    hide ListEntities, UpsertEntity;
    r := listed;
    assert before + more[..0] == before;
    for j := 0 to |more|
      invariant r == ListEntities(before + more[..j])
    {
      r := UpsertEntity(r, more[j]);
      ListEntitiesStep(before + more[..j], more[j]);
      assert before + more[..j + 1] == before + more[..j] + [more[j]];
    }
    assert more[..|more|] == more;
  }

  lemma ListEdgesStep(es: seq<CodeEdge>, e: CodeEdge)
    ensures ListEdges(es + [e]) == UpsertEdge(ListEdges(es), e)
  {
    hide UpsertEdge;
    assert (es + [e])[..|es|] == es;
  }

  method SetEdges(listed: seq<CodeEdge>, ghost before: seq<CodeEdge>, more: seq<CodeEdge>) returns (r: seq<CodeEdge>)
    requires listed == ListEdges(before)
    ensures r == ListEdges(before + more)
  {
    hide ListEdges, UpsertEdge;
    r := listed;
    assert before + more[..0] == before;
    for j := 0 to |more|
      invariant r == ListEdges(before + more[..j])
    {
      r := UpsertEdge(r, more[j]);
      ListEdgesStep(before + more[..j], more[j]);
      assert before + more[..j + 1] == before + more[..j] + [more[j]];
    }
    assert more[..|more|] == more;
  }

  method AddKeys(listed: seq<StableKey>, ghost before: seq<StableKey>, more: seq<StableKey>) returns (r: seq<StableKey>)
    requires listed == ListKeys(before)
    ensures r == ListKeys(before + more)
  {
    r := listed;
    assert before + more[..0] == before;
    for j := 0 to |more|
      invariant r == ListKeys(before + more[..j])
    {
      r := if more[j] in r then r else r + [more[j]];
      assert (before + more[..j + 1])[..|before| + j] == before + more[..j];
    }
    assert more[..|more|] == more;
  }

  method MergeDeltas(changedPath: Text, deltas: seq<Delta>) returns (merged: Delta)
    ensures merged == Merge(changedPath, deltas)
  {
    hide ListEntities, ListEdges, ListKeys;
    var entities, edges, removed := [], [], [];
    EmptyLists();
    for i := 0 to |deltas|
      invariant entities == ListEntities(AllEntities(deltas[..i])) && edges == ListEdges(AllEdges(deltas[..i]))
      invariant removed == ListKeys(AllRemoved(deltas[..i]))
    {
      assert deltas[..i + 1][..i] == deltas[..i];
      entities := SetEntities(entities, AllEntities(deltas[..i]), deltas[i].entities);
      edges := SetEdges(edges, AllEdges(deltas[..i]), deltas[i].edges);
      removed := AddKeys(removed, AllRemoved(deltas[..i]), deltas[i].removedStableKeys);
    }
    assert deltas[..|deltas|] == deltas;
    merged := Delta(changedPath, entities, edges, removed);
  }

  // ---------- Memory ----------

  datatype Memory = Memory(entities: Entities, edges: Edges)

  predicate Touched(e: CodeEntity, d: Delta) { e.path == Some(d.changedPath) || e.stableKey in d.removedStableKeys }

  function Untouched(m: Entities, d: Delta): Entities { map k | k in m && !Touched(m[k], d) :: m[k] }

  function TouchedIds(m: Entities, d: Delta): set<EntityId> { set k | k in m && Touched(m[k], d) :: m[k].id }

  /** The memory's update for one composite delta. */
  function IndexDelta(m: Memory, d: Delta): Memory {
    Memory(PutEntities(Untouched(m.entities, d), d.entities),
      PutEdges(WithoutEnds(m.edges, TouchedIds(m.entities, d)), d.edges))
  }

  function Forget(m: Entities, ds: seq<Delta>): Entities {
    if ds == [] then m else Untouched(Forget(m, ds[..|ds| - 1]), ds[|ds| - 1])
  }

  function Ids(m: Entities): set<EntityId> { set k | k in m :: m[k].id }

  function Invalidated(m: Memory, ds: seq<Delta>): Memory {
    var kept := Forget(m.entities, ds);
    Memory(kept, WithBothEnds(m.edges, Ids(kept)))
  }

  // ---------- Store ----------

  datatype Rows = Rows(entities: map<EntityId, CodeEntity>, edges: Edges)

  function IdsAt(rows: map<EntityId, CodeEntity>, path: Text): set<EntityId> {
    set id | id in rows && rows[id].path == Some(path)
  }

  function IdsNamed(rows: map<EntityId, CodeEntity>, key: StableKey): set<EntityId> {
    set id | id in rows && rows[id].stableKey == key
  }

  function DropIds(s: Rows, ids: set<EntityId>): Rows { Rows(s.entities - ids, WithoutEnds(s.edges, ids)) }

  function DropKeys(s: Rows, keys: seq<StableKey>): Rows {
    if keys == [] then s
    else var before := DropKeys(s, keys[..|keys| - 1]); DropIds(before, IdsNamed(before.entities, keys[|keys| - 1]))
  }

  /** The store's update for one delta. */
  function ApplyDelta(s: Rows, d: Delta): Rows {
    var dropped := DropKeys(DropIds(s, IdsAt(s.entities, d.changedPath)), d.removedStableKeys);
    Rows(PutRows(dropped.entities, d.entities), PutEdges(dropped.edges, d.edges))
  }

  function ApplyInvalidations(s: Rows, ds: seq<Delta>): Rows {
    if ds == [] then s
    else
      var last := ds[|ds| - 1];
      ApplyDelta(ApplyInvalidations(s, ds[..|ds| - 1]), Delta(last.changedPath, [], [], last.removedStableKeys))
  }

  // ---------- Memory and store agree ----------

  ghost predicate Named(n: Naming, m: Entities) {
    forall k :: k in m ==> m[k].stableKey == k && m[k].id == n.identify(k)
  }

  ghost predicate NamedRows(n: Naming, rows: map<EntityId, CodeEntity>) {
    forall id :: id in rows ==> rows[id].id == id && id == n.identify(rows[id].stableKey)
  }

  ghost predicate NamedList(n: Naming, es: seq<CodeEntity>) { forall e :: e in es ==> e.id == n.identify(e.stableKey) }

  ghost predicate SameEntities(m: Entities, rows: map<EntityId, CodeEntity>) {
    && (forall k :: k in m ==> m[k].id in rows && rows[m[k].id] == m[k])
    && (forall id :: id in rows ==> rows[id].stableKey in m && m[rows[id].stableKey] == rows[id])
  }

  ghost predicate Mirror(n: Naming, m: Entities, rows: map<EntityId, CodeEntity>) {
    Injective(n) && Named(n, m) && NamedRows(n, rows) && SameEntities(m, rows)
  }

  ghost predicate Submap(a: Edges, b: Edges) { forall k :: k in a ==> k in b && a[k] == b[k] }

  lemma {:induction false} PutMirrors(n: Naming, m: Entities, rows: map<EntityId, CodeEntity>, es: seq<CodeEntity>)
    requires Mirror(n, m, rows) && NamedList(n, es)
    ensures Mirror(n, PutEntities(m, es), PutRows(rows, es))
  {
    if es != [] {
      PutMirrors(n, m, rows, es[..|es| - 1]);
      var last := es[|es| - 1];
      assert last in es;
      PutOneMirrors(n, PutEntities(m, es[..|es| - 1]), PutRows(rows, es[..|es| - 1]), last);
    }
  }

  lemma PutOneMirrors(n: Naming, m: Entities, rows: map<EntityId, CodeEntity>, e: CodeEntity)
    requires Mirror(n, m, rows) && e.id == n.identify(e.stableKey)
    ensures Mirror(n, m[e.stableKey := e], rows[e.id := e])
  {
  }

  lemma {:induction false} PutEdgesSubmap(a: Edges, b: Edges, es: seq<CodeEdge>)
    requires Submap(a, b)
    ensures Submap(PutEdges(a, es), PutEdges(b, es))
  {
    if es != [] { PutEdgesSubmap(a, b, es[..|es| - 1]); }
  }

  /** The rows a delta touches. */
  function TouchedRows(rows: map<EntityId, CodeEntity>, d: Delta): set<EntityId> {
    set id | id in rows && Touched(rows[id], d)
  }

  function RowsNamedIn(rows: map<EntityId, CodeEntity>, keys: seq<StableKey>): set<EntityId> {
    set id | id in rows && rows[id].stableKey in keys
  }

  /** Deleting key by key comes to deleting all the named rows at once. */
  lemma {:induction false} DropKeysAtOnce(s: Rows, keys: seq<StableKey>)
    ensures DropKeys(s, keys) == DropIds(s, RowsNamedIn(s.entities, keys))
  {
    if keys == [] {
      assert RowsNamedIn(s.entities, keys) == {};
      assert DropIds(s, {}).entities == s.entities && DropIds(s, {}).edges == s.edges;
    } else {
      var init, last := keys[..|keys| - 1], keys[|keys| - 1];
      DropKeysAtOnce(s, init);
      assert keys == init + [last];
      var a := RowsNamedIn(s.entities, init);
      DropTwice(s, a, IdsNamed(s.entities - a, last));
      assert a + IdsNamed(s.entities - a, last) == RowsNamedIn(s.entities, keys);
    }
  }

  lemma DropTwice(s: Rows, a: set<EntityId>, b: set<EntityId>)
    ensures DropIds(DropIds(s, a), b) == DropIds(s, a + b)
  {
    assert s.entities - a - b == s.entities - (a + b);
    assert WithoutEnds(WithoutEnds(s.edges, a), b) == WithoutEnds(s.edges, a + b);
  }

  lemma StoreDropsTouched(s: Rows, d: Delta)
    ensures DropKeys(DropIds(s, IdsAt(s.entities, d.changedPath)), d.removedStableKeys) ==
            DropIds(s, TouchedRows(s.entities, d))
  {
    var a := IdsAt(s.entities, d.changedPath);
    var b := RowsNamedIn(s.entities - a, d.removedStableKeys);
    DropKeysAtOnce(DropIds(s, a), d.removedStableKeys);
    DropTwice(s, a, b);
    assert a + b == TouchedRows(s.entities, d);
  }

  lemma DropMirrors(n: Naming, m: Entities, rows: map<EntityId, CodeEntity>, d: Delta)
    requires Mirror(n, m, rows)
    ensures Mirror(n, Untouched(m, d), rows - TouchedRows(rows, d))
    ensures TouchedIds(m, d) == TouchedRows(rows, d)
  {
    hide Touched;
  }

  /** Indexing a file keeps memory and store in step. */
  lemma IndexKeepsMirror(n: Naming, m: Memory, s: Rows, d: Delta)
    requires Mirror(n, m.entities, s.entities) && NamedList(n, d.entities) && Submap(m.edges, s.edges)
    ensures var m', s' := IndexDelta(m, d), ApplyDelta(s, d);
            Mirror(n, m'.entities, s'.entities) && Submap(m'.edges, s'.edges) &&
              (m.edges == s.edges ==> m'.edges == s'.edges)
  {
    hide Mirror, Touched, NamedList;
    StoreDropsTouched(s, d);
    DropMirrors(n, m.entities, s.entities, d);
    var ids := TouchedRows(s.entities, d);
    PutMirrors(n, Untouched(m.entities, d), s.entities - ids, d.entities);
    PutEdgesSubmap(WithoutEnds(m.edges, ids), WithoutEnds(s.edges, ids), d.edges);
  }

  lemma {:induction false} ForgetMirrors(n: Naming, m: Entities, s: Rows, ds: seq<Delta>)
    requires Mirror(n, m, s.entities)
    ensures Mirror(n, Forget(m, ds), ApplyInvalidations(s, ds).entities)
    ensures ApplyInvalidations(s, ds).entities.Keys <= s.entities.Keys
    ensures ApplyInvalidations(s, ds).edges ==
            WithoutEnds(s.edges, s.entities.Keys - ApplyInvalidations(s, ds).entities.Keys)
  {
    if ds == [] {
      assert WithoutEnds(s.edges, {}) == s.edges;
    } else {
      var init, last := ds[..|ds| - 1], ds[|ds| - 1];
      ForgetMirrors(n, m, s, init);
      var before := ApplyInvalidations(s, init);
      InvalidateOne(n, Forget(m, init), before, last);
      OneInvalidation(before, last);
      var gone := TouchedRows(before.entities, last);
      DropTwice(Rows(s.entities, s.edges), s.entities.Keys - before.entities.Keys, gone);
      assert (s.entities.Keys - before.entities.Keys) + gone == s.entities.Keys - (before.entities - gone).Keys;
    }
  }

  lemma OneInvalidation(s: Rows, d: Delta)
    ensures ApplyDelta(s, Delta(d.changedPath, [], [], d.removedStableKeys)) == DropIds(s, TouchedRows(s.entities, d))
  {
    var plain := Delta(d.changedPath, [], [], d.removedStableKeys);
    StoreDropsTouched(s, plain);
    assert TouchedRows(s.entities, plain) == TouchedRows(s.entities, d);
  }

  lemma InvalidateOne(n: Naming, m: Entities, s: Rows, d: Delta)
    requires Mirror(n, m, s.entities)
    ensures Mirror(n, Untouched(m, d), ApplyDelta(s, Delta(d.changedPath, [], [], d.removedStableKeys)).entities)
  {
    hide Mirror;
    OneInvalidation(s, d);
    DropMirrors(n, m, s.entities, d);
  }

  lemma MirrorIds(n: Naming, m: Entities, rows: map<EntityId, CodeEntity>)
    requires Mirror(n, m, rows)
    ensures Ids(m) == rows.Keys
  {
  }

  /** The rows that some of the deltas touch. */
  ghost function InvalidatedRows(rows: map<EntityId, CodeEntity>, ds: seq<Delta>): (gone: set<EntityId>)
    ensures gone <= rows.Keys
  {
    set id | id in rows && exists d :: d in ds && Touched(rows[id], d)
  }

  lemma {:induction false} InvalidationDropsRows(s: Rows, ds: seq<Delta>)
    ensures ApplyInvalidations(s, ds) == DropIds(s, InvalidatedRows(s.entities, ds))
  {
    hide Touched;
    if ds == [] {
      assert InvalidatedRows(s.entities, ds) == {};
      assert DropIds(s, {}).entities == s.entities && DropIds(s, {}).edges == s.edges;
    } else {
      var init, last := ds[..|ds| - 1], ds[|ds| - 1];
      InvalidationDropsRows(s, init);
      var a := InvalidatedRows(s.entities, init);
      var rest := s.entities - a;
      OneInvalidation(DropIds(s, a), last);
      assert ds == init + [last];
      DropTwice(s, a, TouchedRows(rest, last));
      assert a + TouchedRows(rest, last) == InvalidatedRows(s.entities, ds);
    }
  }

  /** Invalidation keeps the entities in step. Of equal edges memory keeps those that do not dangle, so that they stay
      equal exactly when each of the store's dangling edges has its other end among the invalidated rows. */
  lemma InvalidateKeepsMirror(n: Naming, m: Memory, s: Rows, ds: seq<Delta>)
    requires Mirror(n, m.entities, s.entities) && Submap(m.edges, s.edges)
    ensures var m', s', gone := Invalidated(m, ds), ApplyInvalidations(s, ds), InvalidatedRows(s.entities, ds);
            && Mirror(n, m'.entities, s'.entities) && Submap(m'.edges, s'.edges)
            && (m.edges == s.edges ==> m'.edges == WithBothEnds(s'.edges, s'.entities.Keys))
            && (m.edges == s.edges ==> (m'.edges == s'.edges <==>
                  forall k :: k in s.edges && !(s.edges[k].from in s.entities && s.edges[k].to in s.entities) ==>
                    s.edges[k].from in gone || s.edges[k].to in gone))
  {
    hide Mirror, InvalidatedRows, ApplyInvalidations, Forget, Submap;
    ForgetMirrors(n, m.entities, s, ds);
    MirrorIds(n, Forget(m.entities, ds), ApplyInvalidations(s, ds).entities);
    InvalidationDropsRows(s, ds);
    var gone := InvalidatedRows(s.entities, ds);
    SweptSubmap(m.edges, s, gone);
    if m.edges == s.edges { DanglingRemain(s, gone); }
  }

  lemma SweptSubmap(edges: Edges, s: Rows, gone: set<EntityId>)
    requires Submap(edges, s.edges)
    ensures var s' := DropIds(s, gone); Submap(WithBothEnds(edges, s'.entities.Keys), s'.edges)
    ensures var s' := DropIds(s, gone);
            WithBothEnds(s.edges, s'.entities.Keys) == WithBothEnds(s'.edges, s'.entities.Keys)
  {
  }

  lemma DanglingRemain(s: Rows, gone: set<EntityId>)
    requires gone <= s.entities.Keys
    ensures var s' := DropIds(s, gone);
            WithBothEnds(s'.edges, s'.entities.Keys) == s'.edges <==>
              forall k :: k in s.edges && !(s.edges[k].from in s.entities && s.edges[k].to in s.entities) ==>
                s.edges[k].from in gone || s.edges[k].to in gone
  {
    var s' := DropIds(s, gone);
    var swept := WithBothEnds(s'.edges, s'.entities.Keys);
    if swept == s'.edges {
      forall k | k in s.edges && !(s.edges[k].from in s.entities && s.edges[k].to in s.entities)
        ensures s.edges[k].from in gone || s.edges[k].to in gone
      {
        assert k in s'.edges ==> k in swept;
      }
    }
  }

  // ---------- Runs ----------

  /** A call with what the providers returned for it. */
  datatype Op = IndexFile(filePath: Text, deltas: seq<Delta>) | Invalidate(deltas: seq<Delta>)

  function MergedPath(filePath: Text, deltas: seq<Delta>): Text {
    if deltas != [] then deltas[0].changedPath else filePath
  }

  function MemoryNext(m: Memory, op: Op): Memory {
    match op
    case IndexFile(f, ds) => IndexDelta(m, Merge(MergedPath(f, ds), ds))
    case Invalidate(ds) => Invalidated(m, ds)
  }

  function RowsNext(s: Rows, op: Op): Rows {
    match op
    case IndexFile(f, ds) => ApplyDelta(s, Merge(MergedPath(f, ds), ds))
    case Invalidate(ds) => ApplyInvalidations(s, ds)
  }

  function RunMemory(run: seq<Op>): Memory {
    if run == [] then Memory(map[], map[]) else MemoryNext(RunMemory(run[..|run| - 1]), run[|run| - 1])
  }

  function RunRows(run: seq<Op>): Rows {
    if run == [] then Rows(map[], map[]) else RowsNext(RunRows(run[..|run| - 1]), run[|run| - 1])
  }

  ghost predicate NamedOp(n: Naming, op: Op) { op.IndexFile? ==> NamedList(n, AllEntities(op.deltas)) }

  lemma {:induction false} ReplaceMember(es: seq<CodeEntity>, e: CodeEntity)
    ensures forall x :: x in ReplaceEntity(es, e) ==> x in es || x == e
  {
    if es != [] { ReplaceMember(es[..|es| - 1], e); }
  }

  lemma UpsertMember(es: seq<CodeEntity>, e: CodeEntity)
    ensures forall x :: x in UpsertEntity(es, e) ==> x in es || x == e
  {
    ReplaceMember(es, e);
  }

  lemma {:induction false} ListedNamed(n: Naming, es: seq<CodeEntity>)
    requires NamedList(n, es)
    ensures NamedList(n, ListEntities(es))
  {
    if es != [] {
      var init, last := es[..|es| - 1], es[|es| - 1];
      ListedNamed(n, init);
      UpsertMember(ListEntities(init), last);
      assert last in es;
    }
  }

  /** Memory and store hold the same entities after every run, the memory's edges are always among the
      store's, and they are the same as long as nothing was invalidated. */
  lemma {:induction false} MemoryMirrorsStore(n: Naming, run: seq<Op>)
    requires Injective(n) && forall op :: op in run ==> NamedOp(n, op)
    ensures Mirror(n, RunMemory(run).entities, RunRows(run).entities)
    ensures Submap(RunMemory(run).edges, RunRows(run).edges)
    ensures (forall op :: op in run ==> op.IndexFile?) ==> RunMemory(run).edges == RunRows(run).edges
  {
    hide Mirror, Submap, IndexDelta, ApplyDelta, Invalidated, ApplyInvalidations, NamedList;
    if run == [] {
      EmptyMirrors(n);
    } else {
      var init, op := run[..|run| - 1], run[|run| - 1];
      assert op in run;
      MemoryMirrorsStore(n, init);
      if op.IndexFile? {
        ListedNamed(n, AllEntities(op.deltas));
        IndexKeepsMirror(n, RunMemory(init), RunRows(init), Merge(MergedPath(op.filePath, op.deltas), op.deltas));
      } else {
        InvalidateKeepsMirror(n, RunMemory(init), RunRows(init), op.deltas);
      }
    }
  }

  lemma EmptyMirrors(n: Naming)
    requires Injective(n)
    ensures Mirror(n, map[], map[]) && Submap(map[], map[])
  {
  }

  // ---------- The latest delta of each path ----------

  /** What the providers promise of each entity: it carries the path that its key names. */
  ghost predicate WellNamed(n: Naming, op: Op) {
    op.IndexFile? ==> forall e :: e in AllEntities(op.deltas) ==> e.path == Some(n.pathOf(e.stableKey))
  }

  /** Whether a call leaves a key of another path as it found it. For a key of a path the call concerns there is nothing
      to ask; of any other key, what is reported must be held already, and what is removed must not be held. */
  ghost predicate KeepsLatestAt(n: Naming, m: Entities, op: Op, k: StableKey) {
    Concerns(op, n.pathOf(k)) ||
    match op
    case IndexFile(_, ds) =>
      var es := PutEntities(map[], AllEntities(ds));
      (k in es ==> k in m && m[k] == es[k]) && (k in AllRemoved(ds) && k !in es ==> k !in m)
    case Invalidate(ds) => (exists d :: d in ds && k in d.removedStableKeys) ==> k !in m
  }

  ghost predicate KeepsLatest(n: Naming, m: Entities, op: Op) { forall k :: KeepsLatestAt(n, m, op, k) }

  /** Every call of the run meets that condition when it is made. */
  ghost predicate RunKeepsLatest(n: Naming, run: seq<Op>) {
    forall i :: 0 <= i < |run| ==> KeepsLatest(n, RunMemory(run[..i]).entities, run[i])
  }

  predicate Concerns(op: Op, p: Text) {
    match op
    case IndexFile(f, ds) => MergedPath(f, ds) == p
    case Invalidate(ds) => exists d :: d in ds && d.changedPath == p
  }

  /** What the latest call that concerns a path reported for it. */
  function Latest(run: seq<Op>, p: Text): Entities {
    if run == [] then map[]
    else
      var init, op := run[..|run| - 1], run[|run| - 1];
      if !Concerns(op, p) then Latest(init, p)
      else if op.IndexFile? then PutEntities(map[], AllEntities(op.deltas))
      else map[]
  }

  /** Under every key, what the latest call for the key's path reported. */
  ghost predicate HoldsLatest(n: Naming, m: Entities, run: seq<Op>) {
    forall k :: HoldsLatestAt(n, m, run, k)
  }

  ghost predicate HoldsLatestAt(n: Naming, m: Entities, run: seq<Op>, k: StableKey) {
    var latest := Latest(run, n.pathOf(k));
    && (k in m <==> k in latest)
    && (k in m ==> m[k] == latest[k] && m[k].stableKey == k && m[k].path == Some(n.pathOf(k)))
  }

  lemma PutStep(m: Entities, es: seq<CodeEntity>, e: CodeEntity)
    ensures PutEntities(m, es + [e]) == PutEntities(m, es)[e.stableKey := e]
  {
    assert (es + [e])[..|es|] == es;
  }

  lemma {:induction false} PutReplaced(m: Entities, es: seq<CodeEntity>, e: CodeEntity)
    requires exists x :: x in es && x.stableKey == e.stableKey
    ensures PutEntities(m, ReplaceEntity(es, e)) == PutEntities(m, es)[e.stableKey := e]
  {
    hide PutEntities;
    var init, last := es[..|es| - 1], es[|es| - 1];
    assert es == init + [last];
    PutStep(m, init, last);
    if last.stableKey == e.stableKey {
      PutStep(m, init, e);
    } else {
      PutReplaced(m, init, e);
      PutStep(m, ReplaceEntity(init, e), last);
    }
  }

  lemma PutUpsert(m: Entities, es: seq<CodeEntity>, e: CodeEntity)
    ensures PutEntities(m, UpsertEntity(es, e)) == PutEntities(m, es)[e.stableKey := e]
  {
    if exists x :: x in es && x.stableKey == e.stableKey { PutReplaced(m, es, e); }
    else { PutStep(m, es, e); }
  }

  lemma {:induction false} PutListed(m: Entities, es: seq<CodeEntity>)
    ensures PutEntities(m, ListEntities(es)) == PutEntities(m, es)
  {
    if es != [] {
      PutListed(m, es[..|es| - 1]);
      PutUpsert(m, ListEntities(es[..|es| - 1]), es[|es| - 1]);
    }
  }

  lemma {:induction false} PutAt(m: Entities, es: seq<CodeEntity>, k: StableKey)
    ensures var a, b := PutEntities(m, es), PutEntities(map[], es);
            && (k in a <==> k in b || k in m)
            && (k in b ==> a[k] == b[k] && b[k] in es && b[k].stableKey == k)
            && (k !in b && k in m ==> a[k] == m[k])
  {
    if es != [] {
      PutAt(m, es[..|es| - 1], k);
      assert es[|es| - 1] in es;
    }
  }

  lemma {:induction false} ListKeysMembers(ks: seq<StableKey>)
    ensures forall k :: k in ListKeys(ks) <==> k in ks
  {
    if ks != [] {
      ListKeysMembers(ks[..|ks| - 1]);
      assert ks == ks[..|ks| - 1] + [ks[|ks| - 1]];
    }
  }

  lemma IndexHoldsLatest(n: Naming, m: Entities, run: seq<Op>, op: Op, k: StableKey)
    requires HoldsLatestAt(n, m, run, k) && op.IndexFile? && WellNamed(n, op)
    ensures var d := Merge(MergedPath(op.filePath, op.deltas), op.deltas);
            HoldsLatestAt(n, PutEntities(Untouched(m, d), d.entities), run + [op], k) <==> KeepsLatestAt(n, m, op, k)
  {
    var d := Merge(MergedPath(op.filePath, op.deltas), op.deltas);
    var es := AllEntities(op.deltas);
    assert (run + [op])[..|run|] == run;
    hide AllEntities, AllRemoved, ListKeys, ListEntities, PutEntities, Latest;
    LatestStep(run, op, n.pathOf(k));
    PutListed(Untouched(m, d), es);
    PutAt(Untouched(m, d), es, k);
    ListKeysMembers(AllRemoved(op.deltas));
  }

  lemma LatestStep(run: seq<Op>, op: Op, p: Text)
    ensures Latest(run + [op], p) ==
            if !Concerns(op, p) then Latest(run, p) else if op.IndexFile?
              then PutEntities(map[], AllEntities(op.deltas)) else map[]
  {
    assert (run + [op])[..|run|] == run;
  }

  lemma {:induction false} ForgetAt(m: Entities, ds: seq<Delta>, k: StableKey)
    ensures var r := Forget(m, ds);
            && (k in r ==> k in m && r[k] == m[k])
            && (k in m ==> (k !in r <==> exists d :: d in ds && Touched(m[k], d)))
  {
    hide Touched;
    if ds != [] {
      var init, last := ds[..|ds| - 1], ds[|ds| - 1];
      ForgetAt(m, init, k);
      assert ds == init + [last];
    }
  }

  lemma InvalidateHoldsLatest(n: Naming, m: Entities, run: seq<Op>, op: Op, k: StableKey)
    requires HoldsLatestAt(n, m, run, k) && op.Invalidate?
    ensures HoldsLatestAt(n, Forget(m, op.deltas), run + [op], k) <==> KeepsLatestAt(n, m, op, k)
  {
    hide Latest, Forget;
    LatestStep(run, op, n.pathOf(k));
    ForgetAt(m, op.deltas, k);
  }

  /** A call that finds the latest reports leaves the latest reports exactly when it keeps what belongs to other
      paths. */
  lemma NextHoldsLatest(n: Naming, m: Memory, run: seq<Op>, op: Op)
    requires HoldsLatest(n, m.entities, run) && WellNamed(n, op)
    ensures HoldsLatest(n, MemoryNext(m, op).entities, run + [op]) <==> KeepsLatest(n, m.entities, op)
  {
    hide HoldsLatestAt, KeepsLatestAt, WellNamed, PutEntities, Forget, Untouched;
    var after := MemoryNext(m, op).entities;
    forall k ensures HoldsLatestAt(n, after, run + [op], k) <==> KeepsLatestAt(n, m.entities, op, k) {
      assert HoldsLatestAt(n, m.entities, run, k);
      if op.IndexFile? {
        IndexHoldsLatest(n, m.entities, run, op, k);
      } else {
        InvalidateHoldsLatest(n, m.entities, run, op, k);
      }
    }
  }

  ghost predicate AlwaysLatest(n: Naming, run: seq<Op>) {
    forall i :: 0 <= i <= |run| ==> HoldsLatest(n, RunMemory(run[..i]).entities, run[..i])
  }

  /** The entities are, after each call of a run, the union over all paths of the latest report for each, exactly when
      every call keeps what belongs to other paths. */
  lemma {:induction false} EntitiesAreLatest(n: Naming, run: seq<Op>)
    requires forall op :: op in run ==> WellNamed(n, op)
    ensures AlwaysLatest(n, run) <==> RunKeepsLatest(n, run)
  {
    hide WellNamed, HoldsLatest, KeepsLatest, RunMemory;
    if run == [] {
      NothingLatest(n);
    } else {
      var init, op := run[..|run| - 1], run[|run| - 1];
      assert op in run && run == init + [op];
      EntitiesAreLatest(n, init);
      forall i | 0 <= i <= |init| ensures run[..i] == init[..i] {}
      assert init[..|init|] == init && run[..|run|] == run;
      RunMemoryStep(init, op);
      if AlwaysLatest(n, init) {
        assert HoldsLatest(n, RunMemory(init[..|init|]).entities, init[..|init|]);
        NextHoldsLatest(n, RunMemory(init), init, op);
      }
      LatestSplits(n, init, op);
    }
  }

  lemma LatestSplits(n: Naming, init: seq<Op>, op: Op)
    ensures AlwaysLatest(n, init + [op]) <==>
              AlwaysLatest(n, init) && HoldsLatest(n, RunMemory(init + [op]).entities, init + [op])
    ensures RunKeepsLatest(n, init + [op]) <==>
              RunKeepsLatest(n, init) && KeepsLatest(n, RunMemory(init).entities, op)
  {
    hide HoldsLatest, KeepsLatest, RunMemory;
    var run := init + [op];
    assert forall i :: 0 <= i <= |init| ==> run[..i] == init[..i];
    assert run[..|run|] == run && init[..|init|] == init && run[|init|] == op;
    if AlwaysLatest(n, run) {
      forall i | 0 <= i <= |init| ensures HoldsLatest(n, RunMemory(init[..i]).entities, init[..i]) {
        assert HoldsLatest(n, RunMemory(run[..i]).entities, run[..i]);
      }
      assert HoldsLatest(n, RunMemory(run[..|run|]).entities, run[..|run|]);
    }
    if RunKeepsLatest(n, run) {
      forall i | 0 <= i < |init| ensures KeepsLatest(n, RunMemory(init[..i]).entities, init[i]) {
        assert KeepsLatest(n, RunMemory(run[..i]).entities, run[i]);
      }
      assert KeepsLatest(n, RunMemory(run[..|init|]).entities, run[|init|]);
    }
  }

  lemma RunMemoryStep(init: seq<Op>, op: Op)
    ensures RunMemory(init + [op]) == MemoryNext(RunMemory(init), op)
  {
    assert (init + [op])[..|init|] == init;
  }

  lemma NothingLatest(n: Naming)
    ensures HoldsLatest(n, RunMemory([]).entities, [])
  {
  }

  /** The providers agree on the path, and name nothing that belongs to another. */
  ghost predicate Coherent(n: Naming, op: Op) {
    match op
    case IndexFile(f, ds) =>
      var p := MergedPath(f, ds);
      (forall e :: e in AllEntities(ds) ==> n.pathOf(e.stableKey) == p) &&
          (forall k :: k in AllRemoved(ds) ==> n.pathOf(k) == p)
    case Invalidate(ds) => forall d, k :: d in ds && k in d.removedStableKeys ==> n.pathOf(k) == d.changedPath
  }

  /** Calls in which the providers agree keep the latest reports, whatever the index holds. */
  lemma CoherentCallsKeepLatest(n: Naming, m: Entities, op: Op)
    requires Coherent(n, op)
    ensures KeepsLatest(n, m, op)
  {
    hide AllEntities, AllRemoved;
    forall k ensures KeepsLatestAt(n, m, op, k) {
      if op.IndexFile? {
        PutAt(map[], AllEntities(op.deltas), k);
      }
    }
  }

  /** The interleaving across paths does not matter. */
  lemma InterleavingIsFree(n: Naming, a: seq<Op>, b: seq<Op>)
    requires (forall op :: op in a ==> WellNamed(n, op)) && (forall op :: op in b ==> WellNamed(n, op))
    requires RunKeepsLatest(n, a) && RunKeepsLatest(n, b)
    requires forall p :: Latest(a, p) == Latest(b, p)
    ensures RunMemory(a).entities == RunMemory(b).entities
  {
    hide Latest, RunMemory, RunKeepsLatest, WellNamed;
    EntitiesAreLatest(n, a);
    EntitiesAreLatest(n, b);
    var x, y := RunMemory(a).entities, RunMemory(b).entities;
    assert a[..|a|] == a && b[..|b|] == b;
    assert HoldsLatest(n, RunMemory(a[..|a|]).entities, a[..|a|]);
    assert HoldsLatest(n, RunMemory(b[..|b|]).entities, b[..|b|]);
    forall k ensures (k in x <==> k in y) && (k in x ==> x[k] == y[k]) {
      assert HoldsLatestAt(n, x, a, k) && HoldsLatestAt(n, y, b, k);
    }
  }

  lemma OneDelta(d: Delta)
    ensures AllEntities([d]) == d.entities && AllRemoved([d]) == d.removedStableKeys
  {
    assert [d][..0] == [];
    assert AllEntities([]) == [] && AllRemoved([]) == [];
  }

  lemma TwoDeltas(d: Delta, e: Delta)
    ensures AllEntities([d, e]) == d.entities + e.entities &&
            AllRemoved([d, e]) == d.removedStableKeys + e.removedStableKeys
  {
    assert [d, e][..1] == [d];
    OneDelta(d);
  }

  lemma OneListed(e: CodeEntity, m: Entities)
    ensures ListEntities([e]) == [e] && PutEntities(m, [e]) == m[e.stableKey := e] && ListKeys<StableKey>([]) == []
  {
    assert [e][..0] == [];
    assert ListEntities([]) == [] && PutEntities(m, []) == m;
  }

  lemma IndexedOne(m: Memory, path: Text, e: CodeEntity, ds: seq<Delta>)
    requires AllEntities(ds) == [e] && AllRemoved(ds) == []
    ensures IndexDelta(m, Merge(path, ds)).entities ==
            (map k | k in m.entities && m.entities[k].path != Some(path) :: m.entities[k])[e.stableKey := e]
  {
    var d := Merge(path, ds);
    OneListed(e, Untouched(m.entities, d));
    assert d.entities == [e] && d.removedStableKeys == [];
    assert Untouched(m.entities, d) == map k | k in m.entities && m.entities[k].path != Some(path) :: m.entities[k];
  }

  lemma RunOne(op: Op)
    ensures RunMemory([op]) == MemoryNext(Memory(map[], map[]), op)
  {
    assert [op][..0] == [];
    assert RunMemory([]) == Memory(map[], map[]);
  }

  /** When the first provider fails, the call goes under the path as the caller wrote it; if the path is
      canonical in another form, what the index held for it stays beside what is reported now. */
  lemma StaleAfterFailedProvider(stale: CodeEntity, newer: CodeEntity, canonical: Text, asWritten: Text)
    requires canonical != asWritten && stale.path == newer.path == Some(canonical) && stale.stableKey != newer.stableKey
    ensures var first := IndexFile(canonical, [Delta(canonical, [stale], [], [])]);
            var again := IndexFile(asWritten, [Delta(asWritten, [], [], []), Delta(canonical, [newer], [], [])]);
            RunMemory([first, again]).entities == map[stale.stableKey := stale, newer.stableKey := newer]
  {
    hide IndexDelta, Merge;
    var one, two := Delta(asWritten, [], [], []), Delta(canonical, [newer], [], []);
    var first := IndexFile(canonical, [Delta(canonical, [stale], [], [])]);
    var again := IndexFile(asWritten, [one, two]);
    OneDelta(first.deltas[0]);
    TwoDeltas(one, two);
    IndexedOne(Memory(map[], map[]), canonical, stale, first.deltas);
    RunOne(first);
    var before := RunMemory([first]);
    assert before.entities == map[stale.stableKey := stale];
    IndexedOne(before, asWritten, newer, again.deltas);
    assert [first, again][..1] == [first];
  }

  // ---------- The classes ----------

  /** The store's code tables for one worktree. */
  class CodeStore {
    var entities: map<EntityId, CodeEntity>
    var edges: Edges

    ghost function Contents(): Rows
      reads this
    {
      Rows(entities, edges)
    }

    constructor ()
      ensures Contents() == Rows(map[], map[])
    {
      entities, edges := map[], map[];
    }

    method ApplyCodeStateDelta(d: Delta)
      modifies this
      ensures Contents() == ApplyDelta(old(Contents()), d)
    {
      hide DropKeys;
      var oldIds := IdsAt(entities, d.changedPath);
      edges := WithoutEnds(edges, oldIds);
      entities := entities - oldIds;
      ghost var s := Contents();
      NoKeys(s);
      for i := 0 to |d.removedStableKeys|
        invariant Contents() == DropKeys(s, d.removedStableKeys[..i])
      {
        var ids := IdsNamed(entities, d.removedStableKeys[i]);
        edges := WithoutEnds(edges, ids);
        entities := entities - ids;
        OneMoreKey(s, d.removedStableKeys, i);
      }
      assert d.removedStableKeys[..|d.removedStableKeys|] == d.removedStableKeys;
      ghost var dropped := Contents();
      for i := 0 to |d.entities|
        invariant edges == dropped.edges && entities == PutRows(dropped.entities, d.entities[..i])
      {
        entities := entities[d.entities[i].id := d.entities[i]];
        assert d.entities[..i + 1][..i] == d.entities[..i];
      }
      assert d.entities[..|d.entities|] == d.entities;
      for i := 0 to |d.edges|
        invariant entities == PutRows(dropped.entities, d.entities) && edges == PutEdges(dropped.edges, d.edges[..i])
      {
        edges := edges[KeyOf(d.edges[i]) := d.edges[i]];
        assert d.edges[..i + 1][..i] == d.edges[..i];
      }
      assert d.edges[..|d.edges|] == d.edges;
    }
  }

  lemma NoKeys(s: Rows)
    ensures DropKeys(s, []) == s
  {
  }

  lemma OneMoreKey(s: Rows, keys: seq<StableKey>, i: nat)
    requires i < |keys|
    ensures var before := DropKeys(s, keys[..i]);
            DropKeys(s, keys[..i + 1]) == DropIds(before, IdsNamed(before.entities, keys[i]))
  {
    assert keys[..i + 1][..i] == keys[..i];
  }

  /** The index in memory, which writes every change through to the store. */
  class CodeStateIndexer {
    var entities: Entities
    var edges: Edges
    const persistence: CodeStore

    ghost function Contents(): Memory
      reads this
    {
      Memory(entities, edges)
    }

    constructor (store: CodeStore)
      ensures Contents() == Memory(map[], map[]) && persistence == store
    {
      entities, edges := map[], map[];
      persistence := store;
    }

    /** Deletes the entities a delta touches, one by one, and returns their identifiers. */
    method DeleteTouched(d: Delta) returns (removedIds: set<EntityId>)
      modifies this`entities
      ensures entities == Untouched(old(entities), d) && removedIds == TouchedIds(old(entities), d)
    {
      removedIds := {};
      var before := entities;
      var rest := before.Keys;
      while rest != {}
        invariant rest <= before.Keys && before == old(entities)
        invariant entities == map k | k in before && (k in rest || !Touched(before[k], d)) :: before[k]
        invariant removedIds == set k | k in before && k !in rest && Touched(before[k], d) :: before[k].id
        decreases rest
      {
        var k :| k in rest;
        if Touched(before[k], d) {
          removedIds := removedIds + {before[k].id};
          entities := entities - {k};
        }
        rest := rest - {k};
      }
    }

    method SetEntities(es: seq<CodeEntity>)
      modifies this`entities
      ensures entities == PutEntities(old(entities), es)
    {
      for i := 0 to |es|
        invariant entities == PutEntities(old(entities), es[..i])
      {
        entities := entities[es[i].stableKey := es[i]];
        assert es[..i + 1][..i] == es[..i];
      }
      assert es[..|es|] == es;
    }

    method SetEdges(es: seq<CodeEdge>)
      modifies this`edges
      ensures edges == PutEdges(old(edges), es)
    {
      for i := 0 to |es|
        invariant edges == PutEdges(old(edges), es[..i])
      {
        edges := edges[KeyOf(es[i]) := es[i]];
        assert es[..i + 1][..i] == es[..i];
      }
      assert es[..|es|] == es;
    }

    method IndexFile(filePath: Text, deltas: seq<Delta>) returns (merged: Delta)
      modifies this`entities, this`edges, persistence
      ensures merged == Merge(MergedPath(filePath, deltas), deltas)
      ensures Contents() == MemoryNext(old(Contents()), Op.IndexFile(filePath, deltas))
      ensures persistence.Contents() == RowsNext(old(persistence.Contents()), Op.IndexFile(filePath, deltas))
    {
      merged := MergeDeltas(if deltas != [] then deltas[0].changedPath else filePath, deltas);
      var removedIds := DeleteTouched(merged);
      edges := WithoutEnds(edges, removedIds);
      SetEntities(merged.entities);
      SetEdges(merged.edges);
      persistence.ApplyCodeStateDelta(merged);
    }

    method Invalidate(deltas: seq<Delta>)
      modifies this`entities, this`edges, persistence
      ensures Contents() == MemoryNext(old(Contents()), Op.Invalidate(deltas))
      ensures persistence.Contents() == RowsNext(old(persistence.Contents()), Op.Invalidate(deltas))
    {
      for i := 0 to |deltas|
        invariant entities == Forget(old(entities), deltas[..i]) && edges == old(edges)
        invariant persistence.Contents() == old(persistence.Contents())
      {
        var _ := DeleteTouched(deltas[i]);
        assert deltas[..i + 1][..i] == deltas[..i];
      }
      assert deltas[..|deltas|] == deltas;
      edges := WithBothEnds(edges, Ids(entities));
      for i := 0 to |deltas|
        invariant Contents() == Invalidated(old(Contents()), deltas)
        invariant persistence.Contents() == ApplyInvalidations(old(persistence.Contents()), deltas[..i])
      {
        persistence.ApplyCodeStateDelta(Delta(deltas[i].changedPath, [], [], deltas[i].removedStableKeys));
        assert deltas[..i + 1][..i] == deltas[..i];
      }
    }

    /** Takes over what the store's queries return. */
    method Load(ghost n: Naming, page: Rows)
      requires PageOf(persistence.Contents(), page) && Injective(n) && NamedRows(n, persistence.entities)
      modifies this`entities, this`edges
      ensures Mirror(n, entities, page.entities) && edges == page.edges
      ensures |persistence.entities| <= MAX_ENTITY_ROWS ==> Mirror(n, entities, persistence.entities)
      ensures |persistence.edges| <= MAX_EDGE_ROWS ==> edges == persistence.edges
    {
      hide Mirror, PageOf, Injective;
      PageIsWhole(persistence.Contents(), page);
      NamedPage(n, persistence.Contents(), page);
      edges := page.edges;
      entities := map[];
      var rest := page.entities.Keys;
      LoadStart(n, page.entities);
      while rest != {}
        invariant rest <= page.entities.Keys && Mirror(n, entities, page.entities - rest)
        invariant edges == page.edges
        decreases rest
      {
        var id :| id in rest;
        LoadStep(n, entities, page.entities, rest, id);
        entities := entities[page.entities[id].stableKey := page.entities[id]];
        rest := rest - {id};
      }
      assert page.entities - {} == page.entities;
    }
  }

  lemma NamedPage(n: Naming, s: Rows, page: Rows)
    requires NamedRows(n, s.entities) && PageOf(s, page)
    ensures NamedRows(n, page.entities)
  {
  }

  lemma LoadStart(n: Naming, rows: map<EntityId, CodeEntity>)
    requires Injective(n)
    ensures Mirror(n, map[], rows - rows.Keys)
  {
  }

  lemma LoadStep(n: Naming, m: Entities, rows: map<EntityId, CodeEntity>, rest: set<EntityId>, id: EntityId)
    requires id in rest && rest <= rows.Keys && Mirror(n, m, rows - rest) && NamedRows(n, rows)
    ensures Mirror(n, m[rows[id].stableKey := rows[id]], rows - (rest - {id}))
  {
    hide Mirror;
    PutOneMirrors(n, m, rows - rest, rows[id]);
    assert (rows - rest)[id := rows[id]] == rows - (rest - {id});
  }

  const MAX_ENTITY_ROWS := 100_000
  const MAX_EDGE_ROWS := 200_000

  /** What the two queries may return: existing rows, as many as there are up to the limits. */
  ghost predicate PageOf(s: Rows, page: Rows) {
    && (forall id :: id in page.entities ==> id in s.entities && page.entities[id] == s.entities[id])
    && (forall k :: k in page.edges ==> k in s.edges && page.edges[k] == s.edges[k])
    && |page.entities| == Min(|s.entities|, MAX_ENTITY_ROWS) && |page.edges| == Min(|s.edges|, MAX_EDGE_ROWS)
  }

  lemma WholeMap<K, V>(a: map<K, V>, b: map<K, V>)
    requires (forall k :: k in a ==> k in b && a[k] == b[k]) && |a| == |b|
    ensures a == b
  {
    assert a.Keys <= b.Keys && |a.Keys| == |a| && |b.Keys| == |b|;
    assert |b.Keys - a.Keys| == |b.Keys| - |a.Keys|;
    assert b.Keys - a.Keys == {};
    assert a.Keys == b.Keys;
  }

  lemma PageIsWhole(s: Rows, page: Rows)
    requires PageOf(s, page)
    ensures |s.entities| <= MAX_ENTITY_ROWS ==> page.entities == s.entities
    ensures |s.edges| <= MAX_EDGE_ROWS ==> page.edges == s.edges
  {
    if |s.entities| <= MAX_ENTITY_ROWS { WholeMap(page.entities, s.entities); }
    if |s.edges| <= MAX_EDGE_ROWS { WholeMap(page.edges, s.edges); }
  }

  lemma OneInMemory(d: Delta, e: CodeEntity, g: CodeEdge)
    requires d.entities == [e] && d.edges == [g]
    ensures IndexDelta(Memory(map[], map[]), d) == Memory(map[e.stableKey := e], map[KeyOf(g) := g])
  {
    OnePut(e, g);
    assert Untouched(map[], d) == map[];
    assert WithoutEnds(map[], TouchedIds(map[], d)) == map[];
  }

  lemma OneInStore(d: Delta, e: CodeEntity, g: CodeEdge)
    requires d.entities == [e] && d.edges == [g]
    ensures ApplyDelta(Rows(map[], map[]), d) == Rows(map[e.id := e], map[KeyOf(g) := g])
  {
    OnePut(e, g);
    var empty := Rows(map[], map[]);
    StoreDropsTouched(empty, d);
    assert TouchedRows(empty.entities, d) == {};
    assert DropIds(empty, {}) == empty;
  }

  lemma OneMerged(d: Delta, e: CodeEntity, g: CodeEdge)
    requires d == Delta([], [e], [g], [])
    ensures Merge([], [d]) == d
  {
    OneDelta(d);
    OneListed(e, map[]);
    assert AllEdges([d]) == [g] by { assert [d][..0] == []; assert AllEdges([]) == []; }
    assert ListEdges([g]) == [g] by { assert [g][..0] == []; assert ListEdges([]) == []; }
  }

  /** Invalidation sweeps every dangling edge from memory, while the store keeps those it does not touch. */
  lemma SweptFromMemoryOnly(n: Naming, e: CodeEntity, g: CodeEdge)
    requires Injective(n) && e.id == n.identify(e.stableKey) && g.from == e.id && g.to != e.id
    ensures var run := [IndexFile([], [Delta([], [e], [g], [])]), Invalidate([])];
            RunMemory(run).edges == map[] && RunRows(run).edges == map[KeyOf(g) := g]
  {
    hide Merge, IndexDelta, ApplyDelta;
    var d := Delta([], [e], [g], []);
    var first, second := IndexFile([], [d]), Invalidate([]);
    var run := [first, second];
    OneMerged(d, e, g);
    OneInMemory(d, e, g);
    OneInStore(d, e, g);
    RunOne(first);
    assert run[..1] == [first] && [first][..0] == [];
    assert RunRows([]) == Rows(map[], map[]);
    var m := RunMemory([first]).entities;
    assert m == map[e.stableKey := e];
    assert e.stableKey in m;
    assert Ids(m) == {e.id};
  }

  lemma OnePut(e: CodeEntity, g: CodeEdge)
    ensures PutEntities(map[], [e]) == map[e.stableKey := e] && PutRows(map[], [e]) == map[e.id := e]
    ensures PutEdges(map[], [g]) == map[KeyOf(g) := g]
  {
    assert [e][..0] == [] && [g][..0] == [];
    assert PutEntities(map[], []) == map[] && PutRows(map[], []) == map[] && PutEdges(map[], []) == map[];
  }
}
