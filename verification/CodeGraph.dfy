/** Code entities and the edges between them, as the index observes them. */
module CodeGraph {
  import opened Text
  import opened Wrappers

  type EntityId = nat

  datatype CodeEntity = CodeEntity(id: EntityId, kind: Text, stableKey: Text, displayName: Text, path: Option<Text>)

  datatype EdgeKind = Contains | Imports | References | Calls | Tests

  datatype Confidence = Exact | Strong | Medium | Weak

  datatype CodeEdge = CodeEdge(from: EntityId, to: EntityId, kind: EdgeKind, confidence: Confidence, provider: Text)

  function EntityIds(entities: seq<CodeEntity>): set<EntityId> { set e | e in entities :: e.id }

  /** Entities by identifier; of several with one identifier, the last. */
  function ById(entities: seq<CodeEntity>): (r: map<EntityId, CodeEntity>)
    ensures r.Keys == EntityIds(entities)
    ensures forall id :: id in r ==> r[id].id == id && r[id] in entities
  {
    if entities == [] then map[]
    else
      var last := entities[|entities| - 1];
      ById(entities[..|entities| - 1])[last.id := last]
  }
}
