/** Persisted graph facts (domain/models.py). */
module GraphFacts {
  import opened Wrappers
  import opened Json

  /** The loader stores `pass` and `source_revision` as it finds them in the document. */
  datatype Fact = Fact(
    id: string, factType: string, kind: string, name: Option<string>,
    sourceKind: Option<string>, sourceName: Option<string>,
    targetKind: Option<string>, targetName: Option<string>,
    relation: Option<string>, origin: string, confidence: string,
    evidencePath: Option<string>, evidenceLine: Option<int>,
    note: Option<string>, technology: Option<string>, metadata: Option<Object>,
    namespace: string, status: string, moduleName: Option<string>,
    passId: Value, sourceRevision: Value)

  /** `fact.metadata or {}`. */
  function MetadataOf(f: Fact): Object { if f.metadata.Some? then f.metadata.value else map[] }
}
