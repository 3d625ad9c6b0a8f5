/** What one exported element loads as: the checks it must pass and the fact it becomes
    (application/ai_graph.py). */
module ManifestElements {
  import opened Wrappers
  import opened Json
  import opened GraphFacts
  import opened Manifest

  // ----- what comes back

  function ImportedNamespace(namespace: string): string {
    if namespace == "" then DEFAULT_NAMESPACE else namespace
  }

  function KeptPath(f: Fact): Option<string> {
    if f.evidencePath == Some("") then None else f.evidencePath
  }

  /** A line is kept beside a path, from 1 on. */
  function KeptLine(f: Fact): Option<int> {
    if KeptPath(f).None? || f.evidenceLine.None? || f.evidenceLine.value < 1 then None else f.evidenceLine
  }

  function Stripped(s: Option<string>): Option<string> { if s.Some? then Some(Strip(s.value)) else None }

  /** A fact of either type as the import restores it. */
  function Restored(f: Fact, namespace: string): Fact {
    f.(kind := Strip(f.kind), origin := "ai", evidencePath := KeptPath(f), evidenceLine := KeptLine(f),
       metadata := Some(MetadataOf(f)), namespace := namespace, moduleName := Stripped(f.moduleName))
  }

  function ImportedNode(f: Fact, namespace: string): Fact {
    Restored(f, namespace).(name := Some(Strip(OrEmpty(f.name))), relation := None,
      sourceKind := None, sourceName := None, targetKind := None, targetName := None)
  }

  function ImportedEdge(f: Fact, namespace: string): Fact {
    Restored(f, namespace).(name := None,
      relation := Some(if OrEmpty(f.relation) != "" then OrEmpty(f.relation) else Strip(f.kind)),
      sourceKind := Some(SourceEnd(f).0), sourceName := Some(SourceEnd(f).1),
      targetKind := Some(TargetEnd(f).0), targetName := Some(TargetEnd(f).1))
  }

  /** The node that stands for an edge end without node fact. */
  function RefFact(e: End, namespace: string): Fact {
    Fact(FactId(namespace, "node", Strip(RefId(e))), "node", Strip(e.0), Some(Strip(e.1)), None, None, None, None, None,
         "ai", "unknown", None, None, None, None, Some(map[ExportReference := Bool(true)]), namespace, "confirmed",
         None, Null, Null)
  }

  // ----- what can be exported

  /** The checks that nodes and edges share. */
  predicate FactOk(f: Fact) {
    && !Blank(f.id) && !Blank(f.kind)
    && (f.moduleName.Some? ==> !Blank(f.moduleName.value))
    && (KeptPath(f).Some? ==> !Blank(KeptPath(f).value) && IsRelative(Strip(KeptPath(f).value)))
    && f.status in STATUSES && f.confidence in CONFIDENCES
    && (f.status in {"ambiguous", "unresolved"} ==> f.note.Some? && f.note.value != "")
  }

  predicate NodeOk(f: Fact) {
    && FactOk(f) && f.name.Some? && !Blank(f.name.value)
    && (Strip(f.kind) == "flow_data_access" ==> AccessOk(map[Confidence := Str(f.confidence)], MetadataOf(f), KeptPath(f), KeptLine(f), f.status))
  }

  predicate EdgeOk(f: Fact) {
    && FactOk(f) && Strip(f.kind) != "flow_data_access"
    && (OrEmpty(f.relation) != "" ==> !Blank(OrEmpty(f.relation)))
  }

  predicate RefOk(e: End) {
    !Blank(e.0) && !Blank(e.1) && Strip(e.0) != "flow_data_access"
  }

  // ----- the fields of an exported element

  lemma EvidenceRead(f: Fact)
    ensures EvidenceOf(EvidenceJson(f)) ==
      if KeptPath(f).Some? ==> !Blank(KeptPath(f).value) && IsRelative(Strip(KeptPath(f).value))
      then Some((KeptPath(f), KeptLine(f))) else None
  {
    if KeptPath(f).Some? {
      var item := Obj(map[Path := Str(f.evidencePath.value),
                          StartLine := if f.evidenceLine.Some? then Num(f.evidenceLine.value) else Null]);
      assert EvidenceJson(f) == Arr([item]);
      assert item in [item];
      assert EvidenceItemOk(item) <==> !Blank(f.evidencePath.value) && IsRelative(Strip(f.evidencePath.value));
    }
  }

  lemma QualityRead(o: Object, f: Fact)
    requires GetOr(o, Status, Str("confirmed")) == Str(f.status) && GetOr(o, Confidence, Str("unknown")) == Str(f.confidence)
    requires Get(o, Reason) == OptStr(f.note)
    ensures QualityOf(o) ==
      if && f.status in STATUSES && f.confidence in CONFIDENCES
         && (f.status in {"ambiguous", "unresolved"} ==> f.note.Some? && f.note.value != "")
      then Some((f.status, f.confidence)) else None
  {
  }

  /** An object whose shared fields are those exported for `f`. */
  ghost predicate Describes(o: Object, f: Fact) {
    DescribesNames(o, f) && DescribesRest(o, f) && DescribesOrigin(o, f)
  }

  ghost predicate DescribesNames(o: Object, f: Fact) {
    && Get(o, Id) == Str(f.id) && Get(o, StorageId) == Str(f.id) && Get(o, Kind) == Str(f.kind)
    && Get(o, Module) == OptStr(f.moduleName)
  }

  ghost predicate DescribesRest(o: Object, f: Fact) {
    && GetOr(o, Status, Str("confirmed")) == Str(f.status) && GetOr(o, Confidence, Str("unknown")) == Str(f.confidence)
    && Get(o, Evidence) == EvidenceJson(f) && GetOr(o, Metadata, Obj(map[])) == Obj(MetadataOf(f))
  }

  ghost predicate DescribesOrigin(o: Object, f: Fact) {
    && Get(o, Reason) == OptStr(f.note) && Get(o, Technology) == OptStr(f.technology)
    && Pass in o && o[Pass] == f.passId && SourceRevision in o && o[SourceRevision] == f.sourceRevision
  }

  function SharedOf(f: Fact): Shared {
    Shared(Strip(f.id), Strip(f.kind), Stripped(f.moduleName), f.id, MetadataOf(f), KeptPath(f), KeptLine(f),
           f.status, f.confidence, f.note, f.technology, f.passId, f.sourceRevision)
  }

  lemma SharedRead(c: Context, o: Object, f: Fact, factType: string)
    requires Describes(o, f)
    ensures ReadShared(c, o, factType) == if FactOk(f) then Some(SharedOf(f)) else None
  {
    assert Blank("");
    EvidenceRead(f);
    QualityRead(o, f);
  }

  /** The shared fields hold what FactField says. */
  ghost predicate Agrees(o: Object, f: Fact) {
    && (forall key :: FactField(f, key).Some? ==> key in o && o[key] == FactField(f, key).value)
    && (f.note.None? ==> Reason !in o) && (f.technology.None? ==> Technology !in o) && (f.moduleName.None? ==> Module !in o)
  }

  lemma AgreesNames(o: Object, f: Fact)
    requires Agrees(o, f)
    ensures Get(o, Id) == Str(f.id) && Get(o, StorageId) == Str(f.id)
    ensures Get(o, Kind) == Str(f.kind) && Get(o, Module) == OptStr(f.moduleName)
  {
    assert FactField(f, Id).Some? && FactField(f, StorageId).Some? && FactField(f, Kind).Some?;
    assert FactField(f, Module) == Given(f.moduleName);
  }

  lemma AgreesQuality(o: Object, f: Fact)
    requires Agrees(o, f)
    ensures GetOr(o, Status, Str("confirmed")) == Str(f.status) && GetOr(o, Confidence, Str("unknown")) == Str(f.confidence)
  {
    assert FactField(f, Status).Some? && FactField(f, Confidence).Some?;
  }

  lemma AgreesEvidence(o: Object, f: Fact)
    requires Agrees(o, f)
    ensures Get(o, Evidence) == EvidenceJson(f) && GetOr(o, Metadata, Obj(map[])) == Obj(MetadataOf(f))
  {
    assert FactField(f, Evidence).Some? && FactField(f, Metadata).Some?;
  }

  lemma AgreesNotes(o: Object, f: Fact)
    requires Agrees(o, f)
    ensures Get(o, Reason) == OptStr(f.note) && Get(o, Technology) == OptStr(f.technology)
  {
    assert FactField(f, Reason) == Given(f.note) && FactField(f, Technology) == Given(f.technology);
  }

  lemma AgreesOrigin(o: Object, f: Fact)
    requires Agrees(o, f)
    ensures Pass in o && o[Pass] == f.passId && SourceRevision in o && o[SourceRevision] == f.sourceRevision
  {
    assert FactField(f, Pass).Some? && FactField(f, SourceRevision).Some?;
  }

  lemma AgreesDescribes(o: Object, f: Fact)
    requires Agrees(o, f)
    ensures Describes(o, f)
  {
    AgreesNames(o, f);
    AgreesQuality(o, f);
    AgreesEvidence(o, f);
    AgreesNotes(o, f);
    AgreesOrigin(o, f);
  }

  // ----- reading an exported element

  lemma ReadNodeObject(c: Context, o: Object, f: Fact)
    requires f.factType == "node" && Describes(o, f) && Get(o, Name) == OptStr(f.name) && Get(o, Owner) == Null
    requires Confidence in o
    ensures ReadNode(c, Obj(o)) == if NodeOk(f) then Some(Item(Strip(f.id), o, ImportedNode(f, c.namespace))) else None
  {
    SharedRead(c, o, f, "node");
  }

  lemma NodeAgrees(f: Fact)
    ensures Agrees(NodeFields(f), f)
  {
  }

  lemma NodeOnly(f: Fact)
    ensures Get(NodeFields(f), Name) == OptStr(f.name) && Get(NodeFields(f), Owner) == Null && Confidence in NodeFields(f)
  {
  }

  lemma ReadNodeFact(c: Context, f: Fact)
    requires f.factType == "node"
    ensures ReadNode(c, NodeJson(f)) ==
      if NodeOk(f) then Some(Item(Strip(f.id), NodeFields(f), ImportedNode(f, c.namespace))) else None
  {
    NodeAgrees(f);
    NodeOnly(f);
    AgreesDescribes(NodeFields(f), f);
    ReadNodeObject(c, NodeFields(f), f);
  }

  lemma StartsVisibly(s: string)
    requires s != "" && !IsSpace(s[0])
    ensures !Blank(s)
  {
    StripRightTrims(s);
  }

  lemma ReadRef(c: Context, e: End)
    requires c.pass == Null && c.revision == Null
    ensures ReadNode(c, RefJson(e)) ==
      if RefOk(e) then Some(Item(Strip(RefId(e)), RefJson(e).fields, RefFact(e, c.namespace))) else None
  {
    var o := RefJson(e).fields;
    StartsVisibly(RefId(e));
    RefShared(c, e);
    assert Get(o, Name) == Str(e.1) && Get(o, Owner) == Null;
    var m: Object := map[ExportReference := Bool(true)];
    assert Get(m, FlowId) == Null;
  }

  lemma RefShared(c: Context, e: End)
    requires c.pass == Null && c.revision == Null && !Blank(RefId(e))
    ensures ReadShared(c, RefJson(e).fields, "node") ==
      if Blank(e.0) then None else
      Some(Shared(Strip(RefId(e)), Strip(e.0), None, FactId(c.namespace, "node", Strip(RefId(e))), map[ExportReference := Bool(true)],
                  None, None, "confirmed", "unknown", None, None, Null, Null))
  {
    var o := RefJson(e).fields;
    assert Get(o, Id) == Str(RefId(e)) && Get(o, Kind) == Str(e.0) && Get(o, Module) == Null && Get(o, StorageId) == Null;
    assert Get(o, Evidence) == Null && Get(o, Reason) == Null && Get(o, Technology) == Null;
    assert Pass !in o && SourceRevision !in o;
  }

  /** The table names the end `e` under the id exported for it. */
  ghost predicate Resolves(nodes: NodeTable, nodeIds: map<End, string>, e: End) {
    var id := ExportedId(nodeIds, e);
    !Blank(id) && Strip(id) in nodes && EndOf(nodes[Strip(id)]) == e
  }

  lemma ReadEdgeObject(c: Context, nodes: NodeTable, nodeIds: map<End, string>, o: Object, f: Fact)
    requires f.factType == "edge" && Describes(o, f)
    requires Resolves(nodes, nodeIds, SourceEnd(f)) && Resolves(nodes, nodeIds, TargetEnd(f))
    requires Get(o, Source) == Str(ExportedId(nodeIds, SourceEnd(f))) && Get(o, Target) == Str(ExportedId(nodeIds, TargetEnd(f)))
    requires Get(o, Relation) == OptStr(f.relation)
    requires Channel !in o && Topic !in o && Route !in o && MessageType !in o
    ensures ReadEdge(c, nodes, Obj(o)) == if EdgeOk(f) then Some(Item(Strip(f.id), o, ImportedEdge(f, c.namespace))) else None
  {
    SharedRead(c, o, f, "edge");
    if FactOk(f) { EdgeAfterShared(c, nodes, nodeIds, o, f); }
  }

  lemma EdgeAfterShared(c: Context, nodes: NodeTable, nodeIds: map<End, string>, o: Object, f: Fact)
    requires f.factType == "edge" && FactOk(f) && ReadShared(c, o, "edge") == Some(SharedOf(f))
    requires Resolves(nodes, nodeIds, SourceEnd(f)) && Resolves(nodes, nodeIds, TargetEnd(f))
    requires Get(o, Source) == Str(ExportedId(nodeIds, SourceEnd(f))) && Get(o, Target) == Str(ExportedId(nodeIds, TargetEnd(f)))
    requires Get(o, Relation) == OptStr(f.relation)
    requires Channel !in o && Topic !in o && Route !in o && MessageType !in o
    ensures ReadEdge(c, nodes, Obj(o)) == if EdgeOk(f) then Some(Item(Strip(f.id), o, ImportedEdge(f, c.namespace))) else None
  {
    StripTrims(f.kind);
  }

  lemma EdgeAgrees(f: Fact, nodeIds: map<End, string>)
    ensures Agrees(EdgeFields(f, nodeIds), f)
  {
  }

  lemma EdgeOnly(f: Fact, nodeIds: map<End, string>)
    ensures var o := EdgeFields(f, nodeIds);
      && Get(o, Source) == Str(ExportedId(nodeIds, SourceEnd(f))) && Get(o, Target) == Str(ExportedId(nodeIds, TargetEnd(f)))
      && Get(o, Relation) == OptStr(f.relation)
  {
  }

  /** Nothing is filled into the metadata of an exported edge. */
  lemma NothingToFill(f: Fact, nodeIds: map<End, string>)
    ensures var o := EdgeFields(f, nodeIds); Channel !in o && Topic !in o && Route !in o && MessageType !in o
  {
  }

  lemma ReadEdgeFact(c: Context, nodes: NodeTable, nodeIds: map<End, string>, f: Fact)
    requires f.factType == "edge"
    requires Resolves(nodes, nodeIds, SourceEnd(f)) && Resolves(nodes, nodeIds, TargetEnd(f))
    ensures ReadEdge(c, nodes, EdgeJson(f, nodeIds)) ==
      if EdgeOk(f) then Some(Item(Strip(f.id), EdgeFields(f, nodeIds), ImportedEdge(f, c.namespace))) else None
  {
    EdgeAgrees(f, nodeIds);
    EdgeOnly(f, nodeIds);
    NothingToFill(f, nodeIds);
    AgreesDescribes(EdgeFields(f, nodeIds), f);
    ReadEdgeObject(c, nodes, nodeIds, EdgeFields(f, nodeIds), f);
  }
}
