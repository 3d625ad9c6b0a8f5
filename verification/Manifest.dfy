/** The manifest of one namespace's graph facts: its export and its import
    (application/ai_graph.py). */
module Manifest {
  import opened Wrappers
  import opened Basics
  import opened Json
  import opened GraphFacts

  const MANIFEST_FORMAT := "systemlens-ai-graph-v1"
  const DEFAULT_NAMESPACE := "ai-architecture"
  const STATUSES := {"confirmed", "proposed", "ambiguous", "unresolved"}
  const CONFIDENCES := {"high", "medium", "low", "unknown"}
  const DATA_ACTIONS := {"read", "insert", "update", "delete", "create_or_update", "read_update"}

  // ----- graph_facts_manifest

  /** The kind and the name of an edge's end. */
  type End = (string, string)

  function SourceEnd(f: Fact): End { (OrEmpty(f.sourceKind), OrEmpty(f.sourceName)) }

  function TargetEnd(f: Fact): End { (OrEmpty(f.targetKind), OrEmpty(f.targetName)) }

  function NodeEnd(f: Fact): End { (f.kind, OrEmpty(f.name)) }

  function Select(facts: seq<Fact>, namespace: string, factType: string): seq<Fact> {
    if facts == [] then [] else
      var last := facts[|facts| - 1];
      Select(facts[..|facts| - 1], namespace, factType) +
      (if last.namespace == namespace && last.factType == factType then [last] else [])
  }

  /** The id exported for an edge's end: of two nodes with one kind and name, the last. */
  function NodeIds(nodes: seq<Fact>): map<End, string> {
    if nodes == [] then map[] else
      var last := nodes[|nodes| - 1];
      NodeIds(nodes[..|nodes| - 1])[NodeEnd(last) := last.id]
  }

  function RefId(e: End): string { "ref:" + e.0 + ":" + e.1 }

  function ExportedId(nodeIds: map<End, string>, e: End): string {
    if e in nodeIds then nodeIds[e] else RefId(e)
  }

  function AddRef(refs: seq<End>, nodeIds: map<End, string>, e: End): seq<End> {
    if e in nodeIds || e in refs then refs else refs + [e]
  }

  /** The edge ends that no node fact names, in the order in which edges name them. */
  function Refs(nodeIds: map<End, string>, edges: seq<Fact>): seq<End> {
    if edges == [] then [] else
      var last := edges[|edges| - 1];
      AddRef(AddRef(Refs(nodeIds, edges[..|edges| - 1]), nodeIds, SourceEnd(last)), nodeIds, TargetEnd(last))
  }

  function EvidenceJson(f: Fact): Value {
    if f.evidencePath.None? || f.evidencePath.value == "" then Arr([]) else
      Arr([Obj(map[Path := Str(f.evidencePath.value),
                   StartLine := if f.evidenceLine.Some? then Num(f.evidenceLine.value) else Null])])
  }

  /** The fields of an exported element. */
  const FIELDS: set<Key> := {Id, StorageId, Kind, Name, Source, Target, Relation, Status, Confidence,
                             Evidence, Metadata, Pass, SourceRevision, Reason, Technology, Module}

  function Given(s: Option<string>): Option<Value> {
    if s.Some? then Some(Str(s.value)) else None
  }

  /** The value of one field, of those that nodes and edges share. */
  function FactField(f: Fact, key: Key): Option<Value> {
    match key
    case Id => Some(Str(f.id))
    case StorageId => Some(Str(f.id))
    case Kind => Some(Str(f.kind))
    case Status => Some(Str(f.status))
    case Confidence => Some(Str(f.confidence))
    case Evidence => Some(EvidenceJson(f))
    case Metadata => Some(Obj(MetadataOf(f)))
    case Pass => Some(f.passId)
    case SourceRevision => Some(f.sourceRevision)
    case Reason => Given(f.note)
    case Technology => Given(f.technology)
    case Module => Given(f.moduleName)
    case _ => None
  }

  function NodeField(f: Fact, key: Key): Option<Value> {
    if key == Name then Some(OptStr(f.name)) else FactField(f, key)
  }

  function EdgeField(f: Fact, nodeIds: map<End, string>, key: Key): Option<Value> {
    match key
    case Source => Some(Str(ExportedId(nodeIds, SourceEnd(f))))
    case Target => Some(Str(ExportedId(nodeIds, TargetEnd(f))))
    case Relation => Some(OptStr(f.relation))
    case _ => FactField(f, key)
  }

  function NodeFields(f: Fact): Object {
    map key | key in FIELDS && NodeField(f, key).Some? :: NodeField(f, key).value
  }

  function EdgeFields(f: Fact, nodeIds: map<End, string>): Object {
    map key | key in FIELDS && EdgeField(f, nodeIds, key).Some? :: EdgeField(f, nodeIds, key).value
  }

  function NodeJson(f: Fact): Value { Obj(NodeFields(f)) }

  function EdgeJson(f: Fact, nodeIds: map<End, string>): Value { Obj(EdgeFields(f, nodeIds)) }

  function RefJson(e: End): Value {
    Obj(map[Id := Str(RefId(e)), Kind := Str(e.0), Name := Str(e.1), Status := Str("confirmed"),
            Confidence := Str("unknown"), Metadata := Obj(map[ExportReference := Bool(true)])])
  }

  function NodeJsons(nodes: seq<Fact>): (r: seq<Value>)
    ensures |r| == |nodes|
  {
    if nodes == [] then [] else NodeJsons(nodes[..|nodes| - 1]) + [NodeJson(nodes[|nodes| - 1])]
  }

  function RefJsons(refs: seq<End>): (r: seq<Value>)
    ensures |r| == |refs|
  {
    if refs == [] then [] else RefJsons(refs[..|refs| - 1]) + [RefJson(refs[|refs| - 1])]
  }

  function EdgeJsons(edges: seq<Fact>, nodeIds: map<End, string>): (r: seq<Value>)
    ensures |r| == |edges|
  {
    if edges == [] then [] else EdgeJsons(edges[..|edges| - 1], nodeIds) + [EdgeJson(edges[|edges| - 1], nodeIds)]
  }

  function ManifestOf(facts: seq<Fact>, namespace: string, complete: bool): Value {
    var nodes, edges := Select(facts, namespace, "node"), Select(facts, namespace, "edge");
    var nodeIds := NodeIds(nodes);
    Document(NodeJsons(nodes) + RefJsons(Refs(nodeIds, edges)), EdgeJsons(edges, nodeIds), namespace, complete)
  }

  function Document(nodes: seq<Value>, edges: seq<Value>, namespace: string, complete: bool): Value {
    Obj(map[Format := Str(MANIFEST_FORMAT),
            GeneratedBy := Obj(map[Agent := Str("systemlens"), Namespace := Str(namespace)]),
            Mode := Str(if complete then "complete" else "partial"),
            Nodes := Arr(nodes), Edges := Arr(edges)])
  }

  method GraphFactsManifest(facts: seq<Fact>, namespace: string, complete: bool) returns (document: Value)
    ensures document == ManifestOf(facts, namespace, complete)
  {
    var nodeFacts, edgeFacts := Select(facts, namespace, "node"), Select(facts, namespace, "edge");
    var nodeIds := NodeIds(nodeFacts);
    var nodes: seq<Value> := [];
    for i := 0 to |nodeFacts|
      invariant nodes == NodeJsons(nodeFacts[..i])
    {
      Front(nodeFacts, i);
      nodes := nodes + [NodeJson(nodeFacts[i])];
    }
    var synthetic, edges := ExportEdges(edgeFacts, nodeIds);
    ghost var before := nodes;
    for i := 0 to |synthetic|
      invariant nodes == before + RefJsons(synthetic[..i])
    {
      Front(synthetic, i);
      nodes := nodes + [RefJson(synthetic[i])];
    }
    Front(nodeFacts, |nodeFacts|);
    Front(synthetic, |synthetic|);
    document := Document(nodes, edges, namespace, complete);
  }

  /** The loop over the edges, which notes the ends that no node names. */
  method ExportEdges(edgeFacts: seq<Fact>, nodeIds: map<End, string>) returns (synthetic: seq<End>, edges: seq<Value>)
    ensures synthetic == Refs(nodeIds, edgeFacts) && edges == EdgeJsons(edgeFacts, nodeIds)
  {
    synthetic, edges := [], [];
    for i := 0 to |edgeFacts|
      invariant synthetic == Refs(nodeIds, edgeFacts[..i]) && edges == EdgeJsons(edgeFacts[..i], nodeIds)
    {
      Front(edgeFacts, i);
      synthetic := AddRef(AddRef(synthetic, nodeIds, SourceEnd(edgeFacts[i])), nodeIds, TargetEnd(edgeFacts[i]));
      edges := edges + [EdgeJson(edgeFacts[i], nodeIds)];
    }
    Front(edgeFacts, |edgeFacts|);
  }

  lemma Front<T>(s: seq<T>, i: nat)
    requires i <= |s|
    ensures i < |s| ==> s[..i + 1][..i] == s[..i] && s[..i + 1][i] == s[i]
    ensures i == |s| ==> s[..i] == s
  {
  }

  // ----- load_fact_manifest: the checks on one field

  function RequiredString(v: Value): Option<string> {
    if v.Str? && !Blank(v.s) then Some(Strip(v.s)) else None
  }

  function OptionalModule(v: Value): Option<Option<string>> {
    if v.Null? then Some(None) else
      var s :- RequiredString(v);
      Some(Some(s))
  }

  /** A path without backslash that does not start at the root of a POSIX file system. */
  predicate IsRelative(path: string) {
    path != "" && path[0] != '/' && '\\' !in path
  }

  /** The slash-separated parts of a path. */
  function Parts(path: string): (r: seq<string>)
    ensures r != []
  {
    if path == "" then [""] else
      var before, c := Parts(path[..|path| - 1]), path[|path| - 1];
      if c == '/' then before + [""] else before[..|before| - 1] + [before[|before| - 1] + [c]]
  }

  predicate EvidenceItemOk(v: Value) {
    v.Obj? && match Get(v.fields, Path)
              case Null => true
              case Str(s) => !Blank(s) && IsRelative(Strip(s))
              case _ => false
  }

  /** A true `start_line` is the integer 1 to Python. */
  function LineOf(v: Value): Option<int> {
    match v
    case Num(n) => if n >= 1 then Some(n) else None
    case Bool(b) => if b then Some(1) else None
    case _ => None
  }

  /** The path and the line of the first piece of evidence. */
  function EvidenceOf(v: Value): Option<(Option<string>, Option<int>)> {
    if v.Null? then Some((None, None)) else
      :- Need(v.Arr? && forall item | item in v.items :: EvidenceItemOk(item));
      if v.items == [] then Some((None, None)) else
        assert v.items[0] in v.items;
        Some((StrOf(Get(v.items[0].fields, Path)), LineOf(Get(v.items[0].fields, StartLine))))
  }

  /** Status and confidence; a doubtful fact needs a reason. */
  function QualityOf(o: Object): Option<(string, string)> {
    var status, confidence := GetOr(o, Status, Str("confirmed")), GetOr(o, Confidence, Str("unknown"));
    :- Need(status.Str? && status.s in STATUSES && confidence.Str? && confidence.s in CONFIDENCES);
    :- Need(status.s in {"ambiguous", "unresolved"} ==> Truthy(Get(o, Reason)));
    Some((status.s, confidence.s))
  }

  function FactId(namespace: string, factType: string, rawId: string): string {
    namespace + "::" + factType + "::" + rawId
  }

  function StoredId(namespace: string, o: Object, factType: string, rawId: string): Option<string> {
    match Get(o, StorageId)
    case Null => Some(FactId(namespace, factType, rawId))
    case Str(s) => Some(if s != "" then s else FactId(namespace, factType, rawId))
    case _ => None
  }

  /** What a data access must say beyond the fields of other nodes. */
  predicate AccessOk(o: Object, metadata: Object, path: Option<string>, line: Option<int>, status: string) {
    && Get(metadata, FlowId).Str? && !Blank(Get(metadata, FlowId).s)
    && Confidence in o
    && Get(metadata, Action).Str? && Get(metadata, Action).s in DATA_ACTIONS
    && path.Some? && line.Some?
    && !Blank(path.value) && IsRelative(Strip(path.value)) && ".." !in Parts(Strip(path.value))
    && status in {"confirmed", "proposed"}
    && match Get(metadata, Branch)
       case Null => true
       case Str(s) => s in {"sync", "async"}
       case _ => false
  }

  // ----- load_fact_manifest: one node, one edge

  datatype Context = Context(namespace: string, pass: Value, revision: Value)

  /** One element of the document once it is read. */
  datatype Item = Item(rawId: string, fields: Object, fact: Fact)

  /** What nodes and edges say alike. */
  datatype Shared = Shared(
    rawId: string, kind: string, moduleName: Option<string>, storedId: string, metadata: Object,
    path: Option<string>, line: Option<int>, status: string, confidence: string,
    note: Option<string>, technology: Option<string>, pass: Value, revision: Value)

  function ReadShared(c: Context, o: Object, factType: string): Option<Shared> {
    var rawId :- RequiredString(Get(o, Id));
    var kind :- RequiredString(Get(o, Kind));
    var moduleName :- OptionalModule(Get(o, Module));
    var storedId :- StoredId(c.namespace, o, factType, rawId);
    var evidence :- EvidenceOf(Get(o, Evidence));
    var quality :- QualityOf(o);
    var metadata := GetOr(o, Metadata, Obj(map[]));
    :- Need(metadata.Obj?);
    Some(Shared(rawId, kind, moduleName, storedId, metadata.fields, evidence.0, evidence.1, quality.0, quality.1,
                StrOf(Get(o, Reason)), StrOf(Get(o, Technology)),
                GetOr(o, Pass, c.pass), GetOr(o, SourceRevision, c.revision)))
  }

  function NodeFact(s: Shared, namespace: string, name: string, metadata: Object): Fact {
    Fact(s.storedId, "node", s.kind, Some(name), None, None, None, None, None, "ai", s.confidence,
         s.path, s.line, s.note, s.technology, Some(metadata), namespace, s.status, s.moduleName, s.pass, s.revision)
  }

  function ReadNode(c: Context, raw: Value): Option<Item> {
    var o :- ObjectOf(raw);
    var s :- ReadShared(c, o, "node");
    var name :- RequiredString(Get(o, Name));
    :- Need(s.kind == "flow_data_access" ==> AccessOk(o, s.metadata, s.path, s.line, s.status));
    var owned := if Get(o, Owner).Null? then s.metadata else s.metadata[Owner := Get(o, Owner)];
    Some(Item(s.rawId, o, NodeFact(s, c.namespace, name, owned)))
  }

  /** The nodes read so far, by their raw id. */
  type NodeTable = map<string, Object>

  function Filled(metadata: Object, o: Object, key: Key): Object {
    if key in o && key !in metadata then metadata[key := o[key]] else metadata
  }

  /** `str(...)` of a node's kind and name, which are strings. */
  function EndOf(o: Object): End {
    (OrEmpty(StrOf(Get(o, Kind))), OrEmpty(StrOf(Get(o, Name))))
  }

  function EdgeFact(s: Shared, namespace: string, source: End, target: End, relation: string, metadata: Object): Fact {
    Fact(s.storedId, "edge", s.kind, None, Some(source.0), Some(source.1), Some(target.0), Some(target.1),
         Some(relation), "ai", s.confidence,
         s.path, s.line, s.note, s.technology, Some(metadata), namespace, s.status, s.moduleName, s.pass, s.revision)
  }

  function ReadEdge(c: Context, nodes: NodeTable, raw: Value): Option<Item> {
    var o :- ObjectOf(raw);
    var s :- ReadShared(c, o, "edge");
    var sourceId :- RequiredString(Get(o, Source));
    var targetId :- RequiredString(Get(o, Target));
    :- Need(s.kind != "flow_data_access" && sourceId in nodes && targetId in nodes);
    var relation := if Truthy(Get(o, Relation)) then Get(o, Relation) else Str(s.kind);
    :- Need(relation.Str? && !Blank(relation.s));
    var filled := Filled(Filled(Filled(Filled(s.metadata, o, Channel), o, Topic), o, Route), o, MessageType);
    Some(Item(s.rawId, o, EdgeFact(s, c.namespace, EndOf(nodes[sourceId]), EndOf(nodes[targetId]), relation.s, filled)))
  }

  // ----- load_fact_manifest: the whole document

  function RawIds(items: seq<Item>): (r: seq<string>)
    ensures |r| == |items|
  {
    seq(|items|, i requires 0 <= i < |items| => items[i].rawId)
  }

  function StoredIds(items: seq<Item>): (r: seq<string>)
    ensures |r| == |items|
  {
    seq(|items|, i requires 0 <= i < |items| => items[i].fact.id)
  }

  predicate NoIdTwice(items: seq<Item>) { Distinct(RawIds(items)) && Distinct(StoredIds(items)) }

  function FactsOf(items: seq<Item>): (r: seq<Fact>)
    ensures |r| == |items|
  {
    seq(|items|, i requires 0 <= i < |items| => items[i].fact)
  }

  function TableOf(items: seq<Item>): NodeTable {
    if items == [] then map[] else
      TableOf(items[..|items| - 1])[items[|items| - 1].rawId := items[|items| - 1].fields]
  }

  /** Reads one element of the document, or refuses it. */
  type Reader = Value -> Option<Item>

  function NodeReader(c: Context): Reader { raw => ReadNode(c, raw) }

  function EdgeReader(c: Context, nodes: NodeTable): Reader { raw => ReadEdge(c, nodes, raw) }

  function EdgeReaders(c: Context): NodeTable -> Reader { nodes => EdgeReader(c, nodes) }

  /** Reads every element, unless one is refused. */
  function ReadEach(read: Reader, raws: seq<Value>): (r: Option<seq<Item>>)
    ensures r.Some? ==> |r.value| == |raws|
  {
    if raws == [] then Some([]) else
      var before :- ReadEach(read, raws[..|raws| - 1]);
      var item :- read(raws[|raws| - 1]);
      Some(before + [item])
  }

  /** `a or b or ...` on optional strings and document values. */
  function FirstTruthy(a: Option<string>, b: Value, default: Value): Value {
    if a.Some? && a.value != "" then Str(a.value) else if Truthy(b) then b else default
  }

  /** An argument wins over the document; a false value of the document is kept. */
  function Resolved(a: Option<string>, b: Value): Option<Value> {
    var v := if a.Some? && a.value != "" then Str(a.value) else b;
    if v.Null? || v.Str? then Some(v) else None
  }

  function ContextOf(document: Value, namespace: Option<string>, passId: Option<string>, revision: Option<string>): Option<Context> {
    var fields :- ObjectOf(document);
    :- Need(Get(fields, Format) == Str(MANIFEST_FORMAT));
    var generated := Get(fields, GeneratedBy);
    var g := if generated.Obj? then generated.fields else map[];
    var name := FirstTruthy(namespace, Get(g, Namespace), Str(DEFAULT_NAMESPACE));
    :- Need(name.Str? && !Blank(name.s));
    var pass :- Resolved(passId, Get(g, Pass));
    var rev :- Resolved(revision, Get(g, SourceRevision));
    Some(Context(name.s, pass, rev))
  }

  /** Facts, namespace and completeness. */
  datatype Import = Import(facts: seq<Fact>, namespace: string, complete: bool)

  function ReadAll(readNode: Reader, readEdge: NodeTable -> Reader, rawNodes: seq<Value>, rawEdges: seq<Value>): Option<seq<Item>> {
    var nodes :- ReadEach(readNode, rawNodes);
    :- Need(NoIdTwice(nodes));
    var edges :- ReadEach(readEdge(TableOf(nodes)), rawEdges);
    :- Need(NoIdTwice(nodes + edges));
    Some(nodes + edges)
  }

  /** A document is accepted when each of its elements can be read and no id repeats. */
  function Loaded(document: Value, namespace: Option<string>, passId: Option<string>, revision: Option<string>): Option<Import> {
    var c :- ContextOf(document, namespace, passId, revision);
    var rawNodes, rawEdges := Get(document.fields, Nodes), Get(document.fields, Edges);
    :- Need(rawNodes.Arr? && rawEdges.Arr?);
    var items :- ReadAll(NodeReader(c), EdgeReaders(c), rawNodes.items, rawEdges.items);
    var mode := GetOr(document.fields, Mode, Str("partial"));
    :- Need(mode == Str("partial") || mode == Str("complete"));
    Some(Import(FactsOf(items), c.namespace, mode == Str("complete")))
  }
}
