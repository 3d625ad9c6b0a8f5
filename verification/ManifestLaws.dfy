/** What the import makes of any document, element by element (application/ai_graph.py). */
module ManifestLaws {
  import opened Wrappers
  import opened Json
  import opened GraphFacts
  import opened Basics
  import opened Manifest
  import ManifestElements

  // ----- fields

  predicate HasText(o: Object, key: Key) { key in o && o[key].Str? && Strip(o[key].s) != "" }

  predicate IsText(o: Object, key: Key, text: string) { HasText(o, key) && text == Strip(o[key].s) }

  predicate Lacks(o: Object, key: Key) { key !in o || o[key] == Null }

  /** Nothing, false, zero and everything empty count as false. */
  predicate CountsAsFalse(v: Value) {
    v == Null || v == Bool(false) || v == Num(0) || v == Str("") || v == Arr([]) || v == Obj(map[])
  }

  predicate HasTruth(o: Object, key: Key) { key in o && !CountsAsFalse(o[key]) }

  lemma TruthIff(o: Object, key: Key)
    ensures Truthy(Get(o, key)) <==> HasTruth(o, key)
  {
  }

  /** A string as it stands; anything else counts as nothing. */
  predicate IsPlain(o: Object, key: Key, text: Option<string>) {
    if key in o && o[key].Str? then text == Some(o[key].s) else text == None
  }

  predicate IsWithin(path: string) { path != "" && path[0] != '/' && forall i | 0 <= i < |path| :: path[i] != '\\' }

  /** A piece of evidence may name a file below the project. */
  predicate IsEvidence(v: Value) {
    v.Obj? && (Lacks(v.fields, Path) || (HasText(v.fields, Path) && IsWithin(Strip(v.fields[Path].s))))
  }

  /** The line is a positive number; `true` counts as 1, anything else as no line. */
  predicate IsLine(o: Object, line: Option<int>) {
    if StartLine in o && o[StartLine].Num? && o[StartLine].n > 0 then line == Some(o[StartLine].n)
    else if StartLine in o && o[StartLine] == Bool(true) then line == Some(1)
    else line == None
  }

  /** The first piece of evidence counts, but all must be readable. */
  predicate Evidences(o: Object, path: Option<string>, line: Option<int>) {
    if Lacks(o, Evidence) then path == None && line == None
    else
      && o[Evidence].Arr? && (forall v | v in o[Evidence].items :: IsEvidence(v))
      && if o[Evidence].items == [] then path == None && line == None
         else o[Evidence].items[0].Obj? && IsPlain(o[Evidence].items[0].fields, Path, path) && IsLine(o[Evidence].items[0].fields, line)
  }

  predicate Rates(o: Object, status: string, confidence: string) {
    && (if Status in o then o[Status] == Str(status) else status == "confirmed")
    && (if Confidence in o then o[Confidence] == Str(confidence) else confidence == "unknown")
    && (status == "confirmed" || status == "proposed" || ((status == "ambiguous" || status == "unresolved") && HasTruth(o, Reason)))
    && (confidence == "high" || confidence == "medium" || confidence == "low" || confidence == "unknown")
  }

  /** The id of the database, or one made of the namespace, the type and the id of the document. */
  predicate StoresAs(c: Context, o: Object, factType: string, rawId: string, id: string) {
    if Lacks(o, StorageId) || o[StorageId] == Str("") then id == c.namespace + "::" + factType + "::" + rawId else o[StorageId] == Str(id)
  }

  predicate BelongsTo(o: Object, moduleName: Option<string>) {
    if Lacks(o, Module) then moduleName == None else moduleName.Some? && IsText(o, Module, moduleName.value)
  }

  predicate Describes(o: Object, metadata: Object) {
    if Metadata in o then o[Metadata] == Obj(metadata) else metadata == map[]
  }

  /** What an element says, apart from what only nodes or only edges say. */
  predicate Says(c: Context, o: Object, factType: string, s: Shared) {
    && IsText(o, Id, s.rawId) && IsText(o, Kind, s.kind) && BelongsTo(o, s.moduleName)
    && StoresAs(c, o, factType, s.rawId, s.storedId) && Describes(o, s.metadata)
    && Evidences(o, s.path, s.line) && Rates(o, s.status, s.confidence)
    && IsPlain(o, Reason, s.note) && IsPlain(o, Technology, s.technology)
    && s.pass == (if Pass in o then o[Pass] else c.pass) && s.revision == (if SourceRevision in o then o[SourceRevision] else c.revision)
  }

  lemma TextIff(o: Object, key: Key, text: string)
    ensures RequiredString(Get(o, key)) == Some(text) <==> IsText(o, key, text)
  {
  }

  lemma WithinIff(path: string)
    ensures IsRelative(path) <==> IsWithin(path)
  {
    if '\\' in path { var i :| 0 <= i < |path| && path[i] == '\\'; }
  }

  lemma EvidenceIff(v: Value)
    ensures EvidenceItemOk(v) <==> IsEvidence(v)
  {
    if v.Obj? && Path in v.fields && v.fields[Path].Str? { WithinIff(Strip(v.fields[Path].s)); }
  }

  lemma LineIff(o: Object, line: Option<int>)
    ensures LineOf(Get(o, StartLine)) == line <==> IsLine(o, line)
  {
  }

  lemma EvidencesIff(o: Object, path: Option<string>, line: Option<int>)
    ensures EvidenceOf(Get(o, Evidence)) == Some((path, line)) <==> Evidences(o, path, line)
  {
    if !Lacks(o, Evidence) && o[Evidence].Arr? {
      var items := o[Evidence].items;
      forall v ensures EvidenceItemOk(v) <==> IsEvidence(v) { EvidenceIff(v); }
      if items != [] && items[0].Obj? { LineIff(items[0].fields, line); }
      if items != [] { assert items[0] in items; }
    }
  }

  lemma RatesIff(o: Object, status: string, confidence: string)
    ensures QualityOf(o) == Some((status, confidence)) <==> Rates(o, status, confidence)
  {
    TruthIff(o, Reason);
  }

  lemma ModuleIff(o: Object, moduleName: Option<string>)
    ensures OptionalModule(Get(o, Module)) == Some(moduleName) <==> BelongsTo(o, moduleName)
  {
  }

  lemma StoredIff(c: Context, o: Object, factType: string, rawId: string, id: string)
    ensures StoredId(c.namespace, o, factType, rawId) == Some(id) <==> StoresAs(c, o, factType, rawId, id)
  {
  }

  lemma SaysIff(c: Context, o: Object, factType: string, s: Shared)
    ensures ReadShared(c, o, factType) == Some(s) <==> Says(c, o, factType, s)
  {
    TextIff(o, Id, s.rawId);
    TextIff(o, Kind, s.kind);
    ModuleIff(o, s.moduleName);
    StoredIff(c, o, factType, s.rawId, s.storedId);
    EvidencesIff(o, s.path, s.line);
    RatesIff(o, s.status, s.confidence);
    assert EvidenceOf(Get(o, Evidence)) == Some((s.path, s.line)) || !Evidences(o, s.path, s.line);
  }

  // ----- data accesses

  /** `path[i..j]` is one of the parts between slashes. */
  predicate IsPart(path: string, i: nat, j: nat, part: string) {
    && i <= j <= |path| && path[i..j] == part && '/' !in part
    && (i == 0 || path[i - 1] == '/') && (j == |path| || path[j] == '/')
  }

  ghost predicate IsInner(path: string, part: string) { exists i: nat, j: nat :: j < |path| && IsPart(path, i, j, part) }

  ghost predicate IsEnd(path: string, part: string) { exists i: nat :: IsPart(path, i, |path|, part) }

  lemma SameAt(q: string, c: char, part: string, i: nat, j: nat)
    requires j < |q| || (j == |q| && c == '/')
    ensures IsPart(q + [c], i, j, part) <==> IsPart(q, i, j, part)
  {
    if i <= j { assert (q + [c])[i..j] == q[i..j]; }
  }

  lemma EndsWithSlash(q: string, part: string, i: nat)
    requires i <= |q|
    ensures !IsPart(q + "/", i, |q| + 1, part)
  {
    assert (q + "/")[i..|q| + 1][|q| - i] == '/';
  }

  lemma SlashParts(q: string, part: string)
    ensures IsInner(q + "/", part) <==> IsInner(q, part) || IsEnd(q, part)
    ensures IsEnd(q + "/", part) <==> part == ""
  {
    forall i: nat, j: nat | j <= |q| ensures IsPart(q + "/", i, j, part) <==> IsPart(q, i, j, part) { SameAt(q, '/', part, i, j); }
    if IsEnd(q + "/", part) {
      var i: nat :| IsPart(q + "/", i, |q + "/"|, part);
      if i <= |q| { EndsWithSlash(q, part, i); }
    }
    assert IsPart(q + "/", |q| + 1, |q| + 1, "");
  }

  lemma EndStep(q: string, c: char, part: string, i: nat)
    requires c != '/'
    ensures IsPart(q + [c], i, |q| + 1, part + [c]) <==> IsPart(q, i, |q|, part)
  {
    if i <= |q| {
      assert (q + [c])[i..|q| + 1] == q[i..|q|] + [c];
      if q[i..|q|] + [c] == part + [c] { assert (q[i..|q|] + [c])[..|q| - i] == (part + [c])[..|part|]; }
    }
  }

  lemma EndsWith(q: string, c: char, part: string)
    requires c != '/' && IsEnd(q + [c], part)
    ensures part != "" && part[|part| - 1] == c
  {
    var i: nat :| IsPart(q + [c], i, |q| + 1, part);
    assert part == (q + [c])[i..|q| + 1];
  }

  lemma OtherParts(q: string, c: char, part: string)
    requires c != '/'
    ensures IsInner(q + [c], part) <==> IsInner(q, part)
    ensures IsEnd(q + [c], part + [c]) <==> IsEnd(q, part)
  {
    forall i: nat, j: nat | j < |q| ensures IsPart(q + [c], i, j, part) <==> IsPart(q, i, j, part) { SameAt(q, c, part, i, j); }
    if IsEnd(q + [c], part + [c]) {
      var i: nat :| IsPart(q + [c], i, |q + [c]|, part + [c]);
      EndStep(q, c, part, i);
    }
    if IsEnd(q, part) {
      var i: nat :| IsPart(q, i, |q|, part);
      EndStep(q, c, part, i);
      assert IsPart(q + [c], i, |q + [c]|, part + [c]);
    }
  }

  lemma {:induction false} PartsIff(path: string, part: string)
    ensures var r := Parts(path); part in r[..|r| - 1] <==> IsInner(path, part)
    ensures var r := Parts(path); part == r[|r| - 1] <==> IsEnd(path, part)
  {
    if path == "" {
      if part == "" { assert IsPart(path, 0, 0, part); }
    } else {
      var n := |path| - 1;
      var q, c := path[..n], path[n];
      var before := Parts(q);
      assert path == q + [c];
      PartsIff(q, part);
      if c == '/' {
        SlashParts(q, part);
        assert before == before[..|before| - 1] + [before[|before| - 1]];
        assert Parts(path) == before + [""];
      } else {
        OtherParts(q, c, part);
        assert Parts(path) == before[..|before| - 1] + [before[|before| - 1] + [c]];
        if IsEnd(path, part) { EndsWith(q, c, part); }
        if part != "" && part[|part| - 1] == c {
          var front := part[..|part| - 1];
          assert part == front + [c];
          OtherParts(q, c, front);
          PartsIff(q, front);
        }
      }
    }
  }

  /** No part of the path leads up. */
  ghost predicate StaysBelow(path: string) { !IsInner(path, "..") && !IsEnd(path, "..") }

  lemma BelowIff(path: string)
    ensures ".." !in Parts(path) <==> StaysBelow(path)
  {
    var r := Parts(path);
    PartsIff(path, "..");
    assert r == r[..|r| - 1] + [r[|r| - 1]];
  }

  predicate IsAction(action: string) {
    action == "read" || action == "insert" || action == "update" || action == "delete" || action == "create_or_update" || action == "read_update"
  }

  /** A data access names its flow, its action and one line of a file of the project, rates itself,
      and is not doubtful. */
  ghost predicate SaysAccess(o: Object, s: Shared) {
    && HasText(s.metadata, FlowId) && Confidence in o
    && Action in s.metadata && s.metadata[Action].Str? && IsAction(s.metadata[Action].s)
    && s.path.Some? && s.line.Some? && Strip(s.path.value) != "" && IsWithin(Strip(s.path.value)) && StaysBelow(Strip(s.path.value))
    && (s.status == "confirmed" || s.status == "proposed")
    && (Lacks(s.metadata, Branch) || s.metadata[Branch] == Str("sync") || s.metadata[Branch] == Str("async"))
  }

  lemma AccessIff(o: Object, s: Shared)
    ensures AccessOk(o, s.metadata, s.path, s.line, s.status) <==> SaysAccess(o, s)
  {
    if s.path.Some? {
      WithinIff(Strip(s.path.value));
      BelowIff(Strip(s.path.value));
    }
  }

  // ----- nodes and edges

  /** The fact has what the element says, and comes from the import. */
  predicate IsFactOf(c: Context, factType: string, s: Shared, f: Fact) {
    && f.id == s.storedId && f.factType == factType && f.kind == s.kind && f.namespace == c.namespace && f.origin == "ai"
    && f.status == s.status && f.confidence == s.confidence && f.evidencePath == s.path && f.evidenceLine == s.line
    && f.note == s.note && f.technology == s.technology && f.moduleName == s.moduleName
    && f.passId == s.pass && f.sourceRevision == s.revision
  }

  /** The element is a node with a name; an owner given beside the metadata joins them. */
  ghost predicate IsNodeOf(c: Context, raw: Value, item: Item) {
    && raw == Obj(item.fields) && exists s :: SaysNode(c, item, s)
  }

  ghost predicate SaysNode(c: Context, item: Item, s: Shared) {
    var o, f := item.fields, item.fact;
    && Says(c, o, "node", s) && (s.kind == "flow_data_access" ==> SaysAccess(o, s))
    && item.rawId == s.rawId && IsFactOf(c, "node", s, f) && f.name.Some? && IsText(o, Name, f.name.value)
    && f.sourceKind == f.sourceName == f.targetKind == f.targetName == f.relation == None
    && f.metadata == Some(if Lacks(o, Owner) then s.metadata else s.metadata[Owner := o[Owner]])
  }

  /** Exactly these elements are read as nodes, and this is what becomes of them. */
  lemma NodeIff(c: Context, raw: Value, item: Item)
    ensures ReadNode(c, raw) == Some(item) <==> IsNodeOf(c, raw, item)
  {
    if raw.Obj? {
      var o := raw.fields;
      if ReadShared(c, o, "node").Some? {
        var s := ReadShared(c, o, "node").value;
        SaysIff(c, o, "node", s);
        AccessIff(o, s);
        NodeFrom(c, raw, item, s);
      }
      if s :| SaysNode(c, item, s) && raw == Obj(item.fields) { SaysIff(c, o, "node", s); }
    }
  }

  lemma NodeFrom(c: Context, raw: Value, item: Item, s: Shared)
    requires raw.Obj? && ReadShared(c, raw.fields, "node") == Some(s) && Says(c, raw.fields, "node", s)
    requires AccessOk(raw.fields, s.metadata, s.path, s.line, s.status) <==> SaysAccess(raw.fields, s)
    ensures ReadNode(c, raw) == Some(item) <==> item.fields == raw.fields && SaysNode(c, item, s)
  {
    if item.fact.name.Some? { TextIff(raw.fields, Name, item.fact.name.value); }
  }

  predicate AddsTo(o: Object, key: Key, before: Object, after: Object) {
    after == if key in o && key !in before then before[key := o[key]] else before
  }

  /** Channel, topic, route and message type join the metadata unless those have them. */
  ghost predicate Joins(o: Object, before: Object, after: Object) {
    exists a, b, c :: AddsTo(o, Channel, before, a) && AddsTo(o, Topic, a, b) && AddsTo(o, Route, b, c) && AddsTo(o, MessageType, c, after)
  }

  /** The element is an edge between two nodes read before; without a relation it is its kind. */
  ghost predicate IsEdgeOf(c: Context, nodes: NodeTable, raw: Value, item: Item) {
    raw == Obj(item.fields) && exists s :: SaysEdge(c, nodes, item, s)
  }

  predicate NamesEnd(nodes: NodeTable, o: Object, key: Key, kind: Option<string>, name: Option<string>) {
    && HasText(o, key) && Strip(o[key].s) in nodes
    && var n := nodes[Strip(o[key].s)];
    && kind == Some(if Kind in n && n[Kind].Str? then n[Kind].s else "") && name == Some(if Name in n && n[Name].Str? then n[Name].s else "")
  }

  ghost predicate SaysEdge(c: Context, nodes: NodeTable, item: Item, s: Shared) {
    var o, f := item.fields, item.fact;
    && Says(c, o, "edge", s) && s.kind != "flow_data_access"
    && item.rawId == s.rawId && IsFactOf(c, "edge", s, f) && f.name == None
    && NamesEnd(nodes, o, Source, f.sourceKind, f.sourceName) && NamesEnd(nodes, o, Target, f.targetKind, f.targetName)
    && Relates(o, s.kind, f.relation)
    && f.metadata.Some? && Joins(o, s.metadata, f.metadata.value)
  }

  lemma JoinsIff(o: Object, before: Object, after: Object)
    ensures Filled(Filled(Filled(Filled(before, o, Channel), o, Topic), o, Route), o, MessageType) == after <==> Joins(o, before, after)
  {
    var a := Filled(before, o, Channel);
    var b := Filled(a, o, Topic);
    var c := Filled(b, o, Route);
    assert AddsTo(o, Channel, before, a) && AddsTo(o, Topic, a, b) && AddsTo(o, Route, b, c);
  }

  lemma EndIff(nodes: NodeTable, o: Object, key: Key, kind: Option<string>, name: Option<string>)
    ensures NamesEnd(nodes, o, key, kind, name) <==>
      RequiredString(Get(o, key)).Some? && RequiredString(Get(o, key)).value in nodes && kind.Some? && name.Some? &&
      EndOf(nodes[RequiredString(Get(o, key)).value]) == (kind.value, name.value)
  {
  }

  /** The relation, or the kind instead. */
  predicate Relates(o: Object, kind: string, relation: Option<string>) {
    if HasTruth(o, Relation) then HasText(o, Relation) && relation == Some(o[Relation].s) else relation == Some(kind)
  }

  function RelationRead(o: Object, kind: string): Value { if Truthy(Get(o, Relation)) then Get(o, Relation) else Str(kind) }

  lemma RelatesIff(o: Object, kind: string, relation: Option<string>)
    requires !Blank(kind)
    ensures Relates(o, kind, relation) <==> RelationRead(o, kind).Str? && !Blank(RelationRead(o, kind).s) && relation == Some(RelationRead(o, kind).s)
  {
    TruthIff(o, Relation);
  }

  /** Exactly these elements are read as edges, and this is what becomes of them. */
  lemma EdgeIff(c: Context, nodes: NodeTable, raw: Value, item: Item)
    ensures ReadEdge(c, nodes, raw) == Some(item) <==> IsEdgeOf(c, nodes, raw, item)
  {
    if raw.Obj? {
      var o := raw.fields;
      if ReadShared(c, o, "edge").Some? {
        var s := ReadShared(c, o, "edge").value;
        SaysIff(c, o, "edge", s);
        StripTrims(o[Kind].s);
        EdgeFrom(c, nodes, raw, item, s);
      }
      if s :| SaysEdge(c, nodes, item, s) && raw == Obj(item.fields) { SaysIff(c, o, "edge", s); }
    }
  }

  lemma EdgeFrom(c: Context, nodes: NodeTable, raw: Value, item: Item, s: Shared)
    requires raw.Obj? && ReadShared(c, raw.fields, "edge") == Some(s) && Says(c, raw.fields, "edge", s) && !Blank(s.kind)
    ensures ReadEdge(c, nodes, raw) == Some(item) <==> item.fields == raw.fields && SaysEdge(c, nodes, item, s)
  {
    var o, f := raw.fields, item.fact;
    EndIff(nodes, o, Source, f.sourceKind, f.sourceName);
    EndIff(nodes, o, Target, f.targetKind, f.targetName);
    RelatesIff(o, s.kind, f.relation);
    if f.metadata.Some? { JoinsIff(o, s.metadata, f.metadata.value); }
    EdgeReads(c, nodes, o, s, item);
  }

  /** What `ReadEdge` does once it has what nodes and edges say alike. */
  lemma EdgeReads(c: Context, nodes: NodeTable, o: Object, s: Shared, item: Item)
    requires ReadShared(c, o, "edge") == Some(s)
    ensures ReadEdge(c, nodes, Obj(o)) == Some(item) <==>
      && s.kind != "flow_data_access" && RequiredString(Get(o, Source)).Some? && RequiredString(Get(o, Target)).Some?
      && var source, target, relation := RequiredString(Get(o, Source)).value, RequiredString(Get(o, Target)).value, RelationRead(o, s.kind);
      && source in nodes && target in nodes && relation.Str? && !Blank(relation.s)
      && item.rawId == s.rawId && item.fields == o
      && item.fact == EdgeFact(s, c.namespace, EndOf(nodes[source]), EndOf(nodes[target]), relation.s,
           Filled(Filled(Filled(Filled(s.metadata, o, Channel), o, Topic), o, Route), o, MessageType))
  {
  }

  // ----- whole documents

  /** An argument counts if it is not empty. */
  predicate IsGiven(a: Option<string>) { a.Some? && a.value != "" }

  /** The entries that say who generated the document. */
  function Origins(o: Object): Object { if GeneratedBy in o && o[GeneratedBy].Obj? then o[GeneratedBy].fields else map[] }

  predicate ReadsIn(o: Object, namespace: Option<string>, passId: Option<string>, revision: Option<string>, c: Context) {
    var g := Origins(o);
    && Format in o && o[Format] == Str("systemlens-ai-graph-v1") && Strip(c.namespace) != ""
    && (if IsGiven(namespace) then c.namespace == namespace.value
        else if HasTruth(g, Namespace) then g[Namespace] == Str(c.namespace) else c.namespace == "ai-architecture")
    && Takes(g, Pass, passId, c.pass) && Takes(g, SourceRevision, revision, c.revision)
  }

  /** The argument, or a string or nothing in the document. */
  predicate Takes(g: Object, key: Key, a: Option<string>, v: Value) {
    if IsGiven(a) then v == Str(a.value) else if key in g then v == g[key] && (v.Null? || v.Str?) else v == Null
  }

  lemma TakesIff(g: Object, key: Key, a: Option<string>, v: Value)
    ensures Resolved(a, Get(g, key)) == Some(v) <==> Takes(g, key, a, v)
  {
  }

  lemma NamespaceIff(g: Object, namespace: Option<string>, name: string)
    ensures FirstTruthy(namespace, Get(g, Namespace), Str(DEFAULT_NAMESPACE)) == Str(name) <==>
      if IsGiven(namespace) then name == namespace.value
      else if HasTruth(g, Namespace) then g[Namespace] == Str(name) else name == "ai-architecture"
  {
    TruthIff(g, Namespace);
  }

  lemma ContextIff(document: Value, namespace: Option<string>, passId: Option<string>, revision: Option<string>, c: Context)
    ensures ContextOf(document, namespace, passId, revision) == Some(c) <==> document.Obj? && ReadsIn(document.fields, namespace, passId, revision, c)
  {
    if document.Obj? {
      var g := Origins(document.fields);
      NamespaceIff(g, namespace, c.namespace);
      TakesIff(g, Pass, passId, c.pass);
      TakesIff(g, SourceRevision, revision, c.revision);
    }
  }

  ghost predicate AreNodes(c: Context, raws: seq<Value>, items: seq<Item>) {
    |items| == |raws| && forall i :: 0 <= i < |raws| ==> IsNodeOf(c, raws[i], items[i])
  }

  ghost predicate AreEdges(c: Context, nodes: NodeTable, raws: seq<Value>, items: seq<Item>) {
    |items| == |raws| && forall i :: 0 <= i < |raws| ==> IsEdgeOf(c, nodes, raws[i], items[i])
  }

  ghost predicate IsTable(items: seq<Item>, nodes: NodeTable) {
    && (forall i :: 0 <= i < |items| ==> items[i].rawId in nodes && nodes[items[i].rawId] == items[i].fields)
    && forall id :: id in nodes ==> exists i :: 0 <= i < |items| && items[i].rawId == id
  }

  /** Neither in the document nor in the database two elements have one id. */
  predicate IdsDiffer(items: seq<Item>) {
    forall i, j | 0 <= i < j < |items| :: items[i].rawId != items[j].rawId && items[i].fact.id != items[j].fact.id
  }

  lemma {:induction false} EachIff(read: Reader, raws: seq<Value>, items: seq<Item>)
    ensures ReadEach(read, raws) == Some(items) <==> |items| == |raws| && forall i :: 0 <= i < |raws| ==> read(raws[i]) == Some(items[i])
    decreases |raws|
  {
    if raws != [] {
      var n := |raws| - 1;
      if |items| == |raws| {
        EachIff(read, raws[..n], items[..n]);
        assert items == items[..n] + [items[n]];
      }
      if ReadEach(read, raws) == Some(items) {
        var before := ReadEach(read, raws[..n]).value;
        assert items == before + [items[n]] && items[..n] == before;
      }
    }
  }

  lemma IdsIff(items: seq<Item>)
    ensures NoIdTwice(items) <==> IdsDiffer(items)
  {
    var raw, stored := RawIds(items), StoredIds(items);
    assert forall i, j :: 0 <= i < j < |items| ==> (raw[i] != raw[j] <==> items[i].rawId != items[j].rawId);
    assert forall i, j :: 0 <= i < j < |items| ==> (stored[i] != stored[j] <==> items[i].fact.id != items[j].fact.id);
  }

  lemma TableMore(items: seq<Item>, nodes: NodeTable, item: Item)
    requires IsTable(items, nodes) && forall i :: 0 <= i < |items| ==> items[i].rawId != item.rawId
    ensures IsTable(items + [item], nodes[item.rawId := item.fields])
  {
    var all, table := items + [item], nodes[item.rawId := item.fields];
    forall id | id in table ensures exists i :: 0 <= i < |all| && all[i].rawId == id {
      if id == item.rawId {
        assert all[|items|].rawId == id;
      } else {
        var i :| 0 <= i < |items| && items[i].rawId == id;
        assert all[i].rawId == id;
      }
    }
  }

  lemma {:induction false} TableIs(items: seq<Item>)
    requires IdsDiffer(items)
    ensures IsTable(items, TableOf(items))
  {
    if items != [] {
      var n := |items| - 1;
      TableIs(items[..n]);
      forall i | 0 <= i < n ensures items[..n][i].rawId != items[n].rawId { assert items[..n][i] == items[i]; }
      TableMore(items[..n], TableOf(items[..n]), items[n]);
      assert items == items[..n] + [items[n]];
    }
  }

  lemma OneTable(items: seq<Item>, a: NodeTable, b: NodeTable)
    requires IsTable(items, a) && IsTable(items, b)
    ensures a == b
  {
    forall id | id in a ensures id in b && a[id] == b[id] { var i :| 0 <= i < |items| && items[i].rawId == id; }
    forall id | id in b ensures id in a { var i :| 0 <= i < |items| && items[i].rawId == id; }
  }

  /** All nodes are readable, then all edges on top of them, and no id repeats. */
  ghost predicate AreElements(c: Context, rawNodes: seq<Value>, rawEdges: seq<Value>, nodes: seq<Item>, edges: seq<Item>, table: NodeTable) {
    AreNodes(c, rawNodes, nodes) && IdsDiffer(nodes + edges) && IsTable(nodes, table) && AreEdges(c, table, rawEdges, edges)
  }

  lemma NodesIff(c: Context, raws: seq<Value>, items: seq<Item>)
    ensures ReadEach(NodeReader(c), raws) == Some(items) <==> AreNodes(c, raws, items)
  {
    EachIff(NodeReader(c), raws, items);
    if |items| == |raws| {
      forall i | 0 <= i < |raws| ensures NodeReader(c)(raws[i]) == Some(items[i]) <==> IsNodeOf(c, raws[i], items[i]) { NodeIff(c, raws[i], items[i]); }
    }
  }

  lemma EdgesIff(c: Context, table: NodeTable, raws: seq<Value>, items: seq<Item>)
    ensures ReadEach(EdgeReaders(c)(table), raws) == Some(items) <==> AreEdges(c, table, raws, items)
  {
    EachIff(EdgeReaders(c)(table), raws, items);
    if |items| == |raws| {
      forall i | 0 <= i < |raws| ensures EdgeReaders(c)(table)(raws[i]) == Some(items[i]) <==> IsEdgeOf(c, table, raws[i], items[i]) {
        EdgeIff(c, table, raws[i], items[i]);
      }
    }
  }

  lemma FrontDiffers(nodes: seq<Item>, edges: seq<Item>)
    requires IdsDiffer(nodes + edges)
    ensures IdsDiffer(nodes)
  {
    forall i, j | 0 <= i < j < |nodes| ensures nodes[i].rawId != nodes[j].rawId && nodes[i].fact.id != nodes[j].fact.id {
      assert (nodes + edges)[i] == nodes[i] && (nodes + edges)[j] == nodes[j];
    }
  }

  lemma ElementsRead(c: Context, rawNodes: seq<Value>, rawEdges: seq<Value>, nodes: seq<Item>, edges: seq<Item>, table: NodeTable)
    requires AreElements(c, rawNodes, rawEdges, nodes, edges, table)
    ensures ReadAll(NodeReader(c), EdgeReaders(c), rawNodes, rawEdges) == Some(nodes + edges)
  {
    NodesIff(c, rawNodes, nodes);
    FrontDiffers(nodes, edges);
    IdsIff(nodes);
    IdsIff(nodes + edges);
    TableIs(nodes);
    OneTable(nodes, table, TableOf(nodes));
    EdgesIff(c, table, rawEdges, edges);
  }

  lemma ReadIsElements(c: Context, rawNodes: seq<Value>, rawEdges: seq<Value>) returns (nodes: seq<Item>, edges: seq<Item>)
    requires ReadAll(NodeReader(c), EdgeReaders(c), rawNodes, rawEdges).Some?
    ensures AreElements(c, rawNodes, rawEdges, nodes, edges, TableOf(nodes))
    ensures ReadAll(NodeReader(c), EdgeReaders(c), rawNodes, rawEdges) == Some(nodes + edges)
  {
    nodes := ReadEach(NodeReader(c), rawNodes).value;
    edges := ReadEach(EdgeReaders(c)(TableOf(nodes)), rawEdges).value;
    NodesIff(c, rawNodes, nodes);
    IdsIff(nodes);
    IdsIff(nodes + edges);
    TableIs(nodes);
    EdgesIff(c, TableOf(nodes), rawEdges, edges);
  }

  /** The document has lists of nodes and edges and a known mode. */
  predicate IsManifest(o: Object, complete: bool) {
    && Nodes in o && o[Nodes].Arr? && Edges in o && o[Edges].Arr?
    && (if Mode in o then o[Mode] == Str(if complete then "complete" else "partial") else !complete)
  }

  ghost predicate ImportsAs(o: Object, namespace: Option<string>, passId: Option<string>, revision: Option<string>, r: Import, c: Context, nodes: seq<Item>, edges: seq<Item>, table: NodeTable) {
    && IsManifest(o, r.complete) && ReadsIn(o, namespace, passId, revision, c) && r.namespace == c.namespace
    && AreElements(c, o[Nodes].items, o[Edges].items, nodes, edges, table)
    && |r.facts| == |nodes| + |edges| && forall i :: 0 <= i < |r.facts| ==> r.facts[i] == (nodes + edges)[i].fact
  }

  /** A document is imported exactly if all its elements are readable, and then as these facts. */
  lemma ImportIff(document: Value, namespace: Option<string>, passId: Option<string>, revision: Option<string>, r: Import)
    ensures Loaded(document, namespace, passId, revision) == Some(r) <==>
      document.Obj? && exists c, nodes, edges, table :: ImportsAs(document.fields, namespace, passId, revision, r, c, nodes, edges, table)
  {
    if Loaded(document, namespace, passId, revision) == Some(r) {
      LoadedImports(document, namespace, passId, revision, r);
    }
    if document.Obj? {
      if c, nodes, edges, table :| ImportsAs(document.fields, namespace, passId, revision, r, c, nodes, edges, table) {
        ImportsLoaded(document, namespace, passId, revision, r, c, nodes, edges, table);
      }
    }
  }

  lemma LoadedImports(document: Value, namespace: Option<string>, passId: Option<string>, revision: Option<string>, r: Import)
    requires Loaded(document, namespace, passId, revision) == Some(r)
    ensures document.Obj? && exists c, nodes, edges, table :: ImportsAs(document.fields, namespace, passId, revision, r, c, nodes, edges, table)
  {
    var c := ContextOf(document, namespace, passId, revision).value;
    ContextIff(document, namespace, passId, revision, c);
    var o := document.fields;
    var nodes, edges := ReadIsElements(c, o[Nodes].items, o[Edges].items);
    assert ImportsAs(o, namespace, passId, revision, r, c, nodes, edges, TableOf(nodes));
  }

  lemma ImportsLoaded(document: Value, namespace: Option<string>, passId: Option<string>, revision: Option<string>, r: Import, c: Context, nodes: seq<Item>, edges: seq<Item>, table: NodeTable)
    requires document.Obj? && ImportsAs(document.fields, namespace, passId, revision, r, c, nodes, edges, table)
    ensures Loaded(document, namespace, passId, revision) == Some(r)
  {
    var o := document.fields;
    ContextIff(document, namespace, passId, revision, c);
    ElementsRead(c, o[Nodes].items, o[Edges].items, nodes, edges, table);
    LoadedFrom(document, namespace, passId, revision, c, nodes + edges, r.complete);
    assert r.facts == FactsOf(nodes + edges);
  }

  lemma LoadedFrom(document: Value, namespace: Option<string>, passId: Option<string>, revision: Option<string>, c: Context, items: seq<Item>, complete: bool)
    requires ContextOf(document, namespace, passId, revision) == Some(c) && IsManifest(document.fields, complete)
    requires ReadAll(NodeReader(c), EdgeReaders(c), document.fields[Nodes].items, document.fields[Edges].items) == Some(items)
    ensures Loaded(document, namespace, passId, revision) == Some(Import(FactsOf(items), c.namespace, complete))
  {
  }

  // ----- what an export says

  /** The element has this entry. */
  predicate Entry(o: Object, key: Key, v: Value) { key in o && o[key] == v }

  predicate Optional(o: Object, key: Key, text: Option<string>) { if text.Some? then Entry(o, key, Str(text.value)) else key !in o }

  predicate ExportsEvidence(o: Object, f: Fact) {
    && Evidence in o
    && if f.evidencePath == None || f.evidencePath == Some("") then o[Evidence] == Arr([])
       else
         && o[Evidence].Arr? && |o[Evidence].items| == 1 && o[Evidence].items[0].Obj?
         && var e := o[Evidence].items[0].fields;
         Entry(e, Path, Str(f.evidencePath.value)) && Entry(e, StartLine, if f.evidenceLine.Some? then Num(f.evidenceLine.value) else Null)
  }

  /** What the elements of nodes and edges have alike. */
  predicate ExportsFact(o: Object, f: Fact) {
    && Entry(o, Id, Str(f.id)) && Entry(o, StorageId, Str(f.id)) && Entry(o, Kind, Str(f.kind))
    && Entry(o, Status, Str(f.status)) && Entry(o, Confidence, Str(f.confidence))
    && Entry(o, Metadata, Obj(if f.metadata.Some? then f.metadata.value else map[]))
    && Entry(o, Pass, f.passId) && Entry(o, SourceRevision, f.sourceRevision)
    && Optional(o, Reason, f.note) && Optional(o, Technology, f.technology) && Optional(o, Module, f.moduleName)
    && ExportsEvidence(o, f)
  }

  predicate ExportsNode(v: Value, f: Fact) {
    v.Obj? && ExportsFact(v.fields, f) && Entry(v.fields, Name, if f.name.Some? then Str(f.name.value) else Null)
  }

  /** The end of an edge: the last node fact of that kind and name, or a reference. */
  ghost predicate IsEndId(nodes: seq<Fact>, kind: Option<string>, name: Option<string>, id: string) {
    var k, n := OrEmpty(kind), OrEmpty(name);
    || (exists i :: IsLastOf(nodes, k, n, i) && id == nodes[i].id)
    || ((forall i :: 0 <= i < |nodes| ==> !IsNamedSo(nodes[i], k, n)) && id == "ref:" + k + ":" + n)
  }

  predicate IsNamedSo(f: Fact, kind: string, name: string) { f.kind == kind && OrEmpty(f.name) == name }

  predicate IsLastOf(nodes: seq<Fact>, kind: string, name: string, i: int) {
    0 <= i < |nodes| && IsNamedSo(nodes[i], kind, name) && forall j | i < j < |nodes| :: !IsNamedSo(nodes[j], kind, name)
  }

  ghost predicate ExportsEdge(v: Value, nodes: seq<Fact>, f: Fact) {
    && v.Obj? && ExportsFact(v.fields, f) && Entry(v.fields, Relation, if f.relation.Some? then Str(f.relation.value) else Null)
    && Source in v.fields && v.fields[Source].Str? && IsEndId(nodes, f.sourceKind, f.sourceName, v.fields[Source].s)
    && Target in v.fields && v.fields[Target].Str? && IsEndId(nodes, f.targetKind, f.targetName, v.fields[Target].s)
  }

  lemma OptionalIff(o: Object, key: Key, text: Option<string>)
    requires Get(o, key) == OptStr(text) && (text.None? ==> key !in o)
    ensures Optional(o, key, text)
  {
  }

  lemma FieldExports(o: Object, f: Fact, key: Key, v: Value)
    requires ManifestElements.Agrees(o, f) && FactField(f, key) == Some(v)
    ensures Entry(o, key, v)
  {
  }

  lemma FactExports(o: Object, f: Fact)
    requires ManifestElements.Agrees(o, f)
    ensures ExportsFact(o, f)
  {
    FieldExports(o, f, Id, Str(f.id));
    FieldExports(o, f, StorageId, Str(f.id));
    FieldExports(o, f, Kind, Str(f.kind));
    FieldExports(o, f, Status, Str(f.status));
    FieldExports(o, f, Confidence, Str(f.confidence));
    FieldExports(o, f, Metadata, Obj(MetadataOf(f)));
    FieldExports(o, f, Pass, f.passId);
    FieldExports(o, f, SourceRevision, f.sourceRevision);
    FieldExports(o, f, Evidence, EvidenceJson(f));
    TextsExport(o, f);
    EvidenceExports(o, f);
  }

  lemma TextsExport(o: Object, f: Fact)
    requires ManifestElements.Agrees(o, f)
    ensures Optional(o, Reason, f.note) && Optional(o, Technology, f.technology) && Optional(o, Module, f.moduleName)
  {
    ManifestElements.AgreesNames(o, f);
    ManifestElements.AgreesNotes(o, f);
    OptionalIff(o, Reason, f.note);
    OptionalIff(o, Technology, f.technology);
    OptionalIff(o, Module, f.moduleName);
  }

  lemma EvidenceExports(o: Object, f: Fact)
    requires Entry(o, Evidence, EvidenceJson(f))
    ensures ExportsEvidence(o, f)
  {
  }

  /** What the element of a node fact says. */
  lemma NodeExports(f: Fact)
    ensures ExportsNode(NodeJson(f), f)
  {
    ManifestElements.NodeAgrees(f);
    FactExports(NodeFields(f), f);
    NameExports(f);
  }

  lemma NameExports(f: Fact)
    ensures Entry(NodeFields(f), Name, if f.name.Some? then Str(f.name.value) else Null)
  {
    assert Name in FIELDS && NodeField(f, Name).Some?;
  }

  lemma {:induction false} IdsFiled(nodes: seq<Fact>, kind: string, name: string)
    ensures (kind, name) in NodeIds(nodes) ==> exists i :: IsLastOf(nodes, kind, name, i) && NodeIds(nodes)[(kind, name)] == nodes[i].id
    ensures (kind, name) !in NodeIds(nodes) ==> forall i :: 0 <= i < |nodes| ==> !IsNamedSo(nodes[i], kind, name)
  {
    if nodes != [] {
      var n := |nodes| - 1;
      IdsFiled(nodes[..n], kind, name);
      if IsNamedSo(nodes[n], kind, name) {
        assert IsLastOf(nodes, kind, name, n);
      } else if (kind, name) in NodeIds(nodes) {
        var i :| IsLastOf(nodes[..n], kind, name, i) && NodeIds(nodes[..n])[(kind, name)] == nodes[..n][i].id;
        assert IsLastOf(nodes, kind, name, i);
      } else {
        forall i | 0 <= i < |nodes| ensures !IsNamedSo(nodes[i], kind, name) { assert i < n ==> nodes[..n][i] == nodes[i]; }
      }
    }
  }

  /** What the element of an edge fact says. */
  lemma EdgeExports(nodes: seq<Fact>, f: Fact)
    ensures ExportsEdge(EdgeJson(f, NodeIds(nodes)), nodes, f)
  {
    ManifestElements.EdgeAgrees(f, NodeIds(nodes));
    FactExports(EdgeFields(f, NodeIds(nodes)), f);
    EndsExport(nodes, f);
    EndExports(nodes, f.sourceKind, f.sourceName);
    EndExports(nodes, f.targetKind, f.targetName);
  }

  lemma EndsExport(nodes: seq<Fact>, f: Fact)
    ensures var o, ids := EdgeFields(f, NodeIds(nodes)), NodeIds(nodes);
      && Entry(o, Relation, if f.relation.Some? then Str(f.relation.value) else Null)
      && Entry(o, Source, Str(ExportedId(ids, SourceEnd(f)))) && Entry(o, Target, Str(ExportedId(ids, TargetEnd(f))))
  {
    var ids := NodeIds(nodes);
    assert EdgeField(f, ids, Relation).Some? && EdgeField(f, ids, Source).Some? && EdgeField(f, ids, Target).Some?;
  }

  lemma EndExports(nodes: seq<Fact>, kind: Option<string>, name: Option<string>)
    ensures IsEndId(nodes, kind, name, ExportedId(NodeIds(nodes), (OrEmpty(kind), OrEmpty(name))))
  {
    IdsFiled(nodes, OrEmpty(kind), OrEmpty(name));
  }
}
