/** Export and import of a whole namespace: which facts survive, what comes back, and when
    a second round changes nothing (application/ai_graph.py). */
module ManifestRoundTrip {
  import opened Wrappers
  import opened Basics
  import opened Json
  import opened GraphFacts
  import opened Manifest
  import opened ManifestElements

  // ----- what the import restores

  function ImportedNodes(nodes: seq<Fact>, namespace: string): (r: seq<Fact>)
    ensures |r| == |nodes|
  {
    seq(|nodes|, i requires 0 <= i < |nodes| => ImportedNode(nodes[i], namespace))
  }

  function RefFacts(refs: seq<End>, namespace: string): (r: seq<Fact>)
    ensures |r| == |refs|
  {
    seq(|refs|, i requires 0 <= i < |refs| => RefFact(refs[i], namespace))
  }

  function ImportedEdges(edges: seq<Fact>, namespace: string): (r: seq<Fact>)
    ensures |r| == |edges|
  {
    seq(|edges|, i requires 0 <= i < |edges| => ImportedEdge(edges[i], namespace))
  }

  /** The exported part of a namespace: its nodes, its edges, and the ends to stand in for. */
  datatype Selection = Selection(nodes: seq<Fact>, edges: seq<Fact>) {
    function Ids(): map<End, string> { NodeIds(nodes) }

    function References(): seq<End> { Refs(Ids(), edges) }

    /** The facts after the import: nodes, reference nodes, edges. */
    function Imported(namespace: string): seq<Fact> {
      ImportedNodes(nodes, namespace) + RefFacts(References(), namespace) + ImportedEdges(edges, namespace)
    }
  }

  function Selected(facts: seq<Fact>, namespace: string): Selection {
    Selection(Select(facts, namespace, "node"), Select(facts, namespace, "edge"))
  }

  ghost predicate Typed(s: Selection) {
    (forall f :: f in s.nodes ==> f.factType == "node") && forall f :: f in s.edges ==> f.factType == "edge"
  }

  lemma {:induction false} SelectMeans(facts: seq<Fact>, namespace: string, factType: string)
    ensures forall f :: f in Select(facts, namespace, factType) <==> f in facts && f.namespace == namespace && f.factType == factType
  {
    if facts != [] {
      var n := |facts| - 1;
      SelectMeans(facts[..n], namespace, factType);
      assert facts == facts[..n] + [facts[n]];
    }
  }

  // ----- what can be exported

  function IdsOf(facts: seq<Fact>): (r: seq<string>)
    ensures |r| == |facts|
  {
    seq(|facts|, i requires 0 <= i < |facts| => facts[i].id)
  }

  function RefIds(refs: seq<End>): (r: seq<string>)
    ensures |r| == |refs|
  {
    seq(|refs|, i requires 0 <= i < |refs| => RefId(refs[i]))
  }

  function StripAll(s: seq<string>): (r: seq<string>)
    ensures |r| == |s|
  {
    seq(|s|, i requires 0 <= i < |s| => Strip(s[i]))
  }

  /** The ids that the manifest shows. */
  function ShownIds(s: Selection): seq<string> { IdsOf(s.nodes) + RefIds(s.References()) + IdsOf(s.edges) }

  /** Every element passes its own checks, and neither a shown id nor a stored one repeats. */
  ghost predicate Exportable(s: Selection, namespace: string) {
    && (forall f :: f in s.nodes ==> NodeOk(f))
    && (forall e :: e in s.References() ==> RefOk(e))
    && (forall f :: f in s.edges ==> EdgeOk(f))
    && Distinct(StripAll(ShownIds(s)))
    && Distinct(IdsOf(s.Imported(namespace)))
  }

  // ----- the elements of the document

  function NodeItem(f: Fact, namespace: string): Item { Item(Strip(f.id), NodeFields(f), ImportedNode(f, namespace)) }

  function RefItem(e: End, namespace: string): Item { Item(Strip(RefId(e)), RefJson(e).fields, RefFact(e, namespace)) }

  function EdgeItem(f: Fact, nodeIds: map<End, string>, namespace: string): Item {
    Item(Strip(f.id), EdgeFields(f, nodeIds), ImportedEdge(f, namespace))
  }

  lemma {:induction false} AllRead(read: Reader, raws: seq<Value>, items: seq<Item>)
    requires |raws| == |items| && forall i :: 0 <= i < |raws| ==> read(raws[i]) == Some(items[i])
    ensures ReadEach(read, raws) == Some(items)
  {
    if raws != [] {
      var n := |raws| - 1;
      AllRead(read, raws[..n], items[..n]);
      assert read(raws[n]) == Some(items[n]) && items == items[..n] + [items[n]];
    }
  }

  lemma {:induction false} OneRefused(read: Reader, raws: seq<Value>, i: nat)
    requires i < |raws| && read(raws[i]).None?
    ensures ReadEach(read, raws).None?
  {
    if i < |raws| - 1 { OneRefused(read, raws[..|raws| - 1], i); }
  }

  lemma {:induction false} NodeJsonsAt(nodes: seq<Fact>, i: nat)
    requires i < |nodes|
    ensures NodeJsons(nodes)[i] == NodeJson(nodes[i])
  {
    if i < |nodes| - 1 { NodeJsonsAt(nodes[..|nodes| - 1], i); }
  }

  lemma {:induction false} RefJsonsAt(refs: seq<End>, i: nat)
    requires i < |refs|
    ensures RefJsons(refs)[i] == RefJson(refs[i])
  {
    if i < |refs| - 1 { RefJsonsAt(refs[..|refs| - 1], i); }
  }

  lemma {:induction false} EdgeJsonsAt(edges: seq<Fact>, nodeIds: map<End, string>, i: nat)
    requires i < |edges|
    ensures EdgeJsons(edges, nodeIds)[i] == EdgeJson(edges[i], nodeIds)
  {
    if i < |edges| - 1 { EdgeJsonsAt(edges[..|edges| - 1], nodeIds, i); }
  }

  function NodeItems(s: Selection, namespace: string): (r: seq<Item>)
    ensures |r| == |s.nodes| + |s.References()|
  {
    FactItems(s.nodes, namespace) + RefItems(s.References(), namespace)
  }

  function EdgeItems(s: Selection, namespace: string): (r: seq<Item>)
    ensures |r| == |s.edges|
  {
    seq(|s.edges|, i requires 0 <= i < |s.edges| => EdgeItem(s.edges[i], s.Ids(), namespace))
  }

  ghost predicate NodesOk(s: Selection) {
    (forall f :: f in s.nodes ==> NodeOk(f)) && forall e :: e in s.References() ==> RefOk(e)
  }

  ghost predicate EdgesOk(s: Selection) { forall f :: f in s.edges ==> EdgeOk(f) }

  // ----- readers, by what they make of exported elements

  ghost predicate ReadsFact(read: Reader, namespace: string, f: Fact) {
    read(NodeJson(f)) == if NodeOk(f) then Some(NodeItem(f, namespace)) else None
  }

  ghost predicate ReadsRef(read: Reader, namespace: string, e: End) {
    read(RefJson(e)) == if RefOk(e) then Some(RefItem(e, namespace)) else None
  }

  ghost predicate ReadsNodes(read: Reader, namespace: string) {
    && (forall f: Fact :: f.factType == "node" ==> ReadsFact(read, namespace, f))
    && forall e :: ReadsRef(read, namespace, e)
  }

  ghost predicate ReadsEdge(read: Reader, nodeIds: map<End, string>, namespace: string, f: Fact) {
    read(EdgeJson(f, nodeIds)) == if EdgeOk(f) then Some(EdgeItem(f, nodeIds, namespace)) else None
  }

  /** Edges whose ends the table names are read. */
  ghost predicate ReadsEdges(read: Reader, nodes: NodeTable, nodeIds: map<End, string>, namespace: string) {
    forall f: Fact :: f.factType == "edge" && Resolves(nodes, nodeIds, SourceEnd(f)) && Resolves(nodes, nodeIds, TargetEnd(f)) ==>
      ReadsEdge(read, nodeIds, namespace, f)
  }

  ghost predicate ReadsAll(readNode: Reader, readEdge: NodeTable -> Reader, nodeIds: map<End, string>, namespace: string) {
    ReadsNodes(readNode, namespace) && forall nodes :: ReadsEdges(readEdge(nodes), nodes, nodeIds, namespace)
  }

  /** The readers of the import are such readers. */
  lemma ImportReads(c: Context, nodeIds: map<End, string>)
    requires c.pass == Null && c.revision == Null
    ensures ReadsAll(NodeReader(c), EdgeReaders(c), nodeIds, c.namespace)
  {
    forall f: Fact | f.factType == "node" ensures ReadsFact(NodeReader(c), c.namespace, f) { ReadNodeFact(c, f); }
    forall e ensures ReadsRef(NodeReader(c), c.namespace, e) { ReadRef(c, e); }
    forall nodes ensures ReadsEdges(EdgeReaders(c)(nodes), nodes, nodeIds, c.namespace) { EdgesRead(c, nodes, nodeIds); }
  }

  lemma EdgesRead(c: Context, nodes: NodeTable, nodeIds: map<End, string>)
    ensures ReadsEdges(EdgeReaders(c)(nodes), nodes, nodeIds, c.namespace)
  {
    forall f: Fact | f.factType == "edge" && Resolves(nodes, nodeIds, SourceEnd(f)) && Resolves(nodes, nodeIds, TargetEnd(f))
      ensures ReadsEdge(EdgeReaders(c)(nodes), nodeIds, c.namespace, f)
    {
      ReadEdgeFact(c, nodes, nodeIds, f);
    }
  }

  lemma {:induction false} ReadEachJoin(read: Reader, a: seq<Value>, b: seq<Value>)
    ensures ReadEach(read, a + b) ==
      if ReadEach(read, a).Some? && ReadEach(read, b).Some? then Some(ReadEach(read, a).value + ReadEach(read, b).value) else None
  {
    if b == [] {
      assert a + b == a;
      if ReadEach(read, a).Some? { assert ReadEach(read, a).value + [] == ReadEach(read, a).value; }
    } else {
      assert (a + b)[..|a + b| - 1] == a + b[..|b| - 1] && (a + b)[|a + b| - 1] == b[|b| - 1];
      ReadEachJoin(read, a, b[..|b| - 1]);
      if ReadEach(read, a + b).Some? {
        var item := read(b[|b| - 1]).value;
        assert (ReadEach(read, a).value + ReadEach(read, b[..|b| - 1]).value) + [item] ==
               ReadEach(read, a).value + (ReadEach(read, b[..|b| - 1]).value + [item]);
      }
    }
  }

  function FactItems(nodes: seq<Fact>, namespace: string): seq<Item> {
    seq(|nodes|, i requires 0 <= i < |nodes| => NodeItem(nodes[i], namespace))
  }

  function RefItems(refs: seq<End>, namespace: string): seq<Item> {
    seq(|refs|, i requires 0 <= i < |refs| => RefItem(refs[i], namespace))
  }

  /** What the exported list of node facts reads as. */
  lemma FactsRead(s: Selection, read: Reader, namespace: string)
    requires Typed(s) && ReadsNodes(read, namespace)
    ensures ReadEach(read, NodeJsons(s.nodes)) ==
      if forall f :: f in s.nodes ==> NodeOk(f) then Some(FactItems(s.nodes, namespace)) else None
  {
    forall i | 0 <= i < |s.nodes| ensures NodeJsons(s.nodes)[i] == NodeJson(s.nodes[i]) && ReadsFact(read, namespace, s.nodes[i]) {
      NodeJsonsAt(s.nodes, i);
      assert s.nodes[i] in s.nodes;
    }
    if forall f :: f in s.nodes ==> NodeOk(f) {
      AllRead(read, NodeJsons(s.nodes), FactItems(s.nodes, namespace));
    } else {
      var f :| f in s.nodes && !NodeOk(f);
      var i :| 0 <= i < |s.nodes| && s.nodes[i] == f;
      OneRefused(read, NodeJsons(s.nodes), i);
    }
  }

  /** What the exported list of reference nodes reads as. */
  lemma RefsRead(refs: seq<End>, read: Reader, namespace: string)
    requires ReadsNodes(read, namespace)
    ensures ReadEach(read, RefJsons(refs)) ==
      if forall e :: e in refs ==> RefOk(e) then Some(RefItems(refs, namespace)) else None
  {
    forall i | 0 <= i < |refs| ensures RefJsons(refs)[i] == RefJson(refs[i]) && ReadsRef(read, namespace, refs[i]) {
      RefJsonsAt(refs, i);
    }
    if forall e :: e in refs ==> RefOk(e) {
      AllRead(read, RefJsons(refs), RefItems(refs, namespace));
    } else {
      var e :| e in refs && !RefOk(e);
      var i :| 0 <= i < |refs| && refs[i] == e;
      OneRefused(read, RefJsons(refs), i);
    }
  }

  lemma ReadExportedNodes(s: Selection, read: Reader, namespace: string)
    requires Typed(s) && ReadsNodes(read, namespace)
    ensures ReadEach(read, NodeJsons(s.nodes) + RefJsons(s.References())) ==
            if NodesOk(s) then Some(NodeItems(s, namespace)) else None
  {
    FactsRead(s, read, namespace);
    RefsRead(s.References(), read, namespace);
    ReadEachJoin(read, NodeJsons(s.nodes), RefJsons(s.References()));
  }

  // ----- the ends of the edges

  lemma {:induction false} TableAt(items: seq<Item>, k: nat)
    requires k < |items| && Distinct(RawIds(items))
    ensures items[k].rawId in TableOf(items) && TableOf(items)[items[k].rawId] == items[k].fields
  {
    var n := |items| - 1;
    if k < n {
      assert RawIds(items[..n]) == RawIds(items)[..n];
      TableAt(items[..n], k);
      assert RawIds(items)[k] != RawIds(items)[n];
    }
  }

  lemma {:induction false} NodeIdsAt(nodes: seq<Fact>, e: End) returns (k: nat)
    requires e in NodeIds(nodes)
    ensures k < |nodes| && NodeEnd(nodes[k]) == e && nodes[k].id == NodeIds(nodes)[e]
  {
    var n := |nodes| - 1;
    if NodeEnd(nodes[n]) == e { k := n; } else { k := NodeIdsAt(nodes[..n], e); }
  }

  lemma {:induction false} EndsKnown(nodeIds: map<End, string>, edges: seq<Fact>, i: nat)
    requires i < |edges|
    ensures SourceEnd(edges[i]) in nodeIds || SourceEnd(edges[i]) in Refs(nodeIds, edges)
    ensures TargetEnd(edges[i]) in nodeIds || TargetEnd(edges[i]) in Refs(nodeIds, edges)
  {
    if i < |edges| - 1 { EndsKnown(nodeIds, edges[..|edges| - 1], i); }
  }

  lemma NodeEndOf(f: Fact)
    requires f.name.Some?
    ensures EndOf(NodeFields(f)) == NodeEnd(f)
  {
    NodeAgrees(f);
    NodeOnly(f);
    AgreesNames(NodeFields(f), f);
  }

  lemma RefEndOf(e: End)
    ensures EndOf(RefJson(e).fields) == e
  {
  }

  lemma EndResolves(s: Selection, namespace: string, e: End)
    requires NodesOk(s) && Distinct(RawIds(NodeItems(s, namespace)))
    requires e in s.Ids() || e in s.References()
    ensures Resolves(TableOf(NodeItems(s, namespace)), s.Ids(), e)
  {
    if e in s.Ids() {
      var k := NodeIdsAt(s.nodes, e);
      assert s.nodes[k] in s.nodes && NodeItems(s, namespace)[k] == NodeItem(s.nodes[k], namespace);
      TableAt(NodeItems(s, namespace), k);
      NodeEndOf(s.nodes[k]);
    } else {
      ReferenceResolves(s, namespace, e);
    }
  }

  lemma ReferenceResolves(s: Selection, namespace: string, e: End)
    requires Distinct(RawIds(NodeItems(s, namespace))) && e in s.References() && e !in s.Ids()
    ensures Resolves(TableOf(NodeItems(s, namespace)), s.Ids(), e)
  {
    var j :| 0 <= j < |s.References()| && s.References()[j] == e;
    var k := |s.nodes| + j;
    assert NodeItems(s, namespace)[k] == RefItem(e, namespace);
    TableAt(NodeItems(s, namespace), k);
    RefEndOf(e);
    StartsVisibly(RefId(e));
  }

  lemma EdgeAt(s: Selection, read: Reader, namespace: string, i: nat)
    requires Typed(s) && i < |s.edges| && NodesOk(s) && Distinct(RawIds(NodeItems(s, namespace)))
    requires ReadsEdges(read, TableOf(NodeItems(s, namespace)), s.Ids(), namespace)
    ensures EdgeJsons(s.edges, s.Ids())[i] == EdgeJson(s.edges[i], s.Ids()) && ReadsEdge(read, s.Ids(), namespace, s.edges[i])
  {
    EdgeJsonsAt(s.edges, s.Ids(), i);
    EndsKnown(s.Ids(), s.edges, i);
    EndResolves(s, namespace, SourceEnd(s.edges[i]));
    EndResolves(s, namespace, TargetEnd(s.edges[i]));
    assert s.edges[i] in s.edges;
  }

  lemma ReadExportedEdges(s: Selection, read: Reader, namespace: string)
    requires Typed(s) && NodesOk(s) && Distinct(RawIds(NodeItems(s, namespace)))
    requires ReadsEdges(read, TableOf(NodeItems(s, namespace)), s.Ids(), namespace)
    ensures ReadEach(read, EdgeJsons(s.edges, s.Ids())) == if EdgesOk(s) then Some(EdgeItems(s, namespace)) else None
  {
    var raws := EdgeJsons(s.edges, s.Ids());
    forall i | 0 <= i < |s.edges| ensures raws[i] == EdgeJson(s.edges[i], s.Ids()) && ReadsEdge(read, s.Ids(), namespace, s.edges[i]) {
      EdgeAt(s, read, namespace, i);
    }
    if EdgesOk(s) {
      AllRead(read, raws, EdgeItems(s, namespace));
    } else {
      var f :| f in s.edges && !EdgeOk(f);
      var i :| 0 <= i < |s.edges| && s.edges[i] == f;
      OneRefused(read, raws, i);
    }
  }

  // ----- the round trip

  lemma RawIdsShow(s: Selection, namespace: string)
    ensures RawIds(NodeItems(s, namespace) + EdgeItems(s, namespace)) == StripAll(ShownIds(s))
    ensures RawIds(NodeItems(s, namespace)) == StripAll(ShownIds(s))[..|NodeItems(s, namespace)|]
  {
  }

  lemma FactsShow(s: Selection, namespace: string)
    ensures FactsOf(NodeItems(s, namespace) + EdgeItems(s, namespace)) == s.Imported(namespace)
  {
  }

  lemma StoredIdsShow(s: Selection, namespace: string)
    ensures StoredIds(NodeItems(s, namespace) + EdgeItems(s, namespace)) == IdsOf(s.Imported(namespace))
    ensures StoredIds(NodeItems(s, namespace)) == IdsOf(s.Imported(namespace))[..|NodeItems(s, namespace)|]
  {
    FactsShow(s, namespace);
    StoredAreIds(NodeItems(s, namespace) + EdgeItems(s, namespace));
    StoredPrefix(NodeItems(s, namespace), EdgeItems(s, namespace));
  }

  lemma StoredAreIds(items: seq<Item>)
    ensures StoredIds(items) == IdsOf(FactsOf(items))
  {
  }

  lemma StoredPrefix(a: seq<Item>, b: seq<Item>)
    ensures StoredIds(a) == StoredIds(a + b)[..|a|]
  {
  }

  lemma DistinctPrefix(s: seq<string>, n: nat)
    requires n <= |s| && Distinct(s)
    ensures Distinct(s[..n])
  {
  }

  lemma NodesRefused(s: Selection, readNode: Reader, readEdge: NodeTable -> Reader, namespace: string, edges: seq<Value>)
    requires Typed(s) && ReadsNodes(readNode, namespace)
    requires !NodesOk(s) || !NoIdTwice(NodeItems(s, namespace))
    ensures ReadAll(readNode, readEdge, NodeJsons(s.nodes) + RefJsons(s.References()), edges).None?
  {
    ReadExportedNodes(s, readNode, namespace);
  }

  lemma NodesRead(s: Selection, readNode: Reader, readEdge: NodeTable -> Reader, namespace: string)
    requires Typed(s) && ReadsAll(readNode, readEdge, s.Ids(), namespace)
    requires NodesOk(s) && NoIdTwice(NodeItems(s, namespace))
    ensures var items := NodeItems(s, namespace) + EdgeItems(s, namespace);
      ReadAll(readNode, readEdge, NodeJsons(s.nodes) + RefJsons(s.References()), EdgeJsons(s.edges, s.Ids())) ==
      if EdgesOk(s) && NoIdTwice(items) then Some(items) else None
  {
    ReadExportedNodes(s, readNode, namespace);
    ReadExportedEdges(s, readEdge(TableOf(NodeItems(s, namespace))), namespace);
  }

  lemma ReadSelection(s: Selection, readNode: Reader, readEdge: NodeTable -> Reader, namespace: string)
    requires Typed(s) && ReadsAll(readNode, readEdge, s.Ids(), namespace)
    ensures ReadAll(readNode, readEdge, NodeJsons(s.nodes) + RefJsons(s.References()), EdgeJsons(s.edges, s.Ids())) ==
      if Exportable(s, namespace) then Some(NodeItems(s, namespace) + EdgeItems(s, namespace)) else None
  {
    var nodes := NodeItems(s, namespace);
    RawIdsShow(s, namespace);
    StoredIdsShow(s, namespace);
    if Distinct(StripAll(ShownIds(s))) { DistinctPrefix(StripAll(ShownIds(s)), |nodes|); }
    if Distinct(IdsOf(s.Imported(namespace))) { DistinctPrefix(IdsOf(s.Imported(namespace)), |nodes|); }
    if NodesOk(s) && NoIdTwice(nodes) {
      NodesRead(s, readNode, readEdge, namespace);
    } else {
      NodesRefused(s, readNode, readEdge, namespace, EdgeJsons(s.edges, s.Ids()));
    }
  }

  lemma ExportContext(nodes: seq<Value>, edges: seq<Value>, namespace: string, complete: bool)
    ensures ContextOf(Document(nodes, edges, namespace, complete), None, None, None) ==
      if Blank(ImportedNamespace(namespace)) then None else Some(Context(ImportedNamespace(namespace), Null, Null))
  {
    var o := Document(nodes, edges, namespace, complete).fields;
    var g: Object := map[Agent := Str("systemlens"), Namespace := Str(namespace)];
    assert Get(o, Format) == Str(MANIFEST_FORMAT) && Get(o, GeneratedBy) == Obj(g);
    assert Get(g, Namespace) == Str(namespace) && Get(g, Pass) == Null && Get(g, SourceRevision) == Null;
  }

  lemma ExportParts(facts: seq<Fact>, namespace: string, complete: bool)
    ensures var s, document := Selected(facts, namespace), ManifestOf(facts, namespace, complete);
      && document.Obj?
      && Get(document.fields, Nodes) == Arr(NodeJsons(s.nodes) + RefJsons(s.References()))
      && Get(document.fields, Edges) == Arr(EdgeJsons(s.edges, s.Ids()))
      && GetOr(document.fields, Mode, Str("partial")) == Str(if complete then "complete" else "partial")
  {
  }

  /** Once its parts are known, a document is accepted exactly when its elements are. */
  lemma LoadedParts(document: Value, c: Context, nodes: seq<Value>, edges: seq<Value>, complete: bool)
    requires document.Obj? && ContextOf(document, None, None, None) == Some(c)
    requires Get(document.fields, Nodes) == Arr(nodes) && Get(document.fields, Edges) == Arr(edges)
    requires GetOr(document.fields, Mode, Str("partial")) == Str(if complete then "complete" else "partial")
    ensures Loaded(document, None, None, None) ==
      var items := ReadAll(NodeReader(c), EdgeReaders(c), nodes, edges);
      if items.None? then None else Some(Import(FactsOf(items.value), c.namespace, complete))
  {
    assert "complete"[0] != "partial"[0];
  }

  /** The import accepts an exported manifest exactly when the selected facts are
      exportable, and then restores every fact and adds one node per dangling end. */
  lemma RoundTrip(facts: seq<Fact>, namespace: string, complete: bool)
    ensures var s, name := Selected(facts, namespace), ImportedNamespace(namespace);
      Loaded(ManifestOf(facts, namespace, complete), None, None, None) ==
      if !Blank(name) && Exportable(s, name) then Some(Import(s.Imported(name), name, complete)) else None
  {
    var s, name := Selected(facts, namespace), ImportedNamespace(namespace);
    SelectMeans(facts, namespace, "node");
    SelectMeans(facts, namespace, "edge");
    ExportContext(NodeJsons(s.nodes) + RefJsons(s.References()), EdgeJsons(s.edges, s.Ids()), namespace, complete);
    ExportParts(facts, namespace, complete);
    if !Blank(name) {
      var c := Context(name, Null, Null);
      LoadedParts(ManifestOf(facts, namespace, complete), c, NodeJsons(s.nodes) + RefJsons(s.References()), EdgeJsons(s.edges, s.Ids()), complete);
      ImportReads(c, s.Ids());
      ReadSelection(s, NodeReader(c), EdgeReaders(c), name);
      FactsShow(s, name);
    }
  }

  // ----- the second round

  lemma {:induction false} SelectAppend(a: seq<Fact>, b: seq<Fact>, namespace: string, factType: string)
    ensures Select(a + b, namespace, factType) == Select(a, namespace, factType) + Select(b, namespace, factType)
  {
    if b == [] {
      assert a + b == a;
    } else {
      var front := b[..|b| - 1];
      SelectAppend(a, front, namespace, factType);
      assert (a + b)[..|a + b| - 1] == a + front;
    }
  }

  lemma {:induction false} SelectAll(a: seq<Fact>, namespace: string, factType: string)
    requires forall f :: f in a ==> f.namespace == namespace
    ensures (forall f :: f in a ==> f.factType == factType) ==> Select(a, namespace, factType) == a
    ensures (forall f :: f in a ==> f.factType != factType) ==> Select(a, namespace, factType) == []
  {
    if a != [] {
      var n := |a| - 1;
      SelectAll(a[..n], namespace, factType);
      assert a == a[..n] + [a[n]];
    }
  }

  function NodesAndRefs(s: Selection, namespace: string): seq<Fact> {
    ImportedNodes(s.nodes, namespace) + RefFacts(s.References(), namespace)
  }

  lemma AreNodes(s: Selection, namespace: string)
    requires Typed(s)
    ensures forall f :: f in NodesAndRefs(s, namespace) ==> f.namespace == namespace && f.factType == "node"
  {
    var nodes := NodesAndRefs(s, namespace);
    forall i | 0 <= i < |nodes| ensures nodes[i].namespace == namespace && nodes[i].factType == "node" {
      if i < |s.nodes| { assert s.nodes[i] in s.nodes; }
    }
  }

  lemma AreEdges(s: Selection, namespace: string)
    requires Typed(s)
    ensures forall f :: f in ImportedEdges(s.edges, namespace) ==> f.namespace == namespace && f.factType == "edge"
  {
    var edges := ImportedEdges(s.edges, namespace);
    forall i | 0 <= i < |edges| ensures edges[i].namespace == namespace && edges[i].factType == "edge" {
      assert s.edges[i] in s.edges;
    }
  }

  lemma SelectParts(nodes: seq<Fact>, edges: seq<Fact>, namespace: string)
    requires forall f :: f in nodes ==> f.namespace == namespace && f.factType == "node"
    requires forall f :: f in edges ==> f.namespace == namespace && f.factType == "edge"
    ensures Select(nodes + edges, namespace, "node") == nodes && Select(nodes + edges, namespace, "edge") == edges
  {
    assert "node"[0] != "edge"[0];
    SelectAppend(nodes, edges, namespace, "node");
    SelectAppend(nodes, edges, namespace, "edge");
    SelectAll(nodes, namespace, "node");
    SelectAll(nodes, namespace, "edge");
    SelectAll(edges, namespace, "node");
    SelectAll(edges, namespace, "edge");
  }

  /** The facts restored are selected again, the reference nodes among the nodes. */
  lemma SelectedAgain(s: Selection, namespace: string)
    requires Typed(s)
    ensures Selected(s.Imported(namespace), namespace) == Again(s, namespace)
  {
    AreNodes(s, namespace);
    AreEdges(s, namespace);
    SelectParts(NodesAndRefs(s, namespace), ImportedEdges(s.edges, namespace), namespace);
  }

  function Again(s: Selection, namespace: string): Selection {
    Selection(NodesAndRefs(s, namespace), ImportedEdges(s.edges, namespace))
  }

  lemma RestoredTwice(f: Fact, namespace: string)
    ensures Restored(Restored(f, namespace), namespace) == Restored(f, namespace)
  {
    StripTrims(f.kind);
    if f.moduleName.Some? { StripTrims(f.moduleName.value); }
  }

  lemma NodeTwice(f: Fact, namespace: string)
    ensures ImportedNode(ImportedNode(f, namespace), namespace) == ImportedNode(f, namespace)
    ensures NodeOk(f) ==> NodeOk(ImportedNode(f, namespace))
  {
    RestoredTwice(f, namespace);
    StripTrims(OrEmpty(f.name));
    StripTrims(f.kind);
    if f.moduleName.Some? { StripTrims(f.moduleName.value); }
  }

  lemma EdgeTwice(f: Fact, namespace: string)
    requires EdgeOk(f)
    ensures ImportedEdge(ImportedEdge(f, namespace), namespace) == ImportedEdge(f, namespace)
    ensures EdgeOk(ImportedEdge(f, namespace))
    ensures SourceEnd(ImportedEdge(f, namespace)) == SourceEnd(f) && TargetEnd(ImportedEdge(f, namespace)) == TargetEnd(f)
  {
    RestoredTwice(f, namespace);
    StripTrims(f.kind);
    if f.moduleName.Some? { StripTrims(f.moduleName.value); }
    assert Blank("");
  }

  lemma HasVisible(s: string, i: nat)
    requires i < |s| && !IsSpace(s[i])
    ensures !Blank(s)
    decreases |s|
  {
    if IsSpace(s[0]) {
      HasVisible(s[1..], i - 1);
      assert StripLeft(s) == StripLeft(s[1..]);
    } else {
      StartsVisibly(s);
    }
  }

  lemma RefTwice(e: End, namespace: string)
    requires RefOk(e)
    ensures ImportedNode(RefFact(e, namespace), namespace) == RefFact(e, namespace) && NodeOk(RefFact(e, namespace))
  {
    StripTrims(e.0);
    StripTrims(e.1);
    HasVisible(RefFact(e, namespace).id, |namespace|);
  }

  /** Importing the restored facts changes none of them. */
  lemma ImportedTwice(s: Selection, namespace: string)
    requires NodesOk(s) && EdgesOk(s)
    ensures ImportedNodes(NodesAndRefs(s, namespace), namespace) == NodesAndRefs(s, namespace)
    ensures ImportedEdges(ImportedEdges(s.edges, namespace), namespace) == ImportedEdges(s.edges, namespace)
    ensures forall f :: f in NodesAndRefs(s, namespace) ==> NodeOk(f)
    ensures forall f :: f in ImportedEdges(s.edges, namespace) ==> EdgeOk(f)
  {
    NodesTwice(s, namespace);
    var edges := ImportedEdges(s.edges, namespace);
    forall i | 0 <= i < |edges| ensures ImportedEdge(edges[i], namespace) == edges[i] && EdgeOk(edges[i]) {
      assert s.edges[i] in s.edges;
      EdgeTwice(s.edges[i], namespace);
    }
  }

  /** Importing leaves a restored node or reference node as it is. */
  lemma NodeOrRef(s: Selection, namespace: string, i: nat)
    requires NodesOk(s) && i < |NodesAndRefs(s, namespace)|
    ensures ImportedNode(NodesAndRefs(s, namespace)[i], namespace) == NodesAndRefs(s, namespace)[i]
    ensures NodeOk(NodesAndRefs(s, namespace)[i])
  {
    if i < |s.nodes| {
      assert s.nodes[i] in s.nodes;
      NodeTwice(s.nodes[i], namespace);
    } else {
      assert s.References()[i - |s.nodes|] in s.References();
      RefTwice(s.References()[i - |s.nodes|], namespace);
    }
  }

  lemma NodesTwice(s: Selection, namespace: string)
    requires NodesOk(s)
    ensures ImportedNodes(NodesAndRefs(s, namespace), namespace) == NodesAndRefs(s, namespace)
    ensures forall f :: f in NodesAndRefs(s, namespace) ==> NodeOk(f)
  {
    var nodes := NodesAndRefs(s, namespace);
    forall i | 0 <= i < |nodes| ensures ImportedNode(nodes[i], namespace) == nodes[i] && NodeOk(nodes[i]) {
      NodeOrRef(s, namespace, i);
    }
  }

  ghost predicate EndTrimmed(e: End) { Trimmed(e.0) && Trimmed(e.1) }

  ghost predicate EndsTrimmed(s: Selection) {
    forall f :: f in s.edges ==> EndTrimmed(SourceEnd(f)) && EndTrimmed(TargetEnd(f))
  }

  lemma {:induction false} NoRefs(nodeIds: map<End, string>, edges: seq<Fact>)
    ensures Refs(nodeIds, edges) == [] <==> forall f :: f in edges ==> SourceEnd(f) in nodeIds && TargetEnd(f) in nodeIds
  {
    if edges != [] {
      var n := |edges| - 1;
      NoRefs(nodeIds, edges[..n]);
      assert edges == edges[..n] + [edges[n]];
    }
  }

  lemma {:induction false} NodeIdsKeys(nodes: seq<Fact>, e: End)
    ensures e in NodeIds(nodes) <==> exists f :: f in nodes && NodeEnd(f) == e
  {
    if nodes != [] {
      var n := |nodes| - 1;
      NodeIdsKeys(nodes[..n], e);
      assert nodes == nodes[..n] + [nodes[n]];
    }
  }

  lemma NodeEndAt(s: Selection, namespace: string, i: nat) returns (was: End)
    requires i < |NodesAndRefs(s, namespace)|
    ensures NodeEnd(NodesAndRefs(s, namespace)[i]) == (Strip(was.0), Strip(was.1))
    ensures was == if i < |s.nodes| then NodeEnd(s.nodes[i]) else s.References()[i - |s.nodes|]
  {
    was := if i < |s.nodes| then NodeEnd(s.nodes[i]) else s.References()[i - |s.nodes|];
  }

  lemma FoundIsTrimmed(s: Selection, namespace: string, e: End)
    requires e in NodeIds(NodesAndRefs(s, namespace))
    ensures EndTrimmed(e)
  {
    var k := NodeIdsAt(NodesAndRefs(s, namespace), e);
    var was := NodeEndAt(s, namespace, k);
    StripTrims(was.0);
    StripTrims(was.1);
  }

  lemma FoundAt(s: Selection, namespace: string, k: nat, e: End)
    requires k < |NodesAndRefs(s, namespace)| && EndTrimmed(e)
    requires e == if k < |s.nodes| then NodeEnd(s.nodes[k]) else s.References()[k - |s.nodes|]
    ensures e in NodeIds(NodesAndRefs(s, namespace))
  {
    StripTrims(e.0);
    StripTrims(e.1);
    var was := NodeEndAt(s, namespace, k);
    assert NodesAndRefs(s, namespace)[k] in NodesAndRefs(s, namespace);
    NodeIdsKeys(NodesAndRefs(s, namespace), e);
  }

  lemma TrimmedIsFound(s: Selection, namespace: string, e: End)
    requires EndTrimmed(e) && (e in s.Ids() || e in s.References())
    ensures e in NodeIds(NodesAndRefs(s, namespace))
  {
    if e in s.Ids() {
      var k := NodeIdsAt(s.nodes, e);
      FoundAt(s, namespace, k, e);
    } else {
      var j :| 0 <= j < |s.References()| && s.References()[j] == e;
      FoundAt(s, namespace, |s.nodes| + j, e);
    }
  }

  /** The second export finds an edge's end exactly when its kind and name are trimmed. */
  lemma EndFoundAgain(s: Selection, namespace: string, e: End)
    requires e in s.Ids() || e in s.References()
    ensures e in NodeIds(NodesAndRefs(s, namespace)) <==> EndTrimmed(e)
  {
    if EndTrimmed(e) { TrimmedIsFound(s, namespace, e); } else if e in NodeIds(NodesAndRefs(s, namespace)) { FoundIsTrimmed(s, namespace, e); }
  }

  lemma EdgeFoundAgain(s: Selection, namespace: string, i: nat)
    requires NodesOk(s) && EdgesOk(s) && i < |s.edges|
    ensures var nodeIds, e := NodeIds(NodesAndRefs(s, namespace)), ImportedEdge(s.edges[i], namespace);
      SourceEnd(e) in nodeIds && TargetEnd(e) in nodeIds <==> EndTrimmed(SourceEnd(s.edges[i])) && EndTrimmed(TargetEnd(s.edges[i]))
  {
    assert s.edges[i] in s.edges;
    EdgeTwice(s.edges[i], namespace);
    EndsKnown(s.Ids(), s.edges, i);
    EndFoundAgain(s, namespace, SourceEnd(s.edges[i]));
    EndFoundAgain(s, namespace, TargetEnd(s.edges[i]));
  }

  lemma NoNewReferences(s: Selection, namespace: string)
    requires NodesOk(s) && EdgesOk(s)
    ensures Refs(NodeIds(NodesAndRefs(s, namespace)), ImportedEdges(s.edges, namespace)) == [] <==> EndsTrimmed(s)
  {
    NoRefs(NodeIds(NodesAndRefs(s, namespace)), ImportedEdges(s.edges, namespace));
    if EndsTrimmed(s) { TrimmedEndsFound(s, namespace); } else { UntrimmedEndMissed(s, namespace); }
  }

  lemma TrimmedEndsFound(s: Selection, namespace: string)
    requires NodesOk(s) && EdgesOk(s) && EndsTrimmed(s)
    ensures var nodeIds := NodeIds(NodesAndRefs(s, namespace));
      forall f :: f in ImportedEdges(s.edges, namespace) ==> SourceEnd(f) in nodeIds && TargetEnd(f) in nodeIds
  {
    var nodeIds, edges := NodeIds(NodesAndRefs(s, namespace)), ImportedEdges(s.edges, namespace);
    forall f | f in edges ensures SourceEnd(f) in nodeIds && TargetEnd(f) in nodeIds {
      var i :| 0 <= i < |edges| && edges[i] == f;
      assert s.edges[i] in s.edges;
      EdgeFoundAgain(s, namespace, i);
    }
  }

  lemma UntrimmedEndMissed(s: Selection, namespace: string)
    requires NodesOk(s) && EdgesOk(s) && !EndsTrimmed(s)
    ensures var nodeIds := NodeIds(NodesAndRefs(s, namespace));
      exists f :: f in ImportedEdges(s.edges, namespace) && !(SourceEnd(f) in nodeIds && TargetEnd(f) in nodeIds)
  {
    var f :| f in s.edges && !(EndTrimmed(SourceEnd(f)) && EndTrimmed(TargetEnd(f)));
    var i :| 0 <= i < |s.edges| && s.edges[i] == f;
    EdgeFoundAgain(s, namespace, i);
    assert ImportedEdges(s.edges, namespace)[i] in ImportedEdges(s.edges, namespace);
  }

  lemma NothingAdded(s: Selection, namespace: string)
    requires s.References() == []
    ensures s.Imported(namespace) == ImportedNodes(s.nodes, namespace) + ImportedEdges(s.edges, namespace)
    ensures ShownIds(s) == IdsOf(s.nodes + s.edges)
  {
  }

  lemma SecondIsSame(s: Selection, namespace: string)
    requires Exportable(s, namespace) && EndsTrimmed(s)
    ensures Again(s, namespace).Imported(namespace) == s.Imported(namespace)
    ensures Exportable(Again(s, namespace), namespace) <==> Distinct(StripAll(IdsOf(s.Imported(namespace))))
  {
    ImportedTwice(s, namespace);
    NoNewReferences(s, namespace);
    NothingAdded(Again(s, namespace), namespace);
  }

  lemma SecondGrows(s: Selection, namespace: string)
    requires Exportable(s, namespace) && !EndsTrimmed(s)
    ensures |Again(s, namespace).Imported(namespace)| > |s.Imported(namespace)|
  {
    NoNewReferences(s, namespace);
  }

  /** After one round, exporting and importing again changes nothing exactly when the
      ends of the edges are trimmed and the ids still differ once they are stripped. */
  lemma FixedPoint(s: Selection, namespace: string, complete: bool)
    requires Typed(s) && !Blank(namespace) && Exportable(s, namespace)
    ensures var facts := s.Imported(namespace);
      Loaded(ManifestOf(facts, namespace, complete), None, None, None) == Some(Import(facts, namespace, complete)) <==>
      EndsTrimmed(s) && Distinct(StripAll(IdsOf(facts)))
  {
    var facts := s.Imported(namespace);
    assert namespace != "" by { assert Blank(""); }
    RoundTrip(facts, namespace, complete);
    SelectedAgain(s, namespace);
    if EndsTrimmed(s) { SecondIsSame(s, namespace); } else { SecondGrows(s, namespace); }
  }

  // ----- which facts come back unchanged

  predicate PlainFact(f: Fact, namespace: string) {
    && Trimmed(f.kind) && f.origin == "ai" && f.namespace == namespace && f.metadata.Some?
    && f.evidencePath != Some("") && (f.evidenceLine.Some? ==> f.evidencePath.Some? && f.evidenceLine.value >= 1)
    && (f.moduleName.Some? ==> Trimmed(f.moduleName.value))
  }

  /** An exported node returns as it was exactly when it says nothing the manifest drops. */
  lemma NodeUnchanged(f: Fact, namespace: string)
    ensures ImportedNode(f, namespace) == f <==>
      && PlainFact(f, namespace) && f.name.Some? && Trimmed(f.name.value) && f.relation.None?
      && f.sourceKind.None? && f.sourceName.None? && f.targetKind.None? && f.targetName.None?
  {
    StripTrims(f.kind);
    StripTrims(OrEmpty(f.name));
    if f.moduleName.Some? { StripTrims(f.moduleName.value); }
  }

  lemma EdgeUnchanged(f: Fact, namespace: string)
    ensures ImportedEdge(f, namespace) == f <==>
      && PlainFact(f, namespace) && f.name.None?
      && f.relation.Some? && (f.relation.value != "" || f.kind == "")
      && f.sourceKind.Some? && f.sourceName.Some? && f.targetKind.Some? && f.targetName.Some?
  {
    StripTrims(f.kind);
    if f.moduleName.Some? { StripTrims(f.moduleName.value); }
  }

  /** With a trimmed namespace and trimmed ids the second condition of FixedPoint holds. */
  lemma TrimmedIdsDiffer(s: Selection, namespace: string)
    requires Exportable(s, namespace) && namespace != "" && Trimmed(namespace)
    requires forall f :: f in s.nodes + s.edges ==> Trimmed(f.id)
    ensures Distinct(StripAll(IdsOf(s.Imported(namespace))))
  {
    var ids := IdsOf(s.Imported(namespace));
    forall i | 0 <= i < |ids| ensures Strip(ids[i]) == ids[i] { IdTrimmed(s, namespace, i); }
    assert StripAll(ids) == ids;
  }

  lemma IdTrimmed(s: Selection, namespace: string, i: nat)
    requires namespace != "" && Trimmed(namespace) && i < |s.Imported(namespace)|
    requires forall f :: f in s.nodes + s.edges ==> Trimmed(f.id)
    ensures Strip(s.Imported(namespace)[i].id) == s.Imported(namespace)[i].id
  {
    var n, m := |s.nodes|, |s.References()|;
    StripTrims(s.Imported(namespace)[i].id);
    if i < n {
      assert s.nodes[i] in s.nodes + s.edges;
    } else if i < n + m {
      var ref := Strip(RefId(s.References()[i - n]));
      StartsVisibly(RefId(s.References()[i - n]));
      StripTrims(RefId(s.References()[i - n]));
      var id := FactId(namespace, "node", ref);
      assert id[0] == namespace[0] && id[|id| - 1] == ref[|ref| - 1];
    } else {
      assert s.edges[i - n - m] in s.nodes + s.edges;
    }
  }
}
