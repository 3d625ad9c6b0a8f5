/** The import of a manifest as it runs: one pass over the nodes, one over the edges, with
    the ids in use kept in sets (application/ai_graph.py). */
module ManifestLoader {
  import opened Wrappers
  import opened Basics
  import opened Json
  import opened GraphFacts
  import opened Manifest

  /** What the loops accumulate. */
  datatype Loading = Loading(facts: seq<Fact>, usedIds: set<string>, rawIds: set<string>)

  function StateOf(items: seq<Item>): Loading {
    Loading(FactsOf(items), Elements(StoredIds(items)), Elements(RawIds(items)))
  }

  predicate Fresh(st: Loading, item: Item) {
    item.rawId !in st.rawIds && item.fact.id !in st.usedIds
  }

  function Added(st: Loading, item: Item): Loading {
    Loading(st.facts + [item.fact], st.usedIds + {item.fact.id}, st.rawIds + {item.rawId})
  }

  lemma DistinctAppend(s: seq<string>, x: string)
    ensures Distinct(s + [x]) <==> Distinct(s) && x !in s
    ensures Elements(s + [x]) == Elements(s) + {x}
  {
    var r := s + [x];
    if Distinct(r) {
      forall i, j | 0 <= i < j < |s| ensures s[i] != s[j] { assert r[i] == s[i] && r[j] == s[j]; }
      forall i | 0 <= i < |s| ensures s[i] != x { assert r[i] == s[i] && r[|s|] == x; }
    }
    assert forall y :: y in r <==> y in s || y == x;
  }

  /** One more element: accepted exactly when its ids are not in use. */
  lemma AddItem(items: seq<Item>, item: Item)
    ensures NoIdTwice(items + [item]) <==> NoIdTwice(items) && Fresh(StateOf(items), item)
    ensures StateOf(items + [item]) == Added(StateOf(items), item)
  {
    DistinctAppend(RawIds(items), item.rawId);
    DistinctAppend(StoredIds(items), item.fact.id);
    assert RawIds(items + [item]) == RawIds(items) + [item.rawId];
    assert StoredIds(items + [item]) == StoredIds(items) + [item.fact.id];
    assert FactsOf(items + [item]) == FactsOf(items) + [item.fact];
  }

  lemma {:induction false} ReadPrefix(read: Value -> Option<Item>, raws: seq<Value>, i: nat)
    requires i <= |raws| && ReadEach(read, raws).Some?
    ensures ReadEach(read, raws[..i]) == Some(ReadEach(read, raws).value[..i])
  {
    if i == |raws| {
      var all := ReadEach(read, raws).value;
      assert raws[..i] == raws && all[..i] == all;
    } else {
      var front := raws[..|raws| - 1];
      ReadPrefix(read, front, i);
      assert front[..i] == raws[..i];
      var before, item := ReadEach(read, front).value, read(raws[|raws| - 1]).value;
      assert (before + [item])[..i] == before[..i];
    }
  }

  lemma NoIdTwicePrefix(items: seq<Item>, i: nat)
    requires i <= |items| && NoIdTwice(items)
    ensures NoIdTwice(items[..i])
  {
    assert RawIds(items[..i]) == RawIds(items)[..i] && StoredIds(items[..i]) == StoredIds(items)[..i];
  }

  /** What a loop has established after the elements `raws`, on top of `before`. */
  ghost predicate Accepted(read: Value -> Option<Item>, raws: seq<Value>, before: seq<Item>, items: seq<Item>, st: Loading) {
    ReadEach(read, raws) == Some(items) && NoIdTwice(before + items) && st == StateOf(before + items)
  }

  ghost predicate Refused(read: Value -> Option<Item>, raws: seq<Value>, before: seq<Item>) {
    ReadEach(read, raws).None? || !NoIdTwice(before + ReadEach(read, raws).value)
  }

  /** One iteration: an element that cannot be read or reuses an id refuses the document. */
  lemma Step(read: Value -> Option<Item>, raws: seq<Value>, i: nat, before: seq<Item>, items: seq<Item>, st: Loading)
    requires i < |raws| && Accepted(read, raws[..i], before, items, st)
    ensures match read(raws[i])
      case None => Refused(read, raws, before)
      case Some(item) =>
        if Fresh(st, item) then Accepted(read, raws[..i + 1], before, items + [item], Added(st, item))
        else Refused(read, raws, before)
  {
    assert raws[..i + 1][..i] == raws[..i];
    if read(raws[i]).Some? {
      var item := read(raws[i]).value;
      AddItem(before + items, item);
      assert before + (items + [item]) == (before + items) + [item];
    }
    if !Refused(read, raws, before) { StillAccepted(read, raws, i + 1, before); }
  }

  lemma StillAccepted(read: Value -> Option<Item>, raws: seq<Value>, i: nat, before: seq<Item>)
    requires i <= |raws| && !Refused(read, raws, before)
    ensures !Refused(read, raws[..i], before)
  {
    var all := ReadEach(read, raws).value;
    ReadPrefix(read, raws, i);
    NoIdTwicePrefix(before + all, |before| + i);
    assert (before + all)[..|before| + i] == before + all[..i];
  }

  lemma TableNext(items: seq<Item>, item: Item)
    ensures TableOf(items + [item]) == TableOf(items)[item.rawId := item.fields]
  {
    assert (items + [item])[..|items|] == items;
  }

  method LoadNodes(c: Context, raws: seq<Value>) returns (ok: bool, nodes: NodeTable, st: Loading, ghost items: seq<Item>)
    ensures if ok then Accepted(NodeReader(c), raws, [], items, st) && nodes == TableOf(items)
            else Refused(NodeReader(c), raws, [])
  {
    var read := NodeReader(c);
    ok, nodes, st, items := true, map[], Loading([], {}, {}), [];
    for i := 0 to |raws|
      invariant ok && Accepted(read, raws[..i], [], items, st) && nodes == TableOf(items)
    {
      Step(read, raws, i, [], items, st);
      var item := read(raws[i]);
      if item.None? || !Fresh(st, item.value) {
        ok := false;
        return;
      }
      TableNext(items, item.value);
      nodes := nodes[item.value.rawId := item.value.fields];
      st := Added(st, item.value);
      items := items + [item.value];
    }
    assert raws[..|raws|] == raws;
  }

  method LoadEdges(c: Context, raws: seq<Value>, nodes: NodeTable, st0: Loading, ghost before: seq<Item>)
    returns (ok: bool, st: Loading, ghost items: seq<Item>)
    requires NoIdTwice(before) && st0 == StateOf(before)
    ensures if ok then Accepted(EdgeReader(c, nodes), raws, before, items, st) else Refused(EdgeReader(c, nodes), raws, before)
  {
    var read := EdgeReader(c, nodes);
    ok, st, items := true, st0, [];
    assert before + [] == before;
    for i := 0 to |raws|
      invariant ok && Accepted(read, raws[..i], before, items, st)
    {
      Step(read, raws, i, before, items, st);
      var item := read(raws[i]);
      if item.None? || !Fresh(st, item.value) {
        ok := false;
        return;
      }
      st := Added(st, item.value);
      items := items + [item.value];
    }
    assert raws[..|raws|] == raws;
  }

  /** `load_fact_manifest` on a parsed document: `None` stands for a validation error. */
  method LoadFactManifest(document: Value, namespace: Option<string>, passId: Option<string>, revision: Option<string>)
    returns (r: Option<Import>)
    ensures r == Loaded(document, namespace, passId, revision)
  {
    var context := ContextOf(document, namespace, passId, revision);
    if context.None? { return None; }
    var c := context.value;
    var rawNodes, rawEdges := Get(document.fields, Nodes), Get(document.fields, Edges);
    if !rawNodes.Arr? || !rawEdges.Arr? { return None; }
    var nodesOk, nodes, st, nodeItems := LoadNodes(c, rawNodes.items);
    assert forall items: seq<Item> :: [] + items == items;
    if !nodesOk { return None; }
    var edgesOk, st', edgeItems := LoadEdges(c, rawEdges.items, nodes, st, nodeItems);
    if !edgesOk { return None; }
    var mode := GetOr(document.fields, Mode, Str("partial"));
    if mode != Str("partial") && mode != Str("complete") { return None; }
    return Some(Import(st'.facts, c.namespace, mode == Str("complete")));
  }
}
