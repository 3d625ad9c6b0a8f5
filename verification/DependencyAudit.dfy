/** From the evidence to the event cycles: the topology is built, listed in order and searched
    (application/dependency_analysis.py). */
module DependencyAudit {
  import opened Digraph
  import opened DependencyGraph
  import EventCycles
  import Order
  import Text

  // ----- the sorted lists

  function NodeKey(n: DependencyNode): seq<string> { [n.kind, n.service, n.name] }

  function EdgeKey(key: Key): seq<string> { [key.0, key.1, key.2, key.3] }

  predicate NodeLe(a: DependencyNode, b: DependencyNode) { Text.LexLe(NodeKey(a), NodeKey(b)) }

  predicate EdgeLe(a: Key, b: Key) { Text.LexLe(EdgeKey(a), EdgeKey(b)) }

  lemma NodesRank()
    ensures Order.Ranks(NodeLe)
  {
    forall a, b ensures NodeLe(a, b) || NodeLe(b, a) { Text.LexTotal(NodeKey(a), NodeKey(b)); }
    forall a, b, c | NodeLe(a, b) && NodeLe(b, c) ensures NodeLe(a, c) { Text.LexTransitive(NodeKey(a), NodeKey(b), NodeKey(c)); }
  }

  lemma EdgesRank()
    ensures Order.Ranks(EdgeLe)
  {
    forall a, b ensures EdgeLe(a, b) || EdgeLe(b, a) { Text.LexTotal(EdgeKey(a), EdgeKey(b)); }
    forall a, b, c | EdgeLe(a, b) && EdgeLe(b, c) ensures EdgeLe(a, c) { Text.LexTransitive(EdgeKey(a), EdgeKey(b), EdgeKey(c)); }
  }

  /** The elements of a set in some order, each once. */
  method Listed<T(!new,==)>(s: set<T>) returns (list: seq<T>)
    ensures multiset(list) == multiset(s)
  {
    var todo := s;
    list := [];
    while todo != {}
      invariant multiset(list) + multiset(todo) == multiset(s)
      decreases todo
    {
      var x :| x in todo;
      list, todo := list + [x], todo - {x};
    }
  }

  method OrderedNodes(nodes: map<string, DependencyNode>) returns (list: seq<DependencyNode>)
    ensures multiset(list) == multiset(nodes.Values) && Order.Ascending(list, NodeLe)
  {
    list := Listed(nodes.Values);
    NodesRank();
    list := Order.SortedList(list, NodeLe);
  }

  method OrderedEdges(edges: map<Key, string>) returns (list: seq<Key>)
    ensures multiset(list) == multiset(edges.Keys) && Order.Ascending(list, EdgeLe)
  {
    list := Listed(edges.Keys);
    EdgesRank();
    list := Order.SortedList(list, EdgeLe);
  }

  // ----- what the search for cycles receives

  function AsNode(n: DependencyNode): EventCycles.Node { EventCycles.Node(n.id, n.kind, n.name) }

  function AsNodes(list: seq<DependencyNode>): (r: seq<EventCycles.Node>)
    ensures |r| == |list| && forall i :: 0 <= i < |list| ==> r[i] == AsNode(list[i])
  {
    seq(|list|, i requires 0 <= i < |list| => AsNode(list[i]))
  }

  function AsEdges(list: seq<Key>): (r: seq<EventCycles.Edge>)
    ensures |r| == |list| && forall i :: 0 <= i < |list| ==> r[i] == EventCycles.Edge(list[i].0, list[i].1, list[i].2)
  {
    seq(|list|, i requires 0 <= i < |list| => EventCycles.Edge(list[i].0, list[i].1, list[i].2))
  }

  /** Whom a node publishes to, consumes for or calls. */
  ghost function Targets(keys: set<Key>, id: string): set<string> {
    set key | key in keys && key.2 in EventCycles.RELEVANT_KINDS && key.0 == id :: key.1
  }

  /** The relation that the evidence gives. */
  ghost function EventGraph(nodes: map<string, DependencyNode>, keys: set<Key>): Graph<string> {
    map id | id in nodes :: Targets(keys, id)
  }

  ghost predicate OwnIds(nodes: map<string, DependencyNode>) { forall id :: id in nodes ==> nodes[id].id == id }

  function ById(nodes: map<string, DependencyNode>): EventCycles.NodeTable
    requires OwnIds(nodes)
  {
    map id | id in nodes :: AsNode(nodes[id])
  }

  lemma SameMembers<T(!new)>(list: seq<T>, s: set<T>, x: T)
    requires multiset(list) == multiset(s)
    ensures x in list <==> x in s
  {
    assert x in list <==> multiset(list)[x] > 0;
  }

  lemma ListOnce<T(!new)>(list: seq<T>, s: set<T>, i: nat, j: nat)
    requires multiset(list) == multiset(s) && i < j < |list|
    ensures list[i] != list[j]
  {
    var front, back := list[..j], list[j..];
    assert list == front + back && front[i] == list[i] && back[0] == list[j];
    assert multiset(list)[list[i]] == multiset(front)[list[i]] + multiset(back)[list[i]];
  }

  lemma SameNodes(nodes: map<string, DependencyNode>, list: seq<DependencyNode>)
    requires OwnIds(nodes) && multiset(list) == multiset(nodes.Values)
    ensures EventCycles.Ids(AsNodes(list)) == nodes.Keys
    ensures EventCycles.ById(AsNodes(list)) == ById(nodes)
  {
    forall id ensures id in EventCycles.Ids(AsNodes(list)) <==> id in nodes { var _ := IdListed(nodes, list, id); }
    forall id | id in nodes ensures EventCycles.ById(AsNodes(list))[id] == ById(nodes)[id] {
      var i := IdListed(nodes, list, id);
      forall j | i < j < |list| ensures AsNodes(list)[j].id != id {
        ListOnce(list, nodes.Values, i, j);
        SameMembers(list, nodes.Values, list[j]);
      }
      EventCycles.LastOfId(AsNodes(list), i);
    }
  }

  lemma IdListed(nodes: map<string, DependencyNode>, list: seq<DependencyNode>, id: string) returns (i: nat)
    requires OwnIds(nodes) && multiset(list) == multiset(nodes.Values)
    ensures id in EventCycles.Ids(AsNodes(list)) <==> id in nodes
    ensures id in nodes ==> i < |list| && list[i] == nodes[id]
  {
    i := 0;
    if id in nodes {
      SameMembers(list, nodes.Values, nodes[id]);
      i :| i < |list| && list[i] == nodes[id];
      assert AsNodes(list)[i] in AsNodes(list);
    }
    if id in EventCycles.Ids(AsNodes(list)) {
      var n :| n in AsNodes(list) && n.id == id;
      var j :| 0 <= j < |list| && AsNodes(list)[j] == n;
      SameMembers(list, nodes.Values, list[j]);
    }
  }

  lemma SameEdges(keys: set<Key>, list: seq<Key>, id: string)
    requires multiset(list) == multiset(keys)
    ensures EventCycles.Targets(AsEdges(list), id) == Targets(keys, id)
  {
    forall target ensures target in EventCycles.Targets(AsEdges(list), id) <==> target in Targets(keys, id) {
      if target in Targets(keys, id) {
        var key :| key in keys && key.2 in EventCycles.RELEVANT_KINDS && key.0 == id && key.1 == target;
        SameMembers(list, keys, key);
        var i :| 0 <= i < |list| && list[i] == key;
        assert AsEdges(list)[i] in AsEdges(list);
      }
      if target in EventCycles.Targets(AsEdges(list), id) {
        var e :| e in AsEdges(list) && e.kind in EventCycles.RELEVANT_KINDS && e.source == id && e.target == target;
        var i :| 0 <= i < |list| && AsEdges(list)[i] == e;
        SameMembers(list, keys, list[i]);
      }
    }
  }

  lemma EndsListed(nodes: map<string, DependencyNode>, keys: set<Key>, nodeList: seq<DependencyNode>, edgeList: seq<Key>)
    requires OwnIds(nodes) && multiset(nodeList) == multiset(nodes.Values) && multiset(edgeList) == multiset(keys)
    requires forall key :: key in keys ==> key.0 in nodes && key.1 in nodes
    ensures EventCycles.EndsAreNodes(AsNodes(nodeList), AsEdges(edgeList))
  {
    SameNodes(nodes, nodeList);
    forall e | e in AsEdges(edgeList) ensures e.source in nodes && e.target in nodes {
      var i :| 0 <= i < |edgeList| && AsEdges(edgeList)[i] == e;
      SameMembers(edgeList, keys, edgeList[i]);
    }
  }

  lemma SameGraph(nodes: map<string, DependencyNode>, keys: set<Key>, nodeList: seq<DependencyNode>, edgeList: seq<Key>)
    requires OwnIds(nodes) && multiset(nodeList) == multiset(nodes.Values) && multiset(edgeList) == multiset(keys)
    ensures EventCycles.AdjacencyOf(AsNodes(nodeList), AsEdges(edgeList)) == EventGraph(nodes, keys)
  {
    SameNodes(nodes, nodeList);
    forall id ensures EventCycles.Targets(AsEdges(edgeList), id) == Targets(keys, id) { SameEdges(keys, edgeList, id); }
  }

  // ----- audit_dependency_graph

  /** The topology in its sorted lists, and its event cycles: exactly the strongly connected
      components of the relation that the evidence gives which link several services through
      a topic, each once. */
  method EventCyclesOf(input: Input)
    returns (nodeList: seq<DependencyNode>, edgeList: seq<Key>, cycles: seq<EventCycles.Cycle>,
             ghost nodes: map<string, DependencyNode>, ghost keys: set<Key>, ghost declared: set<DependencyNode>)
    ensures EdgesAre(input, keys) && DeclaredAre(input, declared) && Holds(nodes, declared) && OwnIds(nodes)
    ensures multiset(nodeList) == multiset(nodes.Values) && Order.Ascending(nodeList, NodeLe)
    ensures multiset(edgeList) == multiset(keys) && Order.Ascending(edgeList, EdgeLe)
    ensures EventCycles.CyclesAre(EventGraph(nodes, keys), ById(nodes), cycles)
  {
    var table, edges;
    table, edges, declared := BuildDependencyGraph(input);
    nodes, keys := table, edges.Keys;
    nodeList := OrderedNodes(table);
    edgeList := OrderedEdges(edges);
    SameNodes(nodes, nodeList);
    SameGraph(nodes, keys, nodeList, edgeList);
    EndsListed(nodes, keys, nodeList, edgeList);
    cycles := EventCycles.FindEventCycles(AsNodes(nodeList), AsEdges(edgeList));
  }
}
