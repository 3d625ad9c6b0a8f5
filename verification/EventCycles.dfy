/** The dependency graph's event cycles: the strongly connected components that link
    several services through a topic (application/dependency_analysis.py). */
module EventCycles {
  import opened Digraph
  import opened Tarjan
  import Text
  import opened Basics

  datatype Node = Node(id: string, kind: string, name: string)
  datatype Edge = Edge(source: string, target: string, kind: string)
  /** Nodes by id. */
  type NodeTable = m: map<string, Node> | forall id :: id in m ==> m[id].id == id witness map[]
  datatype Cycle = Cycle(nodes: seq<Node>, services: seq<string>)

  const RELEVANT_KINDS: set<string> := {"publishes", "consumes", "http"}

  function Ids(nodes: seq<Node>): set<string> { set n | n in nodes :: n.id }

  /** Both ends of every edge are nodes, as build_dependency_graph guarantees. */
  predicate EndsAreNodes(nodes: seq<Node>, edges: seq<Edge>) {
    forall e | e in edges :: e.source in Ids(nodes) && e.target in Ids(nodes)
  }

  ghost function Targets(edges: seq<Edge>, source: string): set<string> {
    set e | e in edges && e.kind in RELEVANT_KINDS && e.source == source :: e.target
  }

  /** The relation the search runs on. */
  ghost function AdjacencyOf(nodes: seq<Node>, edges: seq<Edge>): Graph<string> {
    map id | id in Ids(nodes) :: Targets(edges, id)
  }

  method BuildAdjacency(nodes: seq<Node>, edges: seq<Edge>) returns (adjacency: map<string, set<string>>)
    requires EndsAreNodes(nodes, edges)
    ensures adjacency == AdjacencyOf(nodes, edges) && Closed(adjacency)
  {
    adjacency := map id | id in Ids(nodes) :: {};
    for i := 0 to |edges|
      invariant adjacency.Keys == Ids(nodes)
      invariant forall id :: id in adjacency ==> adjacency[id] == Targets(edges[..i], id)
    {
      var edge := edges[i];
      assert edges[..i + 1] == edges[..i] + [edge];
      assert edge in edges;
      if edge.kind in RELEVANT_KINDS {
        adjacency := adjacency[edge.source := adjacency[edge.source] + {edge.target}];
      }
    }
    assert edges[..|edges|] == edges;
  }

  lemma IdsNext(nodes: seq<Node>)
    requires nodes != []
    ensures Ids(nodes) == Ids(nodes[..|nodes| - 1]) + {nodes[|nodes| - 1].id}
  {
    var front, last := nodes[..|nodes| - 1], nodes[|nodes| - 1];
    assert nodes == front + [last];
  }

  /** The dictionary of nodes by id: the last node of an id is kept. */
  function ById(nodes: seq<Node>): (m: NodeTable)
    ensures m.Keys == Ids(nodes)
  {
    if nodes == [] then map[] else
      IdsNext(nodes);
      ById(nodes[..|nodes| - 1])[nodes[|nodes| - 1].id := nodes[|nodes| - 1]]
  }

  lemma {:induction false} LastOfId(nodes: seq<Node>, i: nat)
    requires i < |nodes| && forall j :: i < j < |nodes| ==> nodes[j].id != nodes[i].id
    ensures nodes[i].id in ById(nodes) && ById(nodes)[nodes[i].id] == nodes[i]
  {
    if i < |nodes| - 1 { LastOfId(nodes[..|nodes| - 1], i); }
  }

  function ServiceNames(byId: NodeTable, c: set<string>): set<string> {
    set id | id in c && id in byId && byId[id].kind == "microservice" :: byId[id].name
  }

  function MembersOf(byId: NodeTable, ids: seq<string>): (r: seq<Node>)
    requires forall id :: id in ids ==> id in byId
    ensures |r| == |ids| && forall i :: 0 <= i < |ids| ==> r[i] == byId[ids[i]]
  {
    if ids == [] then [] else [byId[ids[0]]] + MembersOf(byId, ids[1..])
  }

  function CycleOf(byId: NodeTable, c: set<string>): Cycle
    requires c <= byId.Keys
  {
    Cycle(MembersOf(byId, Text.Sorted(c)), Text.Sorted(ServiceNames(byId, c)))
  }

  /** Two services with different names and a topic. */
  ghost predicate Eventful(byId: NodeTable, c: set<string>) {
    && (exists a, b :: a in ServiceNames(byId, c) && b in ServiceNames(byId, c) && a != b)
    && exists t :: t in c && t in byId && byId[t].kind == "topic"
  }

  /** The test on the number of members never decides: two services and a topic are
      already three nodes. */
  lemma EventfulHasThree(byId: NodeTable, c: set<string>)
    requires Eventful(byId, c)
    ensures |c| >= 3
  {
    var a, b :| a in ServiceNames(byId, c) && b in ServiceNames(byId, c) && a != b;
    var x :| x in c && x in byId && byId[x].kind == "microservice" && byId[x].name == a;
    var y :| y in c && y in byId && byId[y].kind == "microservice" && byId[y].name == b;
    var t :| t in c && t in byId && byId[t].kind == "topic";
    assert |{x, y, t}| == 3;
    SubsetSize({x, y, t}, c);
  }

  /** The components kept, in the order they were emitted. */
  ghost function Selected(byId: NodeTable, cs: seq<set<string>>): seq<Cycle>
    requires forall k :: 0 <= k < |cs| ==> cs[k] <= byId.Keys
  {
    if cs == [] then [] else
      var last := cs[|cs| - 1];
      Selected(byId, cs[..|cs| - 1]) + (if Eventful(byId, last) then [CycleOf(byId, last)] else [])
  }

  ghost predicate FromOneOf(byId: NodeTable, cs: seq<set<string>>, cycle: Cycle) {
    exists c :: c in cs && IsFrom(byId, c, cycle)
  }

  ghost predicate IsFrom(byId: NodeTable, c: set<string>, cycle: Cycle) {
    c <= byId.Keys && Eventful(byId, c) && cycle == CycleOf(byId, c)
  }

  ghost predicate EachOnce(cycles: seq<Cycle>) {
    forall i, j :: 0 <= i < j < |cycles| ==> cycles[i].nodes != cycles[j].nodes
  }

  lemma EachOnceAppend(cycles: seq<Cycle>, cycle: Cycle)
    requires EachOnce(cycles) && forall i :: 0 <= i < |cycles| ==> cycles[i].nodes != cycle.nodes
    ensures EachOnce(cycles + [cycle])
  {
  }

  lemma FromOneOfMore(byId: NodeTable, cs: seq<set<string>>, n: nat, cycle: Cycle)
    requires n <= |cs| && FromOneOf(byId, cs[..n], cycle)
    ensures FromOneOf(byId, cs, cycle)
  {
    var c :| c in cs[..n] && IsFrom(byId, c, cycle);
    assert c in cs;
  }

  lemma {:induction false} SelectedFrom(byId: NodeTable, cs: seq<set<string>>)
    requires forall k :: 0 <= k < |cs| ==> cs[k] <= byId.Keys
    ensures forall i :: 0 <= i < |Selected(byId, cs)| ==> FromOneOf(byId, cs, Selected(byId, cs)[i])
  {
    if cs != [] {
      var n := |cs| - 1;
      var kept := Selected(byId, cs[..n]);
      SelectedFrom(byId, cs[..n]);
      forall i | 0 <= i < |kept| ensures FromOneOf(byId, cs, kept[i]) { FromOneOfMore(byId, cs, n, kept[i]); }
      if Eventful(byId, cs[n]) { assert cs[n] in cs && IsFrom(byId, cs[n], CycleOf(byId, cs[n])); }
    }
  }

  lemma {:induction false} SelectedKeeps(byId: NodeTable, cs: seq<set<string>>, k: nat)
    requires forall k :: 0 <= k < |cs| ==> cs[k] <= byId.Keys
    requires k < |cs| && Eventful(byId, cs[k])
    ensures CycleOf(byId, cs[k]) in Selected(byId, cs)
  {
    if k < |cs| - 1 { SelectedKeeps(byId, cs[..|cs| - 1], k); }
  }

  lemma DiffersFromLater(byId: NodeTable, cs: seq<set<string>>, last: set<string>)
    requires (forall k :: 0 <= k < |cs| ==> cs[k] <= byId.Keys && cs[k] != {}) && last <= byId.Keys
    requires forall k, x :: 0 <= k < |cs| && x in cs[k] ==> x !in last
    ensures forall i :: 0 <= i < |Selected(byId, cs)| ==> Selected(byId, cs)[i].nodes != CycleOf(byId, last).nodes
  {
    SelectedFrom(byId, cs);
    forall i | 0 <= i < |Selected(byId, cs)| ensures Selected(byId, cs)[i].nodes != CycleOf(byId, last).nodes {
      assert FromOneOf(byId, cs, Selected(byId, cs)[i]);
      var c :| c in cs && IsFrom(byId, c, Selected(byId, cs)[i]);
      DisjointMembers(byId, c, last);
    }
  }

  lemma {:induction false} SelectedDistinct(byId: NodeTable, cs: seq<set<string>>)
    requires forall k :: 0 <= k < |cs| ==> cs[k] <= byId.Keys && cs[k] != {}
    requires forall j, k, x :: 0 <= j < |cs| && 0 <= k < |cs| && x in cs[j] && x in cs[k] ==> j == k
    ensures EachOnce(Selected(byId, cs))
  {
    if cs != [] {
      var front, last := cs[..|cs| - 1], cs[|cs| - 1];
      var kept := Selected(byId, front);
      SelectedDistinct(byId, front);
      DiffersFromLater(byId, front, last);
      if Eventful(byId, last) { EachOnceAppend(kept, CycleOf(byId, last)); }
    }
  }

  /** The three tests on one component, and the cycle that describes it. */
  method Describe(byId: NodeTable, component: set<string>) returns (kept: bool, cycle: Cycle)
    requires component <= byId.Keys
    ensures cycle == CycleOf(byId, component)
    ensures kept <==> Eventful(byId, component)
  {
    cycle := Cycle(MembersOf(byId, Text.Sorted(component)), Text.Sorted(ServiceNames(byId, component)));
    kept := |component| >= 3 && |cycle.services| >= 2 && exists node | node in cycle.nodes :: node.kind == "topic";
    SelectionTest(byId, component);
  }

  lemma SelectedNext(byId: NodeTable, cs: seq<set<string>>, i: nat)
    requires i < |cs| && forall k :: 0 <= k < |cs| ==> cs[k] <= byId.Keys
    ensures Selected(byId, cs[..i + 1]) ==
            Selected(byId, cs[..i]) + (if Eventful(byId, cs[i]) then [CycleOf(byId, cs[i])] else [])
  {
    assert cs[..i + 1][..i] == cs[..i];
  }

  method SelectCycles(byId: NodeTable, components: seq<set<string>>) returns (cycles: seq<Cycle>)
    requires forall k :: 0 <= k < |components| ==> components[k] <= byId.Keys
    ensures cycles == Selected(byId, components)
  {
    cycles := [];
    for i := 0 to |components|
      invariant cycles == Selected(byId, components[..i])
    {
      SelectedNext(byId, components, i);
      var kept, cycle := Describe(byId, components[i]);
      if kept {
        cycles := cycles + [cycle];
      }
    }
    assert components[..|components|] == components;
  }

  ghost predicate DescribesEventScc(g: Graph<string>, byId: NodeTable, cycle: Cycle) {
    exists c :: IsScc(g, c) && c <= byId.Keys && Eventful(byId, c) && cycle == CycleOf(byId, c)
  }

  /** The cycles describe exactly the strongly connected components that link several services
      through a topic, each once. */
  ghost predicate CyclesAre(g: Graph<string>, byId: NodeTable, cycles: seq<Cycle>)
    requires g.Keys == byId.Keys
  {
    && (forall i :: 0 <= i < |cycles| ==> DescribesEventScc(g, byId, cycles[i]))
    && (forall c :: IsScc(g, c) && Eventful(byId, c) ==> CycleOf(byId, c) in cycles)
    && EachOnce(cycles)
  }

  /** `_event_cycles`: exactly the strongly connected components that link several
      services through a topic, each once. */
  method FindEventCycles(nodes: seq<Node>, edges: seq<Edge>) returns (cycles: seq<Cycle>)
    requires EndsAreNodes(nodes, edges)
    ensures CyclesAre(AdjacencyOf(nodes, edges), ById(nodes), cycles)
  {
    var adjacency := BuildAdjacency(nodes, edges);
    var search := new SccSearch(adjacency);
    search.Run();
    var byId := ById(nodes);
    ComponentsAreSccs(adjacency, search.components);
    cycles := SelectCycles(byId, search.components);
    CyclesOfComponents(adjacency, byId, search.components);
  }

  lemma CyclesOfComponents(g: Graph<string>, byId: NodeTable, cs: seq<set<string>>)
    requires g.Keys == byId.Keys
    requires forall k :: 0 <= k < |cs| ==> IsScc(g, cs[k]) && cs[k] <= byId.Keys
    requires forall c :: IsScc(g, c) ==> c in cs
    requires forall j, k, x :: 0 <= j < |cs| && 0 <= k < |cs| && x in cs[j] && x in cs[k] ==> j == k
    ensures forall i :: 0 <= i < |Selected(byId, cs)| ==> DescribesEventScc(g, byId, Selected(byId, cs)[i])
    ensures forall c :: IsScc(g, c) && Eventful(byId, c) ==> CycleOf(byId, c) in Selected(byId, cs)
    ensures EachOnce(Selected(byId, cs))
  {
    SelectedFrom(byId, cs);
    SelectedDistinct(byId, cs);
    var cycles := Selected(byId, cs);
    forall i | 0 <= i < |cycles| ensures DescribesEventScc(g, byId, cycles[i]) {
      assert FromOneOf(byId, cs, cycles[i]);
      var c :| c in cs && IsFrom(byId, c, cycles[i]);
      assert IsScc(g, c);
    }
    forall c | IsScc(g, c) && Eventful(byId, c) ensures CycleOf(byId, c) in cycles {
      var k :| 0 <= k < |cs| && cs[k] == c;
      SelectedKeeps(byId, cs, k);
    }
  }

  lemma DisjointMembers(byId: NodeTable, c: set<string>, d: set<string>)
    requires c != {} && c <= byId.Keys && d <= byId.Keys && forall x :: x in c ==> x !in d
    ensures CycleOf(byId, c).nodes != CycleOf(byId, d).nodes
  {
    var p, q := Text.Sorted(c), Text.Sorted(d);
    var x :| x in c;
    assert x in p;
    assert p[0] in c;
    if |q| > 0 { assert q[0] in d; }
  }

  /** The program's test on the sorted lists is `Eventful`. */
  lemma SelectionTest(byId: NodeTable, c: set<string>)
    requires c <= byId.Keys
    ensures var cycle := CycleOf(byId, c);
      Eventful(byId, c) <==> |c| >= 3 && |cycle.services| >= 2 && exists node :: node in cycle.nodes && node.kind == "topic"
  {
    if Eventful(byId, c) { EventfulHasThree(byId, c); }
    TwoNames(ServiceNames(byId, c));
    TopicMember(byId, c);
  }

  lemma TwoNames(names: set<string>)
    ensures |Text.Sorted(names)| >= 2 <==> exists a, b :: a in names && b in names && a != b
  {
    var r := Text.Sorted(names);
    if |r| >= 2 { assert r[0] in names && r[1] in names; }
    if a, b :| a in names && b in names && a != b { assert a in r && b in r; }
  }

  lemma TopicMember(byId: NodeTable, c: set<string>)
    requires c <= byId.Keys
    ensures (exists t :: t in c && t in byId && byId[t].kind == "topic") <==>
            exists node :: node in CycleOf(byId, c).nodes && node.kind == "topic"
  {
    var ids, members := Text.Sorted(c), CycleOf(byId, c).nodes;
    if t :| t in c && t in byId && byId[t].kind == "topic" { HasMember(byId, ids, t); }
    if node :| node in members && node.kind == "topic" {
      var id := IsMember(byId, ids, node);
    }
  }

  lemma HasMember(byId: NodeTable, ids: seq<string>, t: string)
    requires (forall id :: id in ids ==> id in byId) && t in ids
    ensures byId[t] in MembersOf(byId, ids)
  {
    var i :| 0 <= i < |ids| && ids[i] == t;
    assert MembersOf(byId, ids)[i] == byId[t];
  }

  lemma IsMember(byId: NodeTable, ids: seq<string>, node: Node) returns (id: string)
    requires (forall id :: id in ids ==> id in byId) && node in MembersOf(byId, ids)
    ensures id in ids && byId[id] == node
  {
    var i :| 0 <= i < |ids| && MembersOf(byId, ids)[i] == node;
    id := ids[i];
  }
}
