/** What a reported event cycle says, and what nodes the topology has, read off the evidence
    (application/dependency_analysis.py). */
module CycleLaws {
  import opened Wrappers
  import opened Digraph
  import opened NodeIds
  import opened DependencyGraph
  import opened DependencyAudit
  import opened DependencyLaws
  import opened EventCycles
  import opened Tarjan
  import ServiceGraph
  import Text

  // ----- what a cycle says

  function IdsOf(nodes: seq<EventCycles.Node>): (r: seq<string>)
    ensures |r| == |nodes| && forall i :: 0 <= i < |r| ==> r[i] == nodes[i].id
  {
    seq(|nodes|, i requires 0 <= i < |nodes| => nodes[i].id)
  }

  /** The members in increasing order of their ids, and the names of the services among them. */
  ghost predicate Shows(byId: NodeTable, c: set<string>, cycle: Cycle) {
    && (forall id :: id in IdsOf(cycle.nodes) <==> id in c) && Text.Increasing(IdsOf(cycle.nodes))
    && AreNodes(byId, cycle.nodes) && Text.Increasing(cycle.services)
    && forall name :: name in cycle.services <==> exists n :: n in cycle.nodes && IsServiceNamed(n, name)
  }

  predicate AreNodes(byId: NodeTable, nodes: seq<EventCycles.Node>) {
    forall i | 0 <= i < |nodes| :: nodes[i].id in byId && byId[nodes[i].id] == nodes[i]
  }

  /** Two services of different names, and a topic. */
  ghost predicate IsEventful(byId: NodeTable, c: set<string>) {
    && (exists x, y :: x in c && y in c && x in byId && y in byId && byId[x].kind == byId[y].kind == "microservice" && byId[x].name != byId[y].name)
    && exists t :: t in c && t in byId && byId[t].kind == "topic"
  }

  predicate IsServiceNamed(n: EventCycles.Node, name: string) { n.kind == "microservice" && n.name == name }

  lemma ServiceShown(byId: NodeTable, c: set<string>, ids: seq<string>, name: string)
    requires c <= byId.Keys && forall id :: id in ids <==> id in c
    ensures name in ServiceNames(byId, c) <==> exists n :: n in MembersOf(byId, ids) && IsServiceNamed(n, name)
  {
    var nodes := MembersOf(byId, ids);
    if name in ServiceNames(byId, c) {
      var id :| id in c && byId[id].kind == "microservice" && byId[id].name == name;
      var i :| 0 <= i < |ids| && ids[i] == id;
      assert nodes[i] in nodes && IsServiceNamed(nodes[i], name);
    }
    if n :| n in nodes && IsServiceNamed(n, name) {
      var i :| 0 <= i < |nodes| && nodes[i] == n;
      assert ids[i] in ids;
    }
  }

  lemma MembersAre(byId: NodeTable, ids: seq<string>)
    requires forall id :: id in ids ==> id in byId
    ensures IdsOf(MembersOf(byId, ids)) == ids
    ensures AreNodes(byId, MembersOf(byId, ids))
  {
    var nodes := MembersOf(byId, ids);
    forall i | 0 <= i < |ids| ensures nodes[i].id == ids[i] && ids[i] in byId && nodes[i] == byId[ids[i]] { assert ids[i] in ids; }
  }

  lemma CycleShows(byId: NodeTable, c: set<string>)
    requires c <= byId.Keys
    ensures Shows(byId, c, CycleOf(byId, c))
  {
    var ids, cycle := Text.Sorted(c), CycleOf(byId, c);
    MembersAre(byId, ids);
    forall name ensures name in cycle.services <==> exists n :: n in cycle.nodes && IsServiceNamed(n, name) { ServiceShown(byId, c, ids, name); }
  }

  lemma EventfulIff(byId: NodeTable, c: set<string>)
    ensures Eventful(byId, c) <==> IsEventful(byId, c)
  {
    if a, b :| a in ServiceNames(byId, c) && b in ServiceNames(byId, c) && a != b {
      var x :| x in c && x in byId && byId[x].kind == "microservice" && byId[x].name == a;
      var y :| y in c && y in byId && byId[y].kind == "microservice" && byId[y].name == b;
    }
    if x, y :| x in c && y in c && x in byId && y in byId && byId[x].kind == byId[y].kind == "microservice" && byId[x].name != byId[y].name {
      assert byId[x].name in ServiceNames(byId, c) && byId[y].name in ServiceNames(byId, c);
    }
  }

  ghost predicate ShowsScc(g: Graph<string>, byId: NodeTable, cycle: Cycle, c: set<string>) {
    IsScc(g, c) && IsEventful(byId, c) && Shows(byId, c, cycle)
  }

  /** Each cycle shows a strongly connected component with two services and a topic. */
  lemma ReportedIsEventful(g: Graph<string>, byId: NodeTable, cycles: seq<Cycle>, i: nat)
    requires g.Keys == byId.Keys && CyclesAre(g, byId, cycles) && i < |cycles|
    ensures exists c :: ShowsScc(g, byId, cycles[i], c)
  {
    assert DescribesEventScc(g, byId, cycles[i]);
    var c :| IsScc(g, c) && c <= byId.Keys && Eventful(byId, c) && cycles[i] == CycleOf(byId, c);
    CycleShows(byId, c);
    EventfulIff(byId, c);
    assert ShowsScc(g, byId, cycles[i], c);
  }

  /** Each such component is shown. */
  lemma EventfulIsReported(g: Graph<string>, byId: NodeTable, cycles: seq<Cycle>, c: set<string>)
    requires g.Keys == byId.Keys && CyclesAre(g, byId, cycles) && IsScc(g, c) && IsEventful(byId, c)
    ensures exists i :: 0 <= i < |cycles| && Shows(byId, c, cycles[i])
  {
    CycleShows(byId, c);
    EventfulIff(byId, c);
    var i :| 0 <= i < |cycles| && cycles[i] == CycleOf(byId, c);
  }

  /** The same, of the topology: kinds and names are those of its nodes. */
  ghost predicate Lists(nodes: map<string, DependencyNode>, c: set<string>, cycle: Cycle) {
    && (forall id :: id in IdsOf(cycle.nodes) <==> id in c) && Text.Increasing(IdsOf(cycle.nodes)) && Text.Increasing(cycle.services)
    && (forall n :: n in cycle.nodes ==> n.id in nodes && n.kind == nodes[n.id].kind && n.name == nodes[n.id].name)
    && forall name :: name in cycle.services <==> exists id :: IsServiceIn(nodes, c, id, name)
  }

  predicate IsServiceIn(nodes: map<string, DependencyNode>, c: set<string>, id: string, name: string) {
    id in c && id in nodes && nodes[id].kind == "microservice" && nodes[id].name == name
  }

  ghost predicate LinksServices(nodes: map<string, DependencyNode>, c: set<string>) {
    && (exists x, y, a, b :: IsServiceIn(nodes, c, x, a) && IsServiceIn(nodes, c, y, b) && a != b)
    && exists t :: t in c && t in nodes && nodes[t].kind == "topic"
  }

  lemma LinksIff(nodes: map<string, DependencyNode>, c: set<string>)
    requires OwnIds(nodes)
    ensures IsEventful(DependencyAudit.ById(nodes), c) <==> LinksServices(nodes, c)
  {
    if x, y :| x in c && y in c && x in nodes && y in nodes && nodes[x].kind == nodes[y].kind == "microservice" && nodes[x].name != nodes[y].name {
      assert IsServiceIn(nodes, c, x, nodes[x].name) && IsServiceIn(nodes, c, y, nodes[y].name);
    }
  }

  lemma ShowsLists(nodes: map<string, DependencyNode>, c: set<string>, cycle: Cycle)
    requires OwnIds(nodes) && Shows(DependencyAudit.ById(nodes), c, cycle)
    ensures Lists(nodes, c, cycle)
  {
    forall name ensures name in cycle.services <==> exists id :: IsServiceIn(nodes, c, id, name) {
      if n :| n in cycle.nodes && IsServiceNamed(n, name) {
        var i :| 0 <= i < |cycle.nodes| && cycle.nodes[i] == n;
        assert IdsOf(cycle.nodes)[i] in c && IsServiceIn(nodes, c, n.id, name);
      }
      if id :| IsServiceIn(nodes, c, id, name) {
        var i :| 0 <= i < |cycle.nodes| && IdsOf(cycle.nodes)[i] == id;
        assert cycle.nodes[i] in cycle.nodes && IsServiceNamed(cycle.nodes[i], name);
      }
    }
  }

  ghost predicate ListsScc(g: Graph<string>, nodes: map<string, DependencyNode>, cycle: Cycle, c: set<string>) {
    IsScc(g, c) && LinksServices(nodes, c) && Lists(nodes, c, cycle)
  }

  /** Each cycle reported on a topology lists a strongly connected component with two services and
      a topic, */
  lemma CycleListed(g: Graph<string>, nodes: map<string, DependencyNode>, cycles: seq<Cycle>, i: nat)
    requires OwnIds(nodes) && g.Keys == nodes.Keys && CyclesAre(g, DependencyAudit.ById(nodes), cycles) && i < |cycles|
    ensures exists c :: ListsScc(g, nodes, cycles[i], c)
  {
    var byId := DependencyAudit.ById(nodes);
    ReportedIsEventful(g, byId, cycles, i);
    var c :| ShowsScc(g, byId, cycles[i], c);
    LinksIff(nodes, c);
    ShowsLists(nodes, c, cycles[i]);
    assert ListsScc(g, nodes, cycles[i], c);
  }

  /** and each such component is listed. */
  lemma ComponentListed(g: Graph<string>, nodes: map<string, DependencyNode>, cycles: seq<Cycle>, c: set<string>)
    requires OwnIds(nodes) && g.Keys == nodes.Keys && CyclesAre(g, DependencyAudit.ById(nodes), cycles)
    requires IsScc(g, c) && LinksServices(nodes, c)
    ensures exists i :: 0 <= i < |cycles| && Lists(nodes, c, cycles[i])
  {
    var byId := DependencyAudit.ById(nodes);
    LinksIff(nodes, c);
    EventfulIsReported(g, byId, cycles, c);
    var i :| 0 <= i < |cycles| && Shows(byId, c, cycles[i]);
    ShowsLists(nodes, c, cycles[i]);
  }

  // ----- the lists

  /** Nodes are listed by kind, then service, then name. */
  lemma NodeOrderMeans(a: DependencyNode, b: DependencyNode)
    ensures NodeLe(a, b) <==>
      || Text.Less(a.kind, b.kind)
      || (a.kind == b.kind && Text.Less(a.service, b.service))
      || (a.kind == b.kind && a.service == b.service && Text.Le(a.name, b.name))
  {
    Text.LexOne(a.name, b.name);
    Text.LexCons(a.service, [a.name], b.service, [b.name]);
    Text.LexCons(a.kind, [a.service] + [a.name], b.kind, [b.service] + [b.name]);
    assert NodeKey(a) == [a.kind] + ([a.service] + [a.name]) && NodeKey(b) == [b.kind] + ([b.service] + [b.name]);
  }

  /** Edges are listed by source, target, kind and text. */
  lemma EdgeOrderMeans(a: Key, b: Key)
    ensures EdgeLe(a, b) <==>
      || Text.Less(a.0, b.0)
      || (a.0 == b.0 && Text.Less(a.1, b.1))
      || (a.0 == b.0 && a.1 == b.1 && Text.Less(a.2, b.2))
      || (a.0 == b.0 && a.1 == b.1 && a.2 == b.2 && Text.Le(a.3, b.3))
  {
    Text.LexOne(a.3, b.3);
    Text.LexCons(a.2, [a.3], b.2, [b.3]);
    Text.LexCons(a.1, [a.2] + [a.3], b.1, [b.2] + [b.3]);
    Text.LexCons(a.0, [a.1] + ([a.2] + [a.3]), b.0, [b.1] + ([b.2] + [b.3]));
    assert EdgeKey(a) == [a.0] + ([a.1] + ([a.2] + [a.3])) && EdgeKey(b) == [b.0] + ([b.1] + ([b.2] + [b.3]));
  }

  // ----- the nodes

  /** The evidence has this node: a service, a topic, a collection, an API without a match, or a
      service outside. */
  ghost predicate Mentions(input: Input, d: DependencyNode) {
    match d.kind
    case "microservice" =>
      d.id == ServiceId(d.name) && d.service == "" &&
      if d.external then exists p :: IsOutside(input, p, d.name) else IsService(input, d.name)
    case "topic" => !d.external && exists p :: input.graph.Counts(p) && IsTopicNode(d, p)
    case "mongodb_collection" => !d.external && d.id == CollectionId(d.service, d.name) && HasCollection(input, d.service, d.name)
    case "external_api" =>
      !d.external && d.service == "" && d.id == ApiId(d.name) && exists p :: Strands(input, p) && p.endpoint.topic == d.name
    case _ => false
  }

  predicate IsTopicNode(d: DependencyNode, p: Placed) {
    && d.name == p.endpoint.topic && d.service == (if p.endpoint.topicDynamic then p.service else "")
    && d.id == TopicNamed(if d.service == "" then d.name else d.service + ":" + d.name)
  }

  ghost predicate IsOutside(input: Input, p: Placed, name: string) {
    IsCall(input, p) && input.graph.ev.domain(p.endpoint).None? && input.graph.ev.external(p.endpoint) == Some(name)
  }

  ghost predicate HasCollection(input: Input, service: string, collection: string) {
    service in input.stores && service in input.graph.services && collection in input.stores[service]
  }

  /** A service of the workspace, one end of an edge shown, or the owner or the host of an endpoint. */
  ghost predicate IsService(input: Input, name: string) {
    || name in input.graph.services
    || (exists e :: ShowsEdge(input, e) && (name == e.source || name == e.target))
    || (exists p :: (input.graph.Counts(p) || IsCall(input, p)) && name == p.service)
    || (exists p :: IsCall(input, p) && input.graph.ev.domain(p.endpoint) == Some(name) && (name in input.graph.services || name in input.modules))
  }

  ghost predicate ShowsEdge(input: Input, e: ServiceGraph.Edge) { e in input.links && (e.kind == "rest" ==> Routed(input, e)) }

  lemma TopicNodeIs(p: Placed)
    ensures IsTopicNode(TopicNode(p), p)
  {
    var service := if p.endpoint.topicDynamic then p.service else "";
    IdIsLocal("topic", p.endpoint.topic, service);
    assert "topic" + ":" == "topic:";
  }

  lemma CallMentioned(input: Input, p: Placed, d: DependencyNode)
    requires p in input.graph.placed && d in CallNodes(input, p)
    ensures Mentions(input, d)
  {
    ServiceIds(p.service);
    ServiceIds(d.name);
    ApiIds(p.endpoint.topic);
    if d == ServiceNode(p.service) {
      assert IsCall(input, p) && IsService(input, p.service);
    } else if input.graph.ev.domain(p.endpoint).Some? {
      assert IsService(input, d.name);
    } else if input.graph.ev.external(p.endpoint).Some? {
      assert IsOutside(input, p, d.name);
    } else {
      assert Strands(input, p);
    }
  }

  lemma DeclaredIsMentioned(input: Input, d: DependencyNode)
    requires Declared(input, d)
    ensures Mentions(input, d)
  {
    ServiceIds(d.name);
    if s :| s in input.graph.services && d == ServiceNode(s) {
      assert IsService(input, s);
    } else if e :| e in input.links && TakesLink(input, e) && (d == ServiceNode(e.source) || d == ServiceNode(e.target)) {
      RoutedMeans(input, e);
      assert ShowsEdge(input, e);
    } else if p :| input.graph.Counts(p) && (d == ServiceNode(p.service) || d == TopicNode(p)) {
      TopicNodeIs(p);
    } else if p :| p in input.graph.placed && d in CallNodes(input, p) {
      CallMentioned(input, p, d);
    } else {
      var service, collection :| HasStore(input, service, collection) && (d == ServiceNode(service) || d == StoreNode(service, collection));
      CollectionIds(service, collection);
    }
  }

  lemma ServiceDeclared(input: Input, name: string)
    requires IsService(input, name)
    ensures Declared(input, ServiceNode(name))
  {
    if name !in input.graph.services {
      if e :| ShowsEdge(input, e) && (name == e.source || name == e.target) {
        RoutedMeans(input, e);
        assert TakesLink(input, e);
      } else if p :| (input.graph.Counts(p) || IsCall(input, p)) && name == p.service {
        assert input.graph.Counts(p) || ServiceNode(name) in CallNodes(input, p);
      } else {
        var p :| IsCall(input, p) && input.graph.ev.domain(p.endpoint) == Some(name) && (name in input.graph.services || name in input.modules);
        assert ServiceNode(name) in CallNodes(input, p);
      }
    }
  }

  lemma MentionedIsDeclared(input: Input, d: DependencyNode)
    requires Mentions(input, d)
    ensures Declared(input, d)
  {
    match d.kind
    case "microservice" =>
      ServiceIds(d.name);
      if d.external {
        var p :| IsOutside(input, p, d.name);
        assert p in input.graph.placed && d in CallNodes(input, p);
      } else {
        ServiceDeclared(input, d.name);
        assert d == ServiceNode(d.name);
      }
    case "topic" =>
      var p :| input.graph.Counts(p) && IsTopicNode(d, p);
      TopicNodeIs(p);
      assert d == TopicNode(p);
    case "mongodb_collection" =>
      CollectionIds(d.service, d.name);
      assert HasStore(input, d.service, d.name) && d == StoreNode(d.service, d.name);
    case "external_api" =>
      ApiIds(d.name);
      var p :| Strands(input, p) && p.endpoint.topic == d.name;
      assert p in input.graph.placed && d in CallNodes(input, p);
    case _ =>
  }

  lemma DeclaredIff(input: Input, d: DependencyNode)
    ensures Declared(input, d) <==> Mentions(input, d)
  {
    if Declared(input, d) { DeclaredIsMentioned(input, d); }
    if Mentions(input, d) { MentionedIsDeclared(input, d); }
  }

  ghost predicate IsMentioned(input: Input, id: string) { exists d :: Mentions(input, d) && d.id == id }

  ghost predicate IsMentionedOutside(input: Input, id: string) { exists d :: Mentions(input, d) && d.id == id && d.external }

  /** There is a node for each id that the evidence mentions and for no other; it is as mentioned,
      and it counts as outside as soon as one call names it so. */
  lemma NodesIff(input: Input, nodes: map<string, DependencyNode>, declared: set<DependencyNode>, id: string)
    requires DeclaredAre(input, declared) && Holds(nodes, declared)
    ensures id in nodes <==> IsMentioned(input, id)
    ensures id in nodes ==> (nodes[id].external <==> IsMentionedOutside(input, id))
    ensures id in nodes ==> exists d :: Mentions(input, d) && nodes[id] == d.(external := nodes[id].external)
  {
    forall d ensures d in declared <==> Mentions(input, d) { DeclaredIff(input, d); }
    if id in nodes {
      assert Joins(nodes[id], declared);
      var d :| d in declared && nodes[id] == d.(external := nodes[id].external);
      assert Mentions(input, d) && d.id == id;
    }
  }
}
