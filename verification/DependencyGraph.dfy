/** The topology of services, topics and stores that the dependency audit works on
    (application/dependency_analysis.py). */
module DependencyGraph {
  import opened Wrappers
  import ServiceGraph
  import EventCycles
  import opened NodeIds

  type Placed = ServiceGraph.Placed

  datatype DependencyNode = DependencyNode(id: string, kind: string, name: string, service: string, external: bool)

  /** Source, target, kind and label: two equal ones are one edge. */
  type Key = (string, string, string, string)

  /** The endpoints and their evidence, the edges between services, and for each service of a
      module the operations on its collections. */
  datatype Input = Input(graph: ServiceGraph.Input, links: seq<ServiceGraph.Edge>, stores: map<string, map<string, set<string>>>, modules: set<string>)

  function Service(name: string): string { NodeId("microservice", name, "") }

  // ----- what evidence each edge rests on

  function LinkKey(e: ServiceGraph.Edge): Key {
    (Service(e.source), Service(e.target), "http", ServiceGraph.RestResource(e))
  }

  function WithType(verb: string, messageType: Option<string>): string {
    if messageType.Some? && messageType.value != "" then verb + " " + messageType.value else verb
  }

  function TopicId(p: Placed): string { NodeId("topic", p.endpoint.topic, if p.endpoint.topicDynamic then p.service else "") }

  function KafkaKey(p: Placed): Key {
    if p.endpoint.role == "produce" then (Service(p.service), TopicId(p), "publishes", WithType("publishes", p.endpoint.messageType))
    else (TopicId(p), Service(p.service), "consumes", WithType("consumes", p.endpoint.messageType))
  }

  /** The calls of configured clients that were matched with a route: their edges are replaced
      by one edge per service. */
  function ConfiguredCalls(input: Input): set<string> {
    set e | e in input.links && e.kind == "rest" && input.graph.ev.domain(e.from).Some? :: e.from.id
  }

  function MatchedCalls(input: Input): set<string> {
    set e | e in input.links && e.kind == "rest" :: e.from.id
  }

  predicate ShowsLink(input: Input, e: ServiceGraph.Edge) {
    e.kind == "rest" && e.from.id !in ConfiguredCalls(input)
  }

  predicate KnownService(input: Input, service: string) { service in input.graph.services || service in input.modules }

  /** The edge of one call: to a configured host, to a service outside, or to an unmatched API. */
  function CallKeys(input: Input, p: Placed): set<Key> {
    if !input.graph.IsCall(p) then {} else
      match input.graph.ev.domain(p.endpoint)
      case Some(domain) =>
        if KnownService(input, domain) then {(Service(p.service), Service(domain), "http", ServiceGraph.Qualified(domain, "API"))} else {}
      case None =>
        match input.graph.ev.external(p.endpoint)
        case Some(outside) => {(Service(p.service), Service(outside), "http", ServiceGraph.Qualified(outside, "API"))}
        case None =>
          if p.endpoint.id in MatchedCalls(input) then {}
          else {(Service(p.service), NodeId("external_api", p.endpoint.topic, ""), "calls_external", p.endpoint.topic)}
  }

  function StoreKey(service: string, collection: string, operation: string): Key {
    (Service(service), NodeId("mongodb_collection", collection, service), operation, operation)
  }

  /** The whole graph, rule by rule. */
  ghost predicate Evidenced(input: Input, key: Key) {
    || (exists e :: e in input.links && ShowsLink(input, e) && key == LinkKey(e))
    || (exists p :: input.graph.Counts(p) && key == KafkaKey(p))
    || (exists p :: p in input.graph.placed && key in CallKeys(input, p))
    || (exists service, collection, operation :: Uses(input, service, collection, operation) && key == StoreKey(service, collection, operation))
  }

  predicate Uses(input: Input, service: string, collection: string, operation: string) {
    && service in input.stores && service in input.graph.services
    && collection in input.stores[service] && operation in input.stores[service][collection]
  }

  // ----- what evidence each node rests on

  function NodeOf(kind: string, name: string, service: string, external: bool): DependencyNode {
    DependencyNode(NodeId(kind, name, service), kind, name, service, external)
  }

  function ServiceNode(name: string): DependencyNode { NodeOf("microservice", name, "", false) }

  function TopicNode(p: Placed): DependencyNode {
    NodeOf("topic", p.endpoint.topic, if p.endpoint.topicDynamic then p.service else "", false)
  }

  function StoreNode(service: string, collection: string): DependencyNode {
    NodeOf("mongodb_collection", collection, service, false)
  }

  /** The edges of configured clients are left out. */
  predicate TakesLink(input: Input, e: ServiceGraph.Edge) { e.kind == "rest" ==> ShowsLink(input, e) }

  /** The caller, and the host, the outside service or the API that its call leads to. */
  function CallNodes(input: Input, p: Placed): set<DependencyNode> {
    if !input.graph.IsCall(p) then {} else
      {ServiceNode(p.service)} +
      match input.graph.ev.domain(p.endpoint)
      case Some(domain) => (if KnownService(input, domain) then {ServiceNode(domain)} else {})
      case None =>
        match input.graph.ev.external(p.endpoint)
        case Some(outside) => {NodeOf("microservice", outside, "", true)}
        case None =>
          if p.endpoint.id in MatchedCalls(input) then {} else {NodeOf("external_api", p.endpoint.topic, "", false)}
  }

  predicate HasStore(input: Input, service: string, collection: string) {
    service in input.stores && service in input.graph.services && collection in input.stores[service]
  }

  /** All nodes that are declared, rule by rule; those of one id become one node. */
  ghost predicate Declared(input: Input, d: DependencyNode) {
    || (exists s :: s in input.graph.services && d == ServiceNode(s))
    || (exists e :: e in input.links && TakesLink(input, e) && (d == ServiceNode(e.source) || d == ServiceNode(e.target)))
    || (exists p :: input.graph.Counts(p) && (d == ServiceNode(p.service) || d == TopicNode(p)))
    || (exists p :: p in input.graph.placed && d in CallNodes(input, p))
    || (exists service, collection :: HasStore(input, service, collection) &&
          (d == ServiceNode(service) || d == StoreNode(service, collection)))
  }

  /** `node` is one of the declared ones of its id, and is external if any of them is. */
  ghost predicate Joins(node: DependencyNode, declared: set<DependencyNode>) {
    && (exists d :: d in declared && node == d.(external := node.external))
    && (node.external <==> exists d :: d in declared && d.id == node.id && d.external)
  }

  /** One node for every declared id. */
  ghost predicate Holds(nodes: map<string, DependencyNode>, declared: set<DependencyNode>) {
    && (forall d :: d in declared ==> d.id in nodes)
    && (forall id :: id in nodes ==> nodes[id].id == id && Joins(nodes[id], declared))
  }

  // ----- the dictionaries of nodes and edges

  /** The first node of an id stays, and is external once anything says so. */
  function Kept(nodes: map<string, DependencyNode>, node: DependencyNode): DependencyNode {
    if node.id in nodes then nodes[node.id].(external := nodes[node.id].external || node.external) else node
  }

  /** The dictionary after these declarations. */
  function NodesOf(log: seq<DependencyNode>): map<string, DependencyNode> {
    if log == [] then map[] else
      var before, node := NodesOf(log[..|log| - 1]), log[|log| - 1];
      before[node.id := Kept(before, node)]
  }

  ghost function Declarations(log: seq<DependencyNode>): set<DependencyNode> {
    if log == [] then {} else Declarations(log[..|log| - 1]) + {log[|log| - 1]}
  }

  lemma JoinsNext(nodes: map<string, DependencyNode>, declared: set<DependencyNode>, d: DependencyNode)
    requires Holds(nodes, declared)
    ensures Joins(Kept(nodes, d), declared + {d})
  {
    var more := declared + {d};
    assert d in more;
    if d.id in nodes {
      var first :| first in declared && nodes[d.id] == first.(external := nodes[d.id].external);
      assert first in more && Kept(nodes, d) == first.(external := Kept(nodes, d).external);
    } else {
      assert Kept(nodes, d) == d.(external := d.external);
    }
  }

  lemma JoinsStill(node: DependencyNode, declared: set<DependencyNode>, d: DependencyNode)
    requires Joins(node, declared) && d.id != node.id
    ensures Joins(node, declared + {d})
  {
    var first :| first in declared && node == first.(external := node.external);
    assert first in declared + {d};
  }

  lemma HoldsNext(nodes: map<string, DependencyNode>, declared: set<DependencyNode>, d: DependencyNode)
    requires Holds(nodes, declared)
    ensures Holds(nodes[d.id := Kept(nodes, d)], declared + {d})
  {
    JoinsNext(nodes, declared, d);
    forall id | id in nodes && id != d.id ensures Joins(nodes[id], declared + {d}) {
      JoinsStill(nodes[id], declared, d);
    }
  }

  lemma {:induction false} LogHolds(log: seq<DependencyNode>)
    ensures Holds(NodesOf(log), Declarations(log))
  {
    if log != [] {
      var n := |log| - 1;
      LogHolds(log[..n]);
      HoldsNext(NodesOf(log[..n]), Declarations(log[..n]), log[n]);
    }
  }

  class Builder {
    var nodes: map<string, DependencyNode>
    /** The confidence of each edge. */
    var edges: map<Key, string>
    /** The nodes declared so far, in order and as a set. */
    ghost var log: seq<DependencyNode>
    ghost var declared: set<DependencyNode>

    /** The nodes are those declared, and both ends of every edge are nodes. */
    ghost predicate Valid()
      reads this
    {
      && nodes == NodesOf(log) && declared == Declarations(log)
      && (forall key :: key in edges ==> key.0 in nodes && key.1 in nodes)
    }

    constructor ()
      ensures Valid() && nodes == map[] && edges == map[] && declared == {}
    {
      nodes, edges, log, declared := map[], map[], [], {};
    }

    method AddNode(kind: string, name: string, service: string, external: bool) returns (id: string)
      requires Valid()
      modifies this`nodes, this`log, this`declared
      ensures Valid() && id == NodeId(kind, name, service) && nodes.Keys == old(nodes).Keys + {id}
      ensures declared == old(declared) + {NodeOf(kind, name, service, external)}
    {
      id := NodeId(kind, name, service);
      ghost var d := NodeOf(kind, name, service, external);
      assert (log + [d])[..|log|] == log;
      log, declared := log + [d], declared + {d};
      var node := if id in nodes then nodes[id] else DependencyNode(id, kind, name, service, external);
      nodes := nodes[id := if external then node.(external := true) else node];
    }

    method AddEdge(key: Key, confidence: string)
      requires Valid() && key.0 in nodes && key.1 in nodes
      modifies this`edges
      ensures Valid() && edges.Keys == old(edges).Keys + {key}
      ensures edges == if key in old(edges) then old(edges) else old(edges)[key := confidence]
    {
      if key !in edges { edges := edges[key := confidence]; }
    }
  }

  function LinkKeysOf(input: Input, e: ServiceGraph.Edge): set<Key> {
    if ShowsLink(input, e) then {LinkKey(e)} else {}
  }

  function LinkNodesOf(input: Input, e: ServiceGraph.Edge): set<DependencyNode> {
    if TakesLink(input, e) then {ServiceNode(e.source), ServiceNode(e.target)} else {}
  }

  function LinkKeys(input: Input, links: seq<ServiceGraph.Edge>): set<Key> {
    set e, key | e in links && key in LinkKeysOf(input, e) :: key
  }

  function LinkNodes(input: Input, links: seq<ServiceGraph.Edge>): set<DependencyNode> {
    set e, d | e in links && d in LinkNodesOf(input, e) :: d
  }

  lemma LinksNext(input: Input, i: nat)
    requires i < |input.links|
    ensures LinkKeys(input, input.links[..i + 1]) == LinkKeys(input, input.links[..i]) + LinkKeysOf(input, input.links[i])
    ensures LinkNodes(input, input.links[..i + 1]) == LinkNodes(input, input.links[..i]) + LinkNodesOf(input, input.links[i])
  {
    assert input.links[..i + 1] == input.links[..i] + [input.links[i]];
  }

  method AddLinks(input: Input, b: Builder)
    requires b.Valid()
    modifies b
    ensures b.Valid() && b.edges.Keys == old(b.edges).Keys + LinkKeys(input, input.links)
    ensures b.declared == old(b.declared) + LinkNodes(input, input.links)
  {
    for i := 0 to |input.links|
      invariant b.Valid() && b.edges.Keys == old(b.edges).Keys + LinkKeys(input, input.links[..i])
      invariant b.declared == old(b.declared) + LinkNodes(input, input.links[..i])
    {
      LinksNext(input, i);
      AddLink(input, b, input.links[i]);
    }
    assert input.links[..|input.links|] == input.links;
  }

  method AddLink(input: Input, b: Builder, e: ServiceGraph.Edge)
    requires b.Valid()
    modifies b
    ensures b.Valid() && b.edges.Keys == old(b.edges).Keys + LinkKeysOf(input, e)
    ensures b.declared == old(b.declared) + LinkNodesOf(input, e)
  {
    if e.kind == "rest" && e.from.id in ConfiguredCalls(input) { return; }
    var source := b.AddNode("microservice", e.source, "", false);
    var target := b.AddNode("microservice", e.target, "", false);
    if e.kind == "rest" { b.AddEdge(LinkKey(e), "high"); }
  }

  function KafkaKeysOf(input: Input, p: Placed): set<Key> { if input.graph.Counts(p) then {KafkaKey(p)} else {} }

  function KafkaNodesOf(input: Input, p: Placed): set<DependencyNode> {
    if input.graph.Counts(p) then {ServiceNode(p.service), TopicNode(p)} else {}
  }

  function KafkaKeys(input: Input, placed: seq<Placed>): set<Key> {
    set p, key | p in placed && key in KafkaKeysOf(input, p) :: key
  }

  function KafkaNodes(input: Input, placed: seq<Placed>): set<DependencyNode> {
    set p, d | p in placed && d in KafkaNodesOf(input, p) :: d
  }

  lemma KafkaNext(input: Input, placed: seq<Placed>, i: nat)
    requires i < |placed|
    ensures KafkaKeys(input, placed[..i + 1]) == KafkaKeys(input, placed[..i]) + KafkaKeysOf(input, placed[i])
    ensures KafkaNodes(input, placed[..i + 1]) == KafkaNodes(input, placed[..i]) + KafkaNodesOf(input, placed[i])
  {
    assert placed[..i + 1] == placed[..i] + [placed[i]];
  }

  method AddKafka(input: Input, b: Builder)
    requires b.Valid()
    modifies b
    ensures b.Valid() && b.edges.Keys == old(b.edges).Keys + KafkaKeys(input, input.graph.placed)
    ensures b.declared == old(b.declared) + KafkaNodes(input, input.graph.placed)
  {
    var placed := input.graph.placed;
    for i := 0 to |placed|
      invariant b.Valid() && b.edges.Keys == old(b.edges).Keys + KafkaKeys(input, placed[..i])
      invariant b.declared == old(b.declared) + KafkaNodes(input, placed[..i])
    {
      KafkaNext(input, placed, i);
      AddKafkaEndpoint(input, b, placed[i]);
    }
    assert placed[..|placed|] == placed;
  }

  /** Only an endpoint that no manifest replaces is taken. */
  method AddKafkaEndpoint(input: Input, b: Builder, p: Placed)
    requires b.Valid()
    modifies b
    ensures b.Valid() && b.edges.Keys == old(b.edges).Keys + KafkaKeysOf(input, p)
    ensures b.declared == old(b.declared) + KafkaNodesOf(input, p)
  {
    if !input.graph.Counts(p) { return; }
    var service := b.AddNode("microservice", p.service, "", false);
    var topic := b.AddNode("topic", p.endpoint.topic, if p.endpoint.topicDynamic then p.service else "", false);
    b.AddEdge(KafkaKey(p), if p.endpoint.topicDynamic then "medium" else "high");
  }

  function AllCallKeys(input: Input, placed: seq<Placed>): set<Key> {
    set p, key | p in placed && key in CallKeys(input, p) :: key
  }

  method AddCall(input: Input, b: Builder, p: Placed)
    requires b.Valid() && input.graph.IsCall(p)
    modifies b
    ensures b.Valid() && b.edges.Keys == old(b.edges).Keys + CallKeys(input, p)
    ensures b.declared == old(b.declared) + CallNodes(input, p)
  {
    var service := b.AddNode("microservice", p.service, "", false);
    var domain, outside := input.graph.ev.domain(p.endpoint), input.graph.ev.external(p.endpoint);
    if domain.Some? {
      if KnownService(input, domain.value) {
        var host := b.AddNode("microservice", domain.value, "", false);
        b.AddEdge((service, host, "http", ServiceGraph.Qualified(domain.value, "API")), "high");
      }
    } else if outside.Some? {
      var target := b.AddNode("microservice", outside.value, "", true);
      b.AddEdge((service, target, "http", ServiceGraph.Qualified(outside.value, "API")), "high");
    } else if p.endpoint.id !in MatchedCalls(input) {
      var api := b.AddNode("external_api", p.endpoint.topic, "", false);
      b.AddEdge((service, api, "calls_external", p.endpoint.topic), if p.endpoint.topicDynamic then "medium" else "high");
    }
  }

  function AllCallNodes(input: Input, placed: seq<Placed>): set<DependencyNode> {
    set p, d | p in placed && d in CallNodes(input, p) :: d
  }

  method AddCalls(input: Input, b: Builder)
    requires b.Valid()
    modifies b
    ensures b.Valid() && b.edges.Keys == old(b.edges).Keys + AllCallKeys(input, input.graph.placed)
    ensures b.declared == old(b.declared) + AllCallNodes(input, input.graph.placed)
  {
    var placed := input.graph.placed;
    for i := 0 to |placed|
      invariant b.Valid() && b.edges.Keys == old(b.edges).Keys + AllCallKeys(input, placed[..i])
      invariant b.declared == old(b.declared) + AllCallNodes(input, placed[..i])
    {
      var p := placed[i];
      assert placed[..i + 1] == placed[..i] + [p];
      if input.graph.IsCall(p) { AddCall(input, b, p); }
    }
    assert placed[..|placed|] == placed;
  }

  function StoreKeysOf(input: Input, service: string): set<Key> {
    if service in input.stores && service in input.graph.services
    then CollectionKeys(service, input.stores[service], input.stores[service].Keys) else {}
  }

  function StoreNodesOf(input: Input, service: string): set<DependencyNode> {
    if service in input.stores && service in input.graph.services then CollectionNodes(service, input.stores[service].Keys) else {}
  }

  function StoreKeys(input: Input, services: set<string>): set<Key> {
    set service, key | service in services && key in StoreKeysOf(input, service) :: key
  }

  function StoreNodes(input: Input, services: set<string>): set<DependencyNode> {
    set service, d | service in services && d in StoreNodesOf(input, service) :: d
  }

  lemma StoresNext(input: Input, done: set<string>, service: string)
    ensures StoreKeys(input, done + {service}) == StoreKeys(input, done) + StoreKeysOf(input, service)
    ensures StoreNodes(input, done + {service}) == StoreNodes(input, done) + StoreNodesOf(input, service)
  {
  }

  function CollectionNodes(service: string, collections: set<string>): set<DependencyNode> {
    (set collection | collection in collections :: ServiceNode(service)) +
    (set collection | collection in collections :: StoreNode(service, collection))
  }

  lemma CollectionNodesNext(service: string, done: set<string>, collection: string)
    ensures CollectionNodes(service, done + {collection}) ==
            CollectionNodes(service, done) + {ServiceNode(service), StoreNode(service, collection)}
  {
  }

  function CollectionKeys(service: string, stores: map<string, set<string>>, collections: set<string>): set<Key> {
    set collection, operation | collection in collections && collection in stores && operation in stores[collection]
      :: StoreKey(service, collection, operation)
  }

  function OperationKeys(service: string, collection: string, operations: set<string>): set<Key> {
    set operation | operation in operations :: StoreKey(service, collection, operation)
  }

  lemma OperationKeysNext(service: string, collection: string, done: set<string>, operation: string)
    ensures OperationKeys(service, collection, done + {operation}) ==
            OperationKeys(service, collection, done) + {StoreKey(service, collection, operation)}
  {
  }

  method AddCollection(b: Builder, service: string, collection: string, operations: set<string>)
    requires b.Valid()
    modifies b
    ensures b.Valid() && b.edges.Keys == old(b.edges).Keys + OperationKeys(service, collection, operations)
    ensures b.declared == old(b.declared) + {ServiceNode(service), StoreNode(service, collection)}
  {
    var source := b.AddNode("microservice", service, "", false);
    var target := b.AddNode("mongodb_collection", collection, service, false);
    AddOperations(b, service, collection, operations);
  }

  method AddOperations(b: Builder, service: string, collection: string, operations: set<string>)
    requires b.Valid() && Service(service) in b.nodes && NodeId("mongodb_collection", collection, service) in b.nodes
    modifies b`edges
    ensures b.Valid() && b.edges.Keys == old(b.edges).Keys + OperationKeys(service, collection, operations)
  {
    var todo, done := operations, {};
    while todo != {}
      invariant b.Valid() && done + todo == operations
      invariant b.edges.Keys == old(b.edges).Keys + OperationKeys(service, collection, done)
      decreases todo
    {
      var operation :| operation in todo;
      OperationKeysNext(service, collection, done, operation);
      b.AddEdge(StoreKey(service, collection, operation), "high");
      todo, done := todo - {operation}, done + {operation};
    }
    assert done == operations;
  }

  method AddStore(b: Builder, service: string, stores: map<string, set<string>>)
    requires b.Valid()
    modifies b
    ensures b.Valid() && b.edges.Keys == old(b.edges).Keys + CollectionKeys(service, stores, stores.Keys)
    ensures b.declared == old(b.declared) + CollectionNodes(service, stores.Keys)
  {
    var todo, done := stores.Keys, {};
    while todo != {}
      invariant b.Valid() && done + todo == stores.Keys
      invariant b.edges.Keys == old(b.edges).Keys + CollectionKeys(service, stores, done)
      invariant b.declared == old(b.declared) + CollectionNodes(service, done)
      decreases todo
    {
      var collection :| collection in todo;
      CollectionNodesNext(service, done, collection);
      AddCollection(b, service, collection, stores[collection]);
      assert CollectionKeys(service, stores, done + {collection}) ==
        CollectionKeys(service, stores, done) + OperationKeys(service, collection, stores[collection]);
      todo, done := todo - {collection}, done + {collection};
    }
    assert done == stores.Keys;
  }

  method AddStores(input: Input, b: Builder)
    requires b.Valid()
    modifies b
    ensures b.Valid() && b.edges.Keys == old(b.edges).Keys + StoreKeys(input, input.stores.Keys)
    ensures b.declared == old(b.declared) + StoreNodes(input, input.stores.Keys)
  {
    var todo, done := input.stores.Keys, {};
    while todo != {}
      invariant b.Valid() && done + todo == input.stores.Keys
      invariant b.edges.Keys == old(b.edges).Keys + StoreKeys(input, done)
      invariant b.declared == old(b.declared) + StoreNodes(input, done)
      decreases todo
    {
      var service :| service in todo;
      StoresNext(input, done, service);
      AddStoreOf(input, b, service);
      todo, done := todo - {service}, done + {service};
    }
    assert done == input.stores.Keys;
  }

  method AddStoreOf(input: Input, b: Builder, service: string)
    requires b.Valid() && service in input.stores
    modifies b
    ensures b.Valid() && b.edges.Keys == old(b.edges).Keys + StoreKeysOf(input, service)
    ensures b.declared == old(b.declared) + StoreNodesOf(input, service)
  {
    if service in input.graph.services { AddStore(b, service, input.stores[service]); }
  }

  // ----- build_dependency_graph

  lemma StoreKeysMean(input: Input, key: Key)
    ensures key in StoreKeys(input, input.stores.Keys) <==>
      exists service, collection, operation :: Uses(input, service, collection, operation) && key == StoreKey(service, collection, operation)
  {
    if service, collection, operation :| Uses(input, service, collection, operation) && key == StoreKey(service, collection, operation) {
      assert collection in input.stores[service].Keys && operation in input.stores[service][collection];
      assert key in CollectionKeys(service, input.stores[service], input.stores[service].Keys);
      assert key in StoreKeysOf(input, service);
    }
    if key in StoreKeys(input, input.stores.Keys) {
      var service :| service in input.stores && key in StoreKeysOf(input, service);
      var collection, operation :| collection in input.stores[service] && operation in input.stores[service][collection]
        && key == StoreKey(service, collection, operation);
      assert Uses(input, service, collection, operation);
    }
  }

  lemma StoreNodesMean(input: Input, d: DependencyNode)
    ensures d in StoreNodes(input, input.stores.Keys) <==>
      exists service, collection :: HasStore(input, service, collection) && (d == ServiceNode(service) || d == StoreNode(service, collection))
  {
    if service, collection :| HasStore(input, service, collection) && (d == ServiceNode(service) || d == StoreNode(service, collection)) {
      assert collection in input.stores[service].Keys;
      assert d in CollectionNodes(service, input.stores[service].Keys);
      assert d in StoreNodesOf(input, service);
    }
    if d in StoreNodes(input, input.stores.Keys) {
      var service :| service in input.stores && d in StoreNodesOf(input, service);
      var collection :| collection in input.stores[service] && (d == ServiceNode(service) || d == StoreNode(service, collection));
      assert HasStore(input, service, collection);
    }
  }

  lemma KafkaMeans(input: Input, key: Key, d: DependencyNode)
    ensures key in KafkaKeys(input, input.graph.placed) <==> exists p :: input.graph.Counts(p) && key == KafkaKey(p)
    ensures d in KafkaNodes(input, input.graph.placed) <==>
      exists p :: input.graph.Counts(p) && (d == ServiceNode(p.service) || d == TopicNode(p))
  {
    if p :| input.graph.Counts(p) && key == KafkaKey(p) { assert key in KafkaKeysOf(input, p); }
    if p :| input.graph.Counts(p) && (d == ServiceNode(p.service) || d == TopicNode(p)) { assert d in KafkaNodesOf(input, p); }
  }

  lemma LinksMean(input: Input, key: Key, d: DependencyNode)
    ensures key in LinkKeys(input, input.links) <==> exists e :: e in input.links && ShowsLink(input, e) && key == LinkKey(e)
    ensures d in LinkNodes(input, input.links) <==>
      exists e :: e in input.links && TakesLink(input, e) && (d == ServiceNode(e.source) || d == ServiceNode(e.target))
  {
    if e :| e in input.links && ShowsLink(input, e) && key == LinkKey(e) { assert key in LinkKeysOf(input, e); }
    if e :| e in input.links && TakesLink(input, e) && (d == ServiceNode(e.source) || d == ServiceNode(e.target)) {
      assert d in LinkNodesOf(input, e);
    }
  }

  function AllKeys(input: Input): set<Key> {
    LinkKeys(input, input.links) + KafkaKeys(input, input.graph.placed) +
    AllCallKeys(input, input.graph.placed) + StoreKeys(input, input.stores.Keys)
  }

  function ServiceNodes(services: set<string>): set<DependencyNode> { set s | s in services :: ServiceNode(s) }

  function AllNodes(input: Input): set<DependencyNode> {
    ServiceNodes(input.graph.services) + LinkNodes(input, input.links) + KafkaNodes(input, input.graph.placed) +
    AllCallNodes(input, input.graph.placed) + StoreNodes(input, input.stores.Keys)
  }

  lemma AllMean(input: Input, key: Key, d: DependencyNode)
    ensures key in AllKeys(input) <==> Evidenced(input, key)
    ensures d in AllNodes(input) <==> Declared(input, d)
  {
    LinksMean(input, key, d);
    KafkaMeans(input, key, d);
    StoreKeysMean(input, key);
    StoreNodesMean(input, d);
  }

  ghost predicate EdgesAre(input: Input, keys: set<Key>) { forall key :: key in keys <==> Evidenced(input, key) }

  ghost predicate DeclaredAre(input: Input, declared: set<DependencyNode>) {
    forall d :: d in declared <==> Declared(input, d)
  }

  lemma AllMeans(input: Input)
    ensures EdgesAre(input, AllKeys(input)) && DeclaredAre(input, AllNodes(input))
  {
    forall key ensures key in AllKeys(input) <==> Evidenced(input, key) { AllMean(input, key, ServiceNode("")); }
    forall d ensures d in AllNodes(input) <==> Declared(input, d) { AllMean(input, ("", "", "", ""), d); }
  }

  method AddEdges(input: Input, b: Builder)
    requires b.Valid() && b.edges == map[] && b.declared == {}
    modifies b
    ensures b.Valid() && b.edges.Keys == LinkKeys(input, input.links) + KafkaKeys(input, input.graph.placed)
    ensures b.declared == ServiceNodes(input.graph.services) + LinkNodes(input, input.links) + KafkaNodes(input, input.graph.placed)
  {
    AddServices(input, b);
    AddLinks(input, b);
    AddKafka(input, b);
  }

  method AddAll(input: Input, b: Builder)
    requires b.Valid() && b.edges == map[] && b.declared == {}
    modifies b
    ensures b.Valid() && b.edges.Keys == AllKeys(input) && b.declared == AllNodes(input)
  {
    AddEdges(input, b);
    AddCalls(input, b);
    AddStores(input, b);
  }

  /** The edges are exactly those that the evidence gives, and their ends are nodes. There is
      exactly one node for every id that is declared, external if any declaration says so. */
  method BuildDependencyGraph(input: Input)
    returns (nodes: map<string, DependencyNode>, edges: map<Key, string>, ghost declared: set<DependencyNode>)
    ensures EdgesAre(input, edges.Keys) && DeclaredAre(input, declared) && Holds(nodes, declared)
    ensures forall key :: key in edges ==> key.0 in nodes && key.1 in nodes
  {
    var b := new Builder();
    AddAll(input, b);
    AllMeans(input);
    LogHolds(b.log);
    nodes, edges, declared := b.nodes, b.edges, b.declared;
  }

  method AddServices(input: Input, b: Builder)
    requires b.Valid() && b.edges == map[] && b.declared == {}
    modifies b`nodes, b`log, b`declared
    ensures b.Valid() && b.edges == map[] && b.declared == ServiceNodes(input.graph.services)
  {
    var todo, done := input.graph.services, {};
    while todo != {}
      invariant b.Valid() && done + todo == input.graph.services && b.declared == ServiceNodes(done)
      decreases todo
    {
      var service :| service in todo;
      var _ := b.AddNode("microservice", service, "", false);
      assert ServiceNodes(done + {service}) == ServiceNodes(done) + {ServiceNode(service)};
      todo, done := todo - {service}, done + {service};
    }
    assert done == input.graph.services;
  }
}
