/** What leads to what in the dependency topology, read off the endpoints
    (application/dependency_analysis.py). */
module DependencyLaws {
  import opened Wrappers
  import opened Digraph
  import opened NodeIds
  import opened DependencyGraph
  import opened DependencyAudit
  import EventCycles
  import ServiceGraph

  // ----- the ids of nodes

  function ServiceId(name: string): string { "microservice:" + name }

  function TopicNamed(name: string): string { "topic:" + name }

  function ApiId(topic: string): string { "external_api:" + topic }

  /** A collection belongs to the service that stores it. */
  function CollectionId(service: string, collection: string): string {
    "mongodb_collection:" + (if service == "" then collection else service + ":" + collection)
  }

  /** A dynamic topic is a topic of its service. */
  predicate OnTopic(p: Placed, topic: string) {
    topic == if p.endpoint.topicDynamic && p.service != "" then p.service + ":" + p.endpoint.topic else p.endpoint.topic
  }

  lemma SameName(prefix: string, a: string, b: string)
    ensures prefix + a == prefix + b <==> a == b
  {
    if prefix + a == prefix + b { SameTail(prefix, a, b); }
  }

  lemma ServiceIds(name: string)
    ensures Service(name) == ServiceId(name)
  {
    assert "microservice" + ":" == "microservice:";
  }

  lemma ApiIds(topic: string)
    ensures NodeId("external_api", topic, "") == ApiId(topic)
  {
    assert "external_api" + ":" == "external_api:";
  }

  lemma CollectionIds(service: string, collection: string)
    ensures NodeId("mongodb_collection", collection, service) == CollectionId(service, collection)
  {
    IdIsLocal("mongodb_collection", collection, service);
    assert "mongodb_collection" + ":" == "mongodb_collection:";
  }

  lemma TopicIds(p: Placed, topic: string)
    ensures TopicId(p) == TopicNamed(topic) <==> OnTopic(p, topic)
  {
    var service := if p.endpoint.topicDynamic then p.service else "";
    IdIsLocal("topic", p.endpoint.topic, service);
    assert "topic" + ":" == "topic:";
    SameName("topic:", LocalName(p.endpoint.topic, service), topic);
  }

  /** Nodes of different kinds have different ids. */
  lemma KindsDiffer(a: string, b: string)
    ensures TopicNamed(a) != ServiceId(b) && ApiId(a) != ServiceId(b) && ApiId(a) != TopicNamed(b)
  {
    assert TopicNamed(a)[0] == 't' && ServiceId(b)[0] == 'm' && ApiId(a)[0] == 'e' && TopicNamed(b)[0] == 't';
  }

  lemma CollectionsDiffer(service: string, collection: string, b: string)
    ensures CollectionId(service, collection) != ServiceId(b) && CollectionId(service, collection) != TopicNamed(b)
    ensures CollectionId(service, collection) != ApiId(b)
  {
    assert CollectionId(service, collection)[..2] == "mo" && ServiceId(b)[..2] == "mi" && TopicNamed(b)[0] == 't' && ApiId(b)[0] == 'e';
    assert "mo"[1] == 'o' && "mi"[1] == 'i';
  }

  // ----- the four origins of an edge

  /** Some edge leads from `u` to `v`. */
  ghost predicate Leads(keys: set<Key>, u: string, v: string) {
    exists key :: key in keys && key.0 == u && key.1 == v
  }

  ghost predicate Publishes(input: Input, p: Placed, topic: string) {
    input.graph.Counts(p) && p.endpoint.role == "produce" && OnTopic(p, topic)
  }

  ghost predicate Consumes(input: Input, p: Placed, topic: string) {
    input.graph.Counts(p) && p.endpoint.role != "produce" && OnTopic(p, topic)
  }

  ghost predicate IsCall(input: Input, p: Placed) {
    p in input.graph.placed && p.endpoint.system == "rest" && p.endpoint.role == "call"
  }

  /** A matched route that no configured client accounts for. */
  ghost predicate Routed(input: Input, e: ServiceGraph.Edge) {
    && e in input.links && e.kind == "rest"
    && forall f :: f in input.links && f.kind == "rest" && f.from.id == e.from.id ==> input.graph.ev.domain(f.from).None?
  }

  ghost predicate Matched(input: Input, p: Placed) {
    exists e :: e in input.links && e.kind == "rest" && e.from.id == p.endpoint.id
  }

  /** The host that a call is configured for, or the service outside that it names. */
  ghost predicate Addresses(input: Input, p: Placed, target: string) {
    && IsCall(input, p)
    && match input.graph.ev.domain(p.endpoint)
       case Some(domain) => target == domain && (target in input.graph.services || target in input.modules)
       case None => input.graph.ev.external(p.endpoint) == Some(target)
  }

  /** A call that leads nowhere known. */
  ghost predicate Strands(input: Input, p: Placed) {
    && IsCall(input, p) && input.graph.ev.domain(p.endpoint).None? && input.graph.ev.external(p.endpoint).None?
    && !Matched(input, p)
  }

  ghost predicate CallsService(input: Input, source: string, target: string) {
    || (exists e :: Routed(input, e) && e.source == source && e.target == target)
    || (exists p :: Addresses(input, p, target) && p.service == source)
  }

  ghost predicate UsesCollection(input: Input, service: string, collection: string) {
    && service in input.stores && service in input.graph.services
    && collection in input.stores[service] && input.stores[service][collection] != {}
  }

  // ----- what an edge may be

  /** Every edge leads from a service to a service, a topic, an API or a collection, or from a
      topic to a service. */
  datatype Origin =
    | FromRoute(edge: ServiceGraph.Edge) | FromEndpoint(p: Placed, topic: string) | FromCall(p: Placed, target: string)
    | FromStranded(p: Placed) | FromStore(service: string, collection: string)

  /** A verb, with the type of the message where it is known. */
  function Said(verb: string, messageType: Option<string>): string {
    match messageType
    case Some(t) => (if t == "" then verb else verb + " " + t)
    case None => verb
  }

  /** Ends, kind and label of the edge. */
  ghost predicate Explains(input: Input, o: Origin, u: string, v: string, kind: string, says: string) {
    match o
    case FromRoute(e) =>
      && Routed(input, e) && u == ServiceId(e.source) && v == ServiceId(e.target) && kind == "http"
      && says == e.target + ": " + (if e.to.Some? then e.to.value.topic else "API")
    case FromEndpoint(p, t) =>
      || (Publishes(input, p, t) && u == ServiceId(p.service) && v == TopicNamed(t) && kind == "publishes" && says == Said(kind, p.endpoint.messageType))
      || (Consumes(input, p, t) && u == TopicNamed(t) && v == ServiceId(p.service) && kind == "consumes" && says == Said(kind, p.endpoint.messageType))
    case FromCall(p, t) =>
      Addresses(input, p, t) && u == ServiceId(p.service) && v == ServiceId(t) && kind == "http" && says == t + ": " + "API"
    case FromStranded(p) =>
      Strands(input, p) && u == ServiceId(p.service) && v == ApiId(p.endpoint.topic) && kind == "calls_external" && says == p.endpoint.topic
    case FromStore(s, c) =>
      UsesCollection(input, s, c) && kind in input.stores[s][c] && u == ServiceId(s) && v == CollectionId(s, c) && says == kind
  }

  lemma RoutedMeans(input: Input, e: ServiceGraph.Edge)
    ensures e in input.links && ShowsLink(input, e) <==> Routed(input, e)
  {
  }

  lemma LinkExplained(input: Input, e: ServiceGraph.Edge)
    requires e in input.links && ShowsLink(input, e)
    ensures Explains(input, FromRoute(e), LinkKey(e).0, LinkKey(e).1, LinkKey(e).2, LinkKey(e).3)
  {
    RoutedMeans(input, e);
    ServiceIds(e.source);
    ServiceIds(e.target);
  }

  lemma KafkaExplained(input: Input, p: Placed) returns (o: Origin)
    requires input.graph.Counts(p)
    ensures Explains(input, o, KafkaKey(p).0, KafkaKey(p).1, KafkaKey(p).2, KafkaKey(p).3)
  {
    var topic := if p.endpoint.topicDynamic && p.service != "" then p.service + ":" + p.endpoint.topic else p.endpoint.topic;
    o := FromEndpoint(p, topic);
    TopicIds(p, topic);
    ServiceIds(p.service);
  }

  lemma CallExplained(input: Input, p: Placed, key: Key) returns (o: Origin)
    requires p in input.graph.placed && key in CallKeys(input, p)
    ensures Explains(input, o, key.0, key.1, key.2, key.3)
  {
    ServiceIds(p.service);
    if input.graph.ev.domain(p.endpoint).Some? {
      ServiceIds(input.graph.ev.domain(p.endpoint).value);
      o := FromCall(p, input.graph.ev.domain(p.endpoint).value);
    } else if input.graph.ev.external(p.endpoint).Some? {
      ServiceIds(input.graph.ev.external(p.endpoint).value);
      o := FromCall(p, input.graph.ev.external(p.endpoint).value);
    } else {
      ApiIds(p.endpoint.topic);
      o := FromStranded(p);
    }
  }

  lemma StoreExplained(input: Input, service: string, collection: string, operation: string)
    requires Uses(input, service, collection, operation)
    ensures var key := StoreKey(service, collection, operation);
      Explains(input, FromStore(service, collection), key.0, key.1, key.2, key.3)
  {
    ServiceIds(service);
    CollectionIds(service, collection);
  }

  /** Every edge has such an origin. */
  lemma EdgeExplained(input: Input, keys: set<Key>, key: Key) returns (o: Origin)
    requires EdgesAre(input, keys) && key in keys
    ensures Explains(input, o, key.0, key.1, key.2, key.3)
  {
    assert Evidenced(input, key);
    if e :| e in input.links && ShowsLink(input, e) && key == LinkKey(e) {
      LinkExplained(input, e);
      o := FromRoute(e);
    } else if p :| input.graph.Counts(p) && key == KafkaKey(p) {
      o := KafkaExplained(input, p);
    } else if p :| p in input.graph.placed && key in CallKeys(input, p) {
      o := CallExplained(input, p, key);
    } else {
      var service, collection, operation :| Uses(input, service, collection, operation) && key == StoreKey(service, collection, operation);
      StoreExplained(input, service, collection, operation);
      o := FromStore(service, collection);
    }
  }

  /** Every origin has its edge. */
  lemma OriginHasEdge(input: Input, keys: set<Key>, o: Origin, u: string, v: string, kind: string, says: string)
    requires EdgesAre(input, keys) && Explains(input, o, u, v, kind, says)
    ensures (u, v, kind, says) in keys
  {
    match o
    case FromRoute(e) =>
      RoutedMeans(input, e);
      ServiceIds(e.source);
      ServiceIds(e.target);
      assert LinkKey(e) == (u, v, kind, says) && Evidenced(input, (u, v, kind, says));
    case FromEndpoint(p, t) =>
      TopicIds(p, t);
      ServiceIds(p.service);
      assert KafkaKey(p) == (u, v, kind, says) && Evidenced(input, (u, v, kind, says));
    case FromCall(p, t) =>
      ServiceIds(p.service);
      ServiceIds(t);
      assert (u, v, kind, says) in CallKeys(input, p) && Evidenced(input, (u, v, kind, says));
    case FromStranded(p) =>
      ServiceIds(p.service);
      ApiIds(p.endpoint.topic);
      assert (u, v, kind, says) in CallKeys(input, p) && Evidenced(input, (u, v, kind, says));
    case FromStore(s, c) =>
      ServiceIds(s);
      CollectionIds(s, c);
      assert Uses(input, s, c, kind) && StoreKey(s, c, kind) == (u, v, kind, says) && Evidenced(input, (u, v, kind, says));
  }

  /** The edges are exactly those that an endpoint, a matched route or a store explains. */
  lemma EdgesIff(input: Input, keys: set<Key>, key: Key)
    requires EdgesAre(input, keys)
    ensures key in keys <==> exists o :: Explains(input, o, key.0, key.1, key.2, key.3)
  {
    if key in keys { var o := EdgeExplained(input, keys, key); }
    if o :| Explains(input, o, key.0, key.1, key.2, key.3) {
      OriginHasEdge(input, keys, o, key.0, key.1, key.2, key.3);
      assert key == (key.0, key.1, key.2, key.3);
    }
  }

  // ----- the laws

  /** Into a topic lead exactly the services that publish to it. */
  lemma IntoTopic(input: Input, keys: set<Key>, u: string, topic: string)
    requires EdgesAre(input, keys)
    ensures Leads(keys, u, TopicNamed(topic)) <==> exists p :: Publishes(input, p, topic) && u == ServiceId(p.service)
    ensures TopicNamed(topic) in Targets(keys, u) <==> Leads(keys, u, TopicNamed(topic))
  {
    if key :| key in keys && key.0 == u && key.1 == TopicNamed(topic) {
      var o := EdgeExplained(input, keys, key);
      ExplainsTopicTarget(input, o, u, topic, key.2, key.3);
    }
    if p :| Publishes(input, p, topic) && u == ServiceId(p.service) {
      var key := (u, TopicNamed(topic), "publishes", Said("publishes", p.endpoint.messageType));
      OriginHasEdge(input, keys, FromEndpoint(p, topic), key.0, key.1, key.2, key.3);
    }
  }

  lemma ExplainsTopicTarget(input: Input, o: Origin, u: string, topic: string, kind: string, says: string)
    requires Explains(input, o, u, TopicNamed(topic), kind, says)
    ensures o.FromEndpoint? && Publishes(input, o.p, topic) && u == ServiceId(o.p.service) && kind == "publishes"
  {
    match o
    case FromRoute(e) => KindsDiffer(topic, e.target);
    case FromEndpoint(p, t) =>
      KindsDiffer(topic, p.service);
      SameName("topic:", t, topic);
    case FromCall(p, t) => KindsDiffer(topic, t);
    case FromStranded(p) => KindsDiffer(p.endpoint.topic, topic);
    case FromStore(s, c) => CollectionsDiffer(s, c, topic);
  }

  /** A topic leads exactly to the services that consume it. */
  lemma OutOfTopic(input: Input, keys: set<Key>, topic: string, v: string)
    requires EdgesAre(input, keys)
    ensures Leads(keys, TopicNamed(topic), v) <==> exists p :: Consumes(input, p, topic) && v == ServiceId(p.service)
    ensures v in Targets(keys, TopicNamed(topic)) <==> Leads(keys, TopicNamed(topic), v)
  {
    if key :| key in keys && key.0 == TopicNamed(topic) && key.1 == v {
      var o := EdgeExplained(input, keys, key);
      ExplainsTopicSource(input, o, topic, v, key.2, key.3);
    }
    if p :| Consumes(input, p, topic) && v == ServiceId(p.service) {
      var key := (TopicNamed(topic), v, "consumes", Said("consumes", p.endpoint.messageType));
      OriginHasEdge(input, keys, FromEndpoint(p, topic), key.0, key.1, key.2, key.3);
    }
  }

  lemma ExplainsTopicSource(input: Input, o: Origin, topic: string, v: string, kind: string, says: string)
    requires Explains(input, o, TopicNamed(topic), v, kind, says)
    ensures o.FromEndpoint? && Consumes(input, o.p, topic) && v == ServiceId(o.p.service) && kind == "consumes"
  {
    match o
    case FromRoute(e) => KindsDiffer(topic, e.source);
    case FromEndpoint(p, t) =>
      KindsDiffer(topic, p.service);
      SameName("topic:", t, topic);
    case FromCall(p, t) => KindsDiffer(topic, p.service);
    case FromStranded(p) => KindsDiffer(topic, p.service);
    case FromStore(s, c) => KindsDiffer(topic, s);
  }

  /** A service leads to another exactly if it calls it, and never the other way round. */
  lemma BetweenServices(input: Input, keys: set<Key>, source: string, target: string)
    requires EdgesAre(input, keys)
    ensures Leads(keys, ServiceId(source), ServiceId(target)) <==> CallsService(input, source, target)
    ensures ServiceId(target) in Targets(keys, ServiceId(source)) <==> Leads(keys, ServiceId(source), ServiceId(target))
  {
    if key :| key in keys && key.0 == ServiceId(source) && key.1 == ServiceId(target) {
      var o := EdgeExplained(input, keys, key);
      ExplainsCall(input, o, source, target, key.2, key.3);
    }
    if e :| Routed(input, e) && e.source == source && e.target == target {
      var key := (ServiceId(source), ServiceId(target), "http", target + ": " + (if e.to.Some? then e.to.value.topic else "API"));
      OriginHasEdge(input, keys, FromRoute(e), key.0, key.1, key.2, key.3);
    }
    if p :| Addresses(input, p, target) && p.service == source {
      var key := (ServiceId(source), ServiceId(target), "http", target + ": " + "API");
      OriginHasEdge(input, keys, FromCall(p, target), key.0, key.1, key.2, key.3);
    }
  }

  lemma ExplainsCall(input: Input, o: Origin, source: string, target: string, kind: string, says: string)
    requires Explains(input, o, ServiceId(source), ServiceId(target), kind, says)
    ensures CallsService(input, source, target) && kind == "http"
  {
    match o
    case FromRoute(e) =>
      SameName("microservice:", e.source, source);
      SameName("microservice:", e.target, target);
    case FromEndpoint(p, t) =>
      KindsDiffer(t, target);
      KindsDiffer(t, source);
    case FromCall(p, t) =>
      SameName("microservice:", p.service, source);
      SameName("microservice:", t, target);
    case FromStranded(p) => KindsDiffer(p.endpoint.topic, target);
    case FromStore(s, c) => CollectionsDiffer(s, c, target);
  }

  /** Into an unmatched API lead exactly the services whose calls go nowhere known. */
  lemma IntoApi(input: Input, keys: set<Key>, u: string, topic: string)
    requires EdgesAre(input, keys)
    ensures Leads(keys, u, ApiId(topic)) <==> exists p :: Strands(input, p) && p.endpoint.topic == topic && u == ServiceId(p.service)
  {
    if key :| key in keys && key.0 == u && key.1 == ApiId(topic) {
      var o := EdgeExplained(input, keys, key);
      ExplainsApi(input, o, u, topic, key.2, key.3);
    }
    if p :| Strands(input, p) && p.endpoint.topic == topic && u == ServiceId(p.service) {
      var key := (u, ApiId(topic), "calls_external", topic);
      OriginHasEdge(input, keys, FromStranded(p), key.0, key.1, key.2, key.3);
    }
  }

  lemma ExplainsApi(input: Input, o: Origin, u: string, topic: string, kind: string, says: string)
    requires Explains(input, o, u, ApiId(topic), kind, says)
    ensures o.FromStranded? && o.p.endpoint.topic == topic
  {
    match o
    case FromRoute(e) => KindsDiffer(topic, e.target);
    case FromEndpoint(p, t) =>
      KindsDiffer(topic, t);
      KindsDiffer(topic, p.service);
    case FromCall(p, t) => KindsDiffer(topic, t);
    case FromStranded(p) => SameName("external_api:", p.endpoint.topic, topic);
    case FromStore(s, c) => CollectionsDiffer(s, c, topic);
  }

  /** Into a collection leads exactly the service that stores it, or one whose own collection
      has the same id. */
  lemma IntoCollection(input: Input, keys: set<Key>, u: string, service: string, collection: string)
    requires EdgesAre(input, keys)
    ensures Leads(keys, u, CollectionId(service, collection)) <==>
      exists s, c :: UsesCollection(input, s, c) && CollectionId(s, c) == CollectionId(service, collection) && u == ServiceId(s)
  {
    var v := CollectionId(service, collection);
    if key :| key in keys && key.0 == u && key.1 == v {
      var o := EdgeExplained(input, keys, key);
      ExplainsCollection(input, o, u, service, collection, key.2, key.3);
      assert UsesCollection(input, o.service, o.collection);
    }
    if s, c :| UsesCollection(input, s, c) && CollectionId(s, c) == v && u == ServiceId(s) {
      var operation :| operation in input.stores[s][c];
      var key := (u, v, operation, operation);
      OriginHasEdge(input, keys, FromStore(s, c), key.0, key.1, key.2, key.3);
    }
  }

  lemma ExplainsCollection(input: Input, o: Origin, u: string, service: string, collection: string, kind: string, says: string)
    requires Explains(input, o, u, CollectionId(service, collection), kind, says)
    ensures o.FromStore?
  {
    match o
    case FromRoute(e) => CollectionsDiffer(service, collection, e.target);
    case FromEndpoint(p, t) =>
      CollectionsDiffer(service, collection, t);
      CollectionsDiffer(service, collection, p.service);
    case FromCall(p, t) => CollectionsDiffer(service, collection, t);
    case FromStranded(p) => CollectionsDiffer(service, collection, p.endpoint.topic);
    case FromStore(s, c) =>
  }

  /** Each pair that the service graph joins is a path of the topology, in the direction of the
      messages: producer, topic, consumer. */
  lemma PairIsWalk(input: Input, nodes: map<string, DependencyNode>, keys: set<Key>, p: Placed, c: Placed)
    requires EdgesAre(input, keys) && (forall key :: key in keys ==> key.0 in nodes && key.1 in nodes)
    requires input.graph.Pairs(p, c)
    ensures IsWalk(EventGraph(nodes, keys), [ServiceId(p.service), TopicNamed(p.endpoint.topic), ServiceId(c.service)],
                   ServiceId(p.service), ServiceId(c.service))
  {
    var g, topic := EventGraph(nodes, keys), TopicNamed(p.endpoint.topic);
    assert Publishes(input, p, p.endpoint.topic) && Consumes(input, c, p.endpoint.topic);
    IntoTopic(input, keys, ServiceId(p.service), p.endpoint.topic);
    OutOfTopic(input, keys, p.endpoint.topic, ServiceId(c.service));
    assert topic in Targets(keys, ServiceId(p.service)) && ServiceId(c.service) in Targets(keys, topic);
    assert topic in Succ(g, ServiceId(p.service)) && ServiceId(c.service) in Succ(g, topic);
  }
}
