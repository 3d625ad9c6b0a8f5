/** The edges between services, read off the endpoints and their evidence (domain/graph.py). */
module GraphLaws {
  import opened Wrappers
  import opened RouteMatching
  import RouteSelection
  import RouteSpecificity
  import opened ServiceGraph

  // ----- Kafka

  /** A static Kafka endpoint of that role. A service with a manifest has only those of it. */
  ghost predicate OnBroker(input: Input, p: Placed, role: string) {
    && p in input.placed && p.endpoint.system == "kafka" && p.endpoint.role == role && !p.endpoint.topicDynamic
    && forall q :: q in input.placed && q.service == p.service && q.endpoint.system == "kafka" && q.endpoint.source == "manifest" ==> p.endpoint.source == "manifest"
  }

  /** A producer and a consumer of one topic in two services, whose message types do not conflict. */
  ghost predicate Exchange(input: Input, p: Placed, c: Placed) {
    && OnBroker(input, p, "produce") && OnBroker(input, c, "consume") && p.service != c.service
    && p.endpoint.topic == c.endpoint.topic && !input.ev.conflict(p.endpoint.messageType, c.endpoint.messageType)
  }

  lemma ExchangeIff(input: Input, p: Placed, c: Placed)
    ensures input.Pairs(p, c) <==> Exchange(input, p, c)
  {
    ManifestIff(input, p);
    ManifestIff(input, c);
  }

  lemma ManifestIff(input: Input, p: Placed)
    ensures input.HasManifest(p.service) <==>
      exists q :: q in input.placed && q.service == p.service && q.endpoint.system == "kafka" && q.endpoint.source == "manifest"
  {
  }

  predicate CarriesMessages(e: Edge, p: Placed, c: Placed) {
    e.kind == "kafka" && e.source == p.service && e.target == c.service && e.from.id == p.endpoint.id && e.to.Some? && e.to.value.id == c.endpoint.id
  }

  ghost predicate IsCarried(edges: seq<Edge>, p: Placed, c: Placed) { exists e :: e in edges && CarriesMessages(e, p, c) }

  lemma {:induction false} EdgeOfKey(edges: seq<Edge>, keys: seq<Key>, key: Key) returns (e: Edge)
    requires WellKeyed(edges, keys) && key in keys
    ensures e in edges && KeyFits(key, e)
  {
    var i :| 0 <= i < |keys| && keys[i] == key;
    e := edges[i];
  }

  lemma BuiltKeys(input: Input, edges: seq<Edge>, keys: seq<Key>, rest: nat, kafka: nat)
    requires rest <= kafka <= |edges| && Built(input, edges, keys, rest, kafka)
    ensures WellKeyed(edges, keys) && JoinsExactly(input, keys)
    ensures AllFollow(input, edges[..rest]) && WellKeyed(edges[..rest], keys[..rest])
    ensures Complete(input, edges[..rest], KeySet(keys[..rest]), KeySet(keys))
  {
    forall i | 0 <= i < rest
      ensures edges[..rest][i].source != edges[..rest][i].target && KeyFits(keys[..rest][i], edges[..rest][i]) {}
  }

  ghost predicate IsExchange(input: Input, e: Edge) {
    exists p, c :: Exchange(input, p, c) && CarriesMessages(e, p, c) && e.from == p.endpoint && e.to == Some(c.endpoint)
  }

  /** Every Kafka edge runs from the service of a producer to that of such a consumer. */
  lemma CarriedIsExchange(input: Input, edges: seq<Edge>, keys: seq<Key>, rest: nat, kafka: nat, i: nat)
    requires rest <= kafka <= |edges| && Built(input, edges, keys, rest, kafka) && i < |edges| && edges[i].kind == "kafka"
    ensures IsExchange(input, edges[i])
  {
    EdgeJustified(input, edges, keys, rest, kafka, i);
    assert IsPairEdge(input, edges[i]);
    var p, c :| input.Pairs(p, c) && edges[i] == Edge("kafka", p.service, c.service, p.endpoint, Some(c.endpoint));
    ExchangeIff(input, p, c);
  }

  /** Every producer has an edge to every consumer that its messages reach. */
  lemma MessagesCarried(input: Input, edges: seq<Edge>, keys: seq<Key>, rest: nat, kafka: nat, p: Placed, c: Placed)
    requires rest <= kafka <= |edges| && Built(input, edges, keys, rest, kafka) && Exchange(input, p, c)
    ensures IsCarried(edges, p, c)
  {
    ExchangeIff(input, p, c);
    BuiltKeys(input, edges, keys, rest, kafka);
    PairHasKey(input, keys, p, c);
    var e := EdgeOfKey(edges, keys, input.PairKey(p, c));
    var i :| 0 <= i < |edges| && edges[i] == e;
    CarriedIsExchange(input, edges, keys, rest, kafka, i);
    assert CarriesMessages(e, p, c);
  }

  lemma PairHasKey(input: Input, keys: seq<Key>, p: Placed, c: Placed)
    requires JoinsExactly(input, keys) && input.Pairs(p, c)
    ensures input.PairKey(p, c) in keys
  {
  }

  // ----- REST: the service that a call is led to

  ghost predicate Role(input: Input, p: Placed, role: string) {
    p in input.placed && p.endpoint.system == "rest" && p.endpoint.role == role
  }

  /** The route belongs to the contract that the call names, in another service. */
  ghost predicate AnswersCall(input: Input, call: Placed, p: Placed) {
    && Role(input, p, "serve") && p.endpoint.framework == "openapi" && p.service != call.service
    && PathsMatch(input.ev.fits, call.endpoint.topic, p.endpoint.topic)
    && match input.ev.contract(call.endpoint)
       case None => false
       case Some(contract) => p.endpoint.path == contract || (contract != "" && input.ev.contract(p.endpoint) == Some(contract))
  }

  /** This service answers the contract of the call, and no other one does. */
  ghost predicate AloneAnswers(input: Input, call: Placed, service: string) {
    && (exists p :: AnswersCall(input, call, p) && p.service == service)
    && forall p :: AnswersCall(input, call, p) ==> p.service == service
  }

  ghost predicate IsNamed(input: Input, service: string, hint: string) {
    && service in input.services
    && (input.ev.normal(service) == input.ev.normal(hint)
        || (service in input.aliases && exists alias :: alias in input.aliases[service] && input.ev.normal(alias) == input.ev.normal(hint)))
  }

  /** The hint of a call that is not marked external names this service alone. */
  ghost predicate AloneNamed(input: Input, call: Placed, service: string) {
    && (input.ev.external(call.endpoint).Some? ==> input.ev.external(call.endpoint).value == "")
    && match input.ev.hint(call.endpoint)
       case None => false
       case Some(hint) => IsNamed(input, service, hint) && forall other :: IsNamed(input, other, hint) ==> other == service
  }

  /** The contract leads the call if one service alone answers it, otherwise the hint does. */
  ghost predicate LeadsInto(input: Input, call: Placed, service: string) {
    || AloneAnswers(input, call, service)
    || (AloneNamed(input, call, service) && forall other :: !AloneAnswers(input, call, other))
  }

  lemma AnswersIff(input: Input, call: Placed, service: string)
    ensures input.Answering(call) == {service} <==> AloneAnswers(input, call, service)
  {
    forall p ensures input.Answers(call, p) <==> AnswersCall(input, call, p) {}
    AnsweringAre(input, call);
    if AloneAnswers(input, call, service) { assert input.Answering(call) == {service}; }
    if input.Answering(call) == {service} {
      assert service in input.Answering(call);
      forall p | AnswersCall(input, call, p) ensures p.service == service { assert p.service in input.Answering(call); }
    }
  }

  lemma AnsweringAre(input: Input, call: Placed)
    ensures forall s :: s in input.Answering(call) <==> exists p :: input.Answers(call, p) && p.service == s
  {
    forall s | exists p :: input.Answers(call, p) && p.service == s ensures s in input.Answering(call) {
      var p :| input.Answers(call, p) && p.service == s;
      assert p in input.placed;
    }
  }

  lemma HintedIff(input: Input, call: Placed, service: string)
    ensures !input.MarkedExternal(call.endpoint) && input.HintedServices(call.endpoint) == {service} <==> AloneNamed(input, call, service)
  {
    if input.ev.hint(call.endpoint).Some? {
      var hint, named := input.ev.hint(call.endpoint).value, input.HintedServices(call.endpoint);
      forall s ensures s in named <==> IsNamed(input, s, hint) {}
      if named == {service} { assert service in named; }
      if IsNamed(input, service, hint) && forall other :: IsNamed(input, other, hint) ==> other == service { assert named == {service}; }
    }
  }

  lemma DesignatedIff(input: Input, call: Placed, service: string)
    ensures input.Designated(call) == {service} <==> LeadsInto(input, call, service)
  {
    forall s ensures input.Answering(call) == {s} <==> AloneAnswers(input, call, s) { AnswersIff(input, call, s); }
    HintedIff(input, call, service);
    if input.ByContract(call) {
      var s :| s in input.Answering(call) && input.Answering(call) == {s};
      assert AloneAnswers(input, call, s);
    } else {
      forall s ensures !AloneAnswers(input, call, s) { NotSingle(input.Answering(call), s); }
      assert {} != {service} by { assert service in {service}; }
    }
  }

  lemma NotSingle(services: set<string>, s: string)
    requires !Single(services)
    ensures services != {s}
  {
    assert s in {s};
  }

  // ----- REST: the routes it reaches there

  ghost predicate IsRouteOf(input: Input, service: string, r: RouteSelection.Route) {
    exists p :: Role(input, p, "serve") && p.service == service && r.id == p.endpoint.id && r.topic == p.endpoint.topic
  }

  lemma {:induction false} RoutesAre(input: Input, service: string, placed: seq<Placed>)
    requires forall p :: p in placed ==> p in input.placed
    ensures forall r :: r in input.RoutesOf(service, placed) <==>
      exists p :: p in placed && Role(input, p, "serve") && p.service == service && r.id == p.endpoint.id && r.topic == p.endpoint.topic
    decreases |placed|
  {
    if placed != [] {
      var n := |placed| - 1;
      assert placed == placed[..n] + [placed[n]];
      RoutesAre(input, service, placed[..n]);
    }
  }

  /** A route of this id matches the call, and no more specific one of the service shuts it out. */
  ghost predicate IsChosen(input: Input, call: Placed, serve: Placed) {
    exists r :: IsRouteOf(input, serve.service, r) && r.id == serve.endpoint.id && PathsMatch(input.ev.fits, call.endpoint.topic, r.topic)
      && RouteSpecificity.Survives(RouteSelection.Query(input.ev.fits, call.endpoint.topic), input.RoutesOf(serve.service, input.placed), r)
  }

  lemma ChosenIff(input: Input, call: Placed, serve: Placed)
    ensures input.Selects(call.endpoint, serve) <==> IsChosen(input, call, serve)
  {
    var q, routes := RouteSelection.Query(input.ev.fits, call.endpoint.topic), input.RoutesOf(serve.service, input.placed);
    RoutesAre(input, serve.service, input.placed);
    forall r ensures r in routes <==> IsRouteOf(input, serve.service, r) {
      if IsRouteOf(input, serve.service, r) {
        var p :| Role(input, p, "serve") && p.service == serve.service && r.id == p.endpoint.id && r.topic == p.endpoint.topic;
        assert p in input.placed;
      }
    }
    forall r ensures r in RouteSelection.Selected(q, routes) <==>
      r in routes && PathsMatch(q.fits, q.call, r.topic) && RouteSpecificity.Survives(q, routes, r)
    {
      RouteSpecificity.SelectedIff(q, routes, r);
    }
  }

  /** A typed client without a route of its own takes any route of its host that its method allows. */
  predicate Adopts(input: Input, call: Endpoint, serve: Endpoint) {
    && call.topicDynamic && input.ev.domain(call).Some? && !PathsMatch(input.ev.fits, call.topic, serve.topic)
    && call.framework != "resttemplate" && call.framework != "webclient" && call.framework != "restclient"
    && call.framework != "http-interface" && call.framework != "feign"
    && (Method(call.topic) == Method(serve.topic) || Method(call.topic) == "ANY" || Method(serve.topic) == "ANY")
  }

  ghost predicate FirstToAnswer(input: Input, call: Placed, serve: Placed) {
    exists i :: 0 <= i < |input.placed| && input.placed[i] == serve && AnswersCall(input, call, serve)
      && forall j :: 0 <= j < i ==> !AnswersCall(input, call, input.placed[j])
  }

  /** The call leads to this route of another service. */
  ghost predicate ReachesRoute(input: Input, call: Placed, serve: Placed) {
    && Role(input, call, "call") && Role(input, serve, "serve") && serve.service != call.service && LeadsInto(input, call, serve.service)
    && if AloneAnswers(input, call, serve.service) then FirstToAnswer(input, call, serve)
       else IsChosen(input, call, serve) || Adopts(input, call.endpoint, serve.endpoint)
  }

  lemma ContractIff(input: Input, call: Placed, service: string)
    requires LeadsInto(input, call, service)
    ensures input.ByContract(call) <==> AloneAnswers(input, call, service)
  {
    AnswersIff(input, call, service);
    if input.ByContract(call) {
      var s :| s in input.Answering(call) && input.Answering(call) == {s};
      AnswersIff(input, call, s);
    } else {
      NotSingle(input.Answering(call), service);
    }
  }

  lemma ReachesIff(input: Input, call: Placed, serve: Placed)
    ensures input.Links(call, serve) <==> ReachesRoute(input, call, serve)
  {
    DesignatedIff(input, call, serve.service);
    if LeadsInto(input, call, serve.service) { ContractIff(input, call, serve.service); }
    ChosenIff(input, call, serve);
    forall p ensures input.Answers(call, p) <==> AnswersCall(input, call, p) {}
    assert input.IsFirstAnswer(call, serve) <==> FirstToAnswer(input, call, serve);
  }

  // ----- REST: the edges

  /** An edge to the route; a call that adopts it shows the route's topic. */
  ghost predicate IsRouteEdge(input: Input, e: Edge, call: Placed, serve: Placed) {
    && ReachesRoute(input, call, serve) && e.kind == "rest" && e.source == call.service && e.target == serve.service
    && e.to == Some(serve.endpoint)
    && e.from == if AloneAnswers(input, call, serve.service) || IsChosen(input, call, serve) then call.endpoint
                 else call.endpoint.(topic := serve.endpoint.topic, topicDynamic := false)
  }

  /** Every edge to a route comes from a call that leads there on its evidence. */
  lemma RouteEdgeMeans(input: Input, edges: seq<Edge>, keys: seq<Key>, rest: nat, kafka: nat, i: nat)
    requires rest <= kafka <= |edges| && Built(input, edges, keys, rest, kafka) && i < |edges|
    requires edges[i].kind == "rest" && edges[i].to.Some?
    ensures exists call, serve :: IsRouteEdge(input, edges[i], call, serve)
  {
    EdgeJustified(input, edges, keys, rest, kafka, i);
    var call, serve :| FollowsBy(input, edges[i], call, serve);
    ReachesIff(input, call, serve);
    ContractIff(input, call, serve.service);
    ChosenIff(input, call, serve);
    assert IsRouteEdge(input, edges[i], call, serve);
  }

  predicate IsGateway(call: Endpoint) {
    call.framework == "spring-cloud-gateway" && |call.topic| >= 4 && call.topic[0] == 'A' && call.topic[1] == 'N' && call.topic[2] == 'Y' && call.topic[3] == ' '
  }

  ghost predicate HasRouteEdge(edges: seq<Edge>, call: Placed, serve: Placed) {
    exists e :: e in edges && e.kind == "rest" && e.source == call.service && e.target == serve.service && e.from.id == call.endpoint.id
      && e.to.Some? && e.to.value.id == serve.endpoint.id
  }

  ghost predicate HasServiceEdge(edges: seq<Edge>, call: Placed, service: string) {
    exists e :: e in edges && e.kind == "rest" && e.target == service && e.from.id == call.endpoint.id
  }

  /** Every route that a call leads to has its edge; a gateway that no contract leads has one
      edge to the service. */
  lemma RoutesHaveEdges(input: Input, edges: seq<Edge>, keys: seq<Key>, rest: nat, kafka: nat, call: Placed, serve: Placed)
    requires rest <= kafka <= |edges| && Built(input, edges, keys, rest, kafka) && ReachesRoute(input, call, serve)
    ensures if IsGateway(call.endpoint) && !AloneAnswers(input, call, serve.service)
      then HasServiceEdge(edges, call, serve.service) else HasRouteEdge(edges, call, serve)
  {
    ReachesIff(input, call, serve);
    ContractIff(input, call, serve.service);
    GatewayIff(call.endpoint);
    BuiltKeys(input, edges, keys, rest, kafka);
    assert LinkedOne(input, KeySet(keys[..rest]), call, serve);
    LinkHasEdge(input, edges[..rest], keys[..rest], call, serve);
    assert edges[..rest] <= edges;
    StillThere(edges[..rest], edges, call, serve);
  }

  lemma LinkHasEdge(input: Input, edges: seq<Edge>, keys: seq<Key>, call: Placed, serve: Placed)
    requires WellKeyed(edges, keys) && AllFollow(input, edges) && LinkedOne(input, KeySet(keys), call, serve) && input.Links(call, serve)
    ensures if Proxied(input, call) then HasServiceEdge(edges, call, serve.service) else HasRouteEdge(edges, call, serve)
  {
    var key :| key in keys && key.0 == "rest" && key.2 == serve.service && key.3 == call.endpoint.id &&
      (!Proxied(input, call) ==> key == Rest(call.service, serve.service, call.endpoint, serve.endpoint));
    var e := EdgeOfKey(edges, keys, key);
    var i :| 0 <= i < |edges| && edges[i] == e;
    assert FollowsEvidence(input, edges[i]);
  }

  lemma StillThere(before: seq<Edge>, edges: seq<Edge>, call: Placed, serve: Placed)
    requires before <= edges
    ensures HasServiceEdge(before, call, serve.service) ==> HasServiceEdge(edges, call, serve.service)
    ensures HasRouteEdge(before, call, serve) ==> HasRouteEdge(edges, call, serve)
  {
  }

  lemma GatewayIff(call: Endpoint)
    ensures IsGatewayProxy(call) <==> IsGateway(call)
  {
    if |call.topic| >= 4 { assert call.topic[..4] == "ANY " <==> call.topic[0] == 'A' && call.topic[1] == 'N' && call.topic[2] == 'Y' && call.topic[3] == ' '; }
  }

  /** A gateway call with an id of its own that no contract leads has one edge to a route at most. */
  lemma GatewayHasOneEdge(input: Input, edges: seq<Edge>, keys: seq<Key>, rest: nat, kafka: nat, call: Placed, i: nat, j: nat)
    requires rest <= kafka <= |edges| && Built(input, edges, keys, rest, kafka)
    requires Role(input, call, "call") && IsGateway(call.endpoint) && (forall s :: !AloneAnswers(input, call, s))
    requires forall other :: Role(input, other, "call") && other.endpoint.id == call.endpoint.id ==> other == call
    requires i < rest && j < rest && edges[i].from.id == edges[j].from.id == call.endpoint.id
    ensures i == j
  {
    SoleGateway(input, call);
    assert OneEdge(edges[..rest], call.endpoint.id);
    assert edges[..rest][i] == edges[i] && edges[..rest][j] == edges[j];
  }

  lemma SoleGateway(input: Input, call: Placed)
    requires Role(input, call, "call") && IsGateway(call.endpoint) && (forall s :: !AloneAnswers(input, call, s))
    requires forall other :: Role(input, other, "call") && other.endpoint.id == call.endpoint.id ==> other == call
    ensures SoleProxy(input, call)
  {
    GatewayIff(call.endpoint);
    if input.ByContract(call) {
      var s :| s in input.Answering(call) && input.Answering(call) == {s};
      AnswersIff(input, call, s);
    }
    forall other | input.IsCall(other) && other.endpoint.id == call.endpoint.id ensures other == call { assert Role(input, other, "call"); }
  }

  // ----- REST: edges without a route

  /** The call names a service outside, or an indexed host to which no route leads it. */
  ghost predicate NamesHost(input: Input, routes: seq<Edge>, e: Edge, call: Placed) {
    && Role(input, call, "call") && e.kind == "rest" && e.source == call.service && e.from == call.endpoint && e.to == None
    && (input.ev.external(call.endpoint) == Some(e.target)
        || (input.ev.domain(call.endpoint) == Some(e.target) && e.target in input.services && !IsLedByHost(input, routes, call, e.target)))
  }

  ghost predicate IsLedByHost(input: Input, routes: seq<Edge>, call: Placed, host: string) {
    exists e :: e in routes && e.kind == "rest" && e.from.id == call.endpoint.id && e.target == host && input.ev.domain(e.from).Some?
  }

  lemma LedIff(input: Input, routes: seq<Edge>, call: Placed, host: string)
    ensures (call.endpoint.id, host) in Resolved(input, routes) <==> IsLedByHost(input, routes, call, host)
  {
  }

  /** An edge without a route comes from a call that names an indexed host or a service outside. */
  lemma HostEdgeMeans(input: Input, edges: seq<Edge>, keys: seq<Key>, rest: nat, kafka: nat, i: nat)
    requires rest <= kafka <= |edges| && Built(input, edges, keys, rest, kafka) && i < |edges| && edges[i].to.None?
    ensures exists call :: NamesHost(input, edges[..rest], edges[i], call)
  {
    EdgeJustified(input, edges, keys, rest, kafka, i);
    var call :| Marks(input, edges[..rest], edges[i], call);
    LedIff(input, edges[..rest], call, edges[i].target);
    assert NamesHost(input, edges[..rest], edges[i], call);
  }

  ghost predicate Joined(edges: seq<Edge>, source: string, target: string) {
    exists e :: e in edges && e.kind == "rest" && e.source == source && e.target == target
  }

  ghost predicate IsLed(edges: seq<Edge>, call: Placed, target: string) {
    exists e :: e in edges && e.kind == "rest" && e.from.id == call.endpoint.id && e.target == target
  }

  /** A call that names an indexed host or a service outside, other than its own, leads there. */
  lemma HostsHaveEdges(input: Input, edges: seq<Edge>, keys: seq<Key>, rest: nat, kafka: nat, call: Placed, host: string)
    requires rest <= kafka <= |edges| && Built(input, edges, keys, rest, kafka) && Role(input, call, "call") && host != call.service
    requires (input.ev.domain(call.endpoint) == Some(host) && host in input.services) || input.ev.external(call.endpoint) == Some(host)
    ensures Joined(edges, call.service, host) || IsLed(edges, call, host)
  {
    BuiltKeys(input, edges, keys, rest, kafka);
    var k :| 0 <= k < |input.placed| && input.placed[k] == call;
    assert LeadsOutside(input, KeySet(keys), input.placed[k]) && Connected(input, edges[..rest], KeySet(keys), input.placed[k]);
    if (call.endpoint.id, host) in Resolved(input, edges[..rest]) {
      var e :| e in edges[..rest] && e.kind == "rest" && e.from.id == call.endpoint.id && e.target == host;
      assert e in edges;
    } else {
      var key :| key in keys && (key == Configured(call.service, host) || key == External(call.service, host));
      var e := EdgeOfKey(edges, keys, key);
    }
  }
}
