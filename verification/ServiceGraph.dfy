/** The edges between services derived from their endpoints (domain/graph.py). */
module ServiceGraph {
  import opened Wrappers
  import opened Basics
  import opened RouteMatching
  import RouteSelection

  datatype Endpoint = Endpoint(
    id: string, system: string, role: string, topic: string, topicDynamic: bool,
    source: string, framework: string, path: string, messageType: Option<string>)

  /** An endpoint and the service it belongs to. */
  datatype Placed = Placed(service: string, endpoint: Endpoint)

  datatype Edge = Edge(kind: string, source: string, target: string, from: Endpoint, to: Option<Endpoint>)

  function Qualified(service: string, resource: string): string { service + ": " + resource }

  /** `graph_edge_rest_resource`: the route, or the service's API as a whole. */
  function RestResource(e: Edge): string { Qualified(e.target, if e.to.Some? then e.to.value.topic else "API") }

  type Key = (string, string, string, string, string)

  /** What the scanner's markers and the injected policy say about an endpoint; the texts
      they read are not part of the model. */
  datatype Evidence = Evidence(
    contract: Endpoint -> Option<string>, domain: Endpoint -> Option<string>,
    hint: Endpoint -> Option<string>, external: Endpoint -> Option<string>,
    fits: Constraint, normal: string -> string, conflict: (Option<string>, Option<string>) -> bool)

  predicate Single(s: set<string>) { exists x | x in s :: s == {x} }

  lemma OneService(services: set<string>)
    ensures Single(services) <==> |services| == 1
  {
    if |services| == 1 {
      var x :| x in services;
      assert |services - {x}| == 0;
      assert services == {x};
    }
  }

  datatype Input = Input(services: set<string>, aliases: map<string, seq<string>>, placed: seq<Placed>, ev: Evidence) {
    // ----- REST targets

    predicate IsCall(p: Placed) { p in placed && p.endpoint.system == "rest" && p.endpoint.role == "call" }

    predicate IsServe(p: Placed) { p in placed && p.endpoint.system == "rest" && p.endpoint.role == "serve" }

    predicate ServesContract(p: Placed, contract: string) {
      && IsServe(p) && p.endpoint.framework == "openapi"
      && (p.endpoint.path == contract || (ev.contract(p.endpoint) == Some(contract) && contract != ""))
    }

    predicate AnswersContract(call: Placed, contract: string, p: Placed) {
      ServesContract(p, contract) && p.service != call.service && PathsMatch(ev.fits, call.endpoint.topic, p.endpoint.topic)
    }

    function ContractServices(call: Placed, contract: string): set<string> {
      set p | p in placed && AnswersContract(call, contract, p) :: p.service
    }

    predicate HasAlias(service: string, name: string) {
      || ev.normal(service) == ev.normal(name)
      || (service in aliases && exists alias | alias in aliases[service] :: ev.normal(alias) == ev.normal(name))
    }

    function HintedServices(call: Endpoint): set<string> {
      match ev.hint(call)
      case None => {}
      case Some(hint) => set s | s in services && HasAlias(s, hint)
    }

    predicate MarkedExternal(call: Endpoint) {
      ev.external(call).Some? && ev.external(call).value != ""
    }

    /** The services that answer the contract of a call, if it has one. */
    function Answering(call: Placed): set<string> {
      match ev.contract(call.endpoint)
      case Some(contract) => ContractServices(call, contract)
      case None => {}
    }

    /** The contract decides only when exactly one service answers it. */
    predicate ByContract(call: Placed) { Single(Answering(call)) }

    /** The services that the evidence of a call designates; only a single one is trusted. */
    function Designated(call: Placed): set<string> {
      if ByContract(call) then Answering(call)
      else if MarkedExternal(call.endpoint) then {} else HintedServices(call.endpoint)
    }

    /** A typed API client takes the routes of the service it is configured for. */
    predicate TakesRoute(call: Endpoint, serve: Endpoint) {
      && call.topicDynamic && ev.domain(call).Some?
      && call.framework !in {"resttemplate", "webclient", "restclient", "http-interface", "feign"}
      && !PathsMatch(ev.fits, call.topic, serve.topic) && MethodsMatch(call.topic, serve.topic)
    }

    /** The route is among those selected for the call in its service. */
    predicate Selects(call: Endpoint, serve: Placed) {
      var q := RouteSelection.Query(ev.fits, call.topic);
      exists r | r in RouteSelection.Selected(q, RoutesOf(serve.service, placed)) :: r.id == serve.endpoint.id
    }

    function RoutesOf(service: string, endpoints: seq<Placed>): seq<RouteSelection.Route> {
      if endpoints == [] then [] else
        var last := endpoints[|endpoints| - 1];
        RoutesOf(service, endpoints[..|endpoints| - 1]) +
        (if IsServe(last) && last.service == service then [RouteSelection.Route(last.endpoint.id, last.endpoint.topic)] else [])
    }

    predicate Answers(call: Placed, p: Placed) {
      ev.contract(call.endpoint).Some? && AnswersContract(call, ev.contract(call.endpoint).value, p)
    }

    predicate IsFirstAnswer(call: Placed, serve: Placed) {
      exists i | 0 <= i < |placed| :: placed[i] == serve && Answers(call, placed[i]) && forall j | 0 <= j < i :: !Answers(call, placed[j])
    }

    /** A route of the service that a hint leads to: a selected one, or one that the call takes. */
    predicate Meets(call: Placed, serve: Placed) {
      IsServe(serve) && (Selects(call.endpoint, serve) || TakesRoute(call.endpoint, serve.endpoint))
    }

    /** The call reaches this route of the service it designates. */
    predicate Reaches(call: Placed, serve: Placed) {
      if ByContract(call) then IsFirstAnswer(call, serve) else Meets(call, serve)
    }

    predicate Links(call: Placed, serve: Placed) {
      IsCall(call) && Designated(call) == {serve.service} && serve.service != call.service && Reaches(call, serve)
    }

    /** The call as its edge shows it: a call that takes a route shows that route. */
    function Shown(call: Placed, serve: Placed): Endpoint {
      if !ByContract(call) && !Selects(call.endpoint, serve)
      then call.endpoint.(topic := serve.endpoint.topic, topicDynamic := false) else call.endpoint
    }

    // ----- Kafka pairs

    predicate HasManifest(service: string) {
      exists p | p in placed :: p.service == service && p.endpoint.system == "kafka" && p.endpoint.source == "manifest"
    }

    /** A manifest replaces what was detected in the code of its service. */
    predicate Counts(p: Placed) {
      p in placed && p.endpoint.system == "kafka" && (HasManifest(p.service) ==> p.endpoint.source == "manifest")
    }

    predicate Produces(p: Placed) { Counts(p) && p.endpoint.role == "produce" && !p.endpoint.topicDynamic }

    predicate Consumes(p: Placed) { Counts(p) && p.endpoint.role == "consume" && !p.endpoint.topicDynamic }

    /** One pair of the nested loops over all endpoints. */
    predicate Pairs(p: Placed, c: Placed) {
      && Produces(p) && Consumes(c) && p.endpoint.topic == c.endpoint.topic && p.service != c.service
      && !ev.conflict(p.endpoint.messageType, c.endpoint.messageType)
    }

    function PairKey(p: Placed, c: Placed): Key { ("kafka", p.service, c.service, p.endpoint.id, c.endpoint.id) }
  }

  // ----- the list of edges

  /** The key of an edge: its end points, or a marker where the target route is unknown. */
  predicate KeyFits(key: Key, e: Edge) {
    && key.0 == e.kind && key.1 == e.source && key.2 == e.target
    && match e.to
       case Some(to) => key.3 == e.from.id && key.4 == to.id
       case None => key.3 in {"configured-api", "configured-external"} && key.4 == ""
  }

  /** `edges` and `seen`. */
  class Builder {
    var edges: seq<Edge>
    var seen: set<Key>
    ghost var keys: seq<Key>

    /** No edge from a service to itself and no two edges with one key. */
    ghost predicate Valid()
      reads this
    {
      && |keys| == |edges|
      && (forall key :: key in seen <==> key in keys)
      && (forall i, j :: 0 <= i < j < |keys| ==> keys[i] != keys[j])
      && (forall i :: 0 <= i < |edges| ==> edges[i].source != edges[i].target && KeyFits(keys[i], edges[i]))
    }

    constructor ()
      ensures Valid() && edges == [] && seen == {}
    {
      edges, seen, keys := [], {}, [];
    }

    method Emit(key: Key, e: Edge)
      requires Valid() && e.source != e.target && KeyFits(key, e)
      modifies this
      ensures Valid() && seen == old(seen) + {key}
      ensures edges == if key in old(seen) then old(edges) else old(edges) + [e]
      ensures keys == if key in old(seen) then old(keys) else old(keys) + [key]
    {
      if key in seen { return; }
      seen := seen + {key};
      edges := edges + [e];
      keys := keys + [key];
    }
  }

  // ----- first pass: calls whose evidence designates one service

  function Rest(source: string, target: string, call: Endpoint, serve: Endpoint): Key {
    ("rest", source, target, call.id, serve.id)
  }

  predicate IsGatewayProxy(call: Endpoint) {
    call.framework == "spring-cloud-gateway" && |call.topic| >= 4 && call.topic[..4] == "ANY "
  }

  /** The edge joins a call with a route that it reaches in the service it designates. */
  ghost predicate FollowsEvidence(input: Input, e: Edge) {
    exists call, serve :: FollowsBy(input, e, call, serve)
  }

  ghost predicate FollowsBy(input: Input, e: Edge, call: Placed, serve: Placed) {
    && input.Links(call, serve)
    && e == Edge("rest", call.service, serve.service, input.Shown(call, serve), Some(serve.endpoint))
  }

  ghost predicate AllFollow(input: Input, edges: seq<Edge>) {
    forall i :: 0 <= i < |edges| ==> FollowsEvidence(input, edges[i])
  }

  ghost predicate RestOnly(seen: set<Key>) { forall key :: key in seen ==> key.0 == "rest" }

  ghost predicate Passing(input: Input, b: Builder)
    reads b
  {
    b.Valid() && AllFollow(input, b.edges) && RestOnly(b.seen)
  }

  method EmitRest(input: Input, b: Builder, call: Placed, serve: Placed)
    requires Passing(input, b) && input.Links(call, serve)
    modifies b
    ensures Passing(input, b) && b.seen == old(b.seen) + {Rest(call.service, serve.service, call.endpoint, serve.endpoint)}
  {
    var e := Edge("rest", call.service, serve.service, input.Shown(call, serve), Some(serve.endpoint));
    assert FollowsBy(input, e, call, serve);
    b.Emit(Rest(call.service, serve.service, call.endpoint, serve.endpoint), e);
  }

  // ----- gateway proxies: one edge stands for all routes of a service

  /** A gateway call that no contract ties to one route. */
  predicate Proxied(input: Input, call: Placed) {
    IsGatewayProxy(call.endpoint) && !input.ByContract(call)
  }

  /** No other call has its id. */
  ghost predicate SoleProxy(input: Input, call: Placed) {
    && input.IsCall(call) && Proxied(input, call)
    && forall other :: input.IsCall(other) && other.endpoint.id == call.endpoint.id ==> other == call
  }

  /** Some edge leads from the call of this id to the service. */
  ghost predicate LeadsTo(seen: set<Key>, id: string, service: string) {
    exists key :: key in seen && key.0 == "rest" && key.2 == service && key.3 == id
  }

  ghost predicate OneKey(seen: set<Key>, id: string) {
    forall a, b :: a in seen && b in seen && a.3 == b.3 == id && a.2 == b.2 ==> a == b
  }

  ghost predicate NotedFor(seen: set<Key>, proxies: set<(string, string)>, id: string) {
    forall key :: key in seen && key.3 == id ==> (id, key.2) in proxies
  }

  /** `gateway_proxy_targets` notes the services that gateway calls already lead to. */
  ghost predicate Noted(input: Input, seen: set<Key>, proxies: set<(string, string)>) {
    && (forall pr :: pr in proxies ==> LeadsTo(seen, pr.0, pr.1))
    && (forall call :: SoleProxy(input, call) ==> NotedFor(seen, proxies, call.endpoint.id) && OneKey(seen, call.endpoint.id))
  }

  lemma NotedEmit(input: Input, seen: set<Key>, proxies: set<(string, string)>, call: Placed, serve: Placed, more: set<(string, string)>)
    requires Noted(input, seen, proxies) && input.IsCall(call)
    requires if Proxied(input, call) then (call.endpoint.id, serve.service) !in proxies && more == proxies + {(call.endpoint.id, serve.service)}
             else more == proxies
    ensures Noted(input, seen + {Rest(call.service, serve.service, call.endpoint, serve.endpoint)}, more)
  {
    var key := Rest(call.service, serve.service, call.endpoint, serve.endpoint);
    forall pr | pr in more ensures LeadsTo(seen + {key}, pr.0, pr.1) {
      if pr in proxies {
        var k :| k in seen && k.0 == "rest" && k.2 == pr.1 && k.3 == pr.0;
        assert k in seen + {key};
      } else {
        assert key in seen + {key};
      }
    }
    forall c | SoleProxy(input, c) ensures NotedFor(seen + {key}, more, c.endpoint.id) && OneKey(seen + {key}, c.endpoint.id) {
      assert NotedFor(seen, proxies, c.endpoint.id) && OneKey(seen, c.endpoint.id);
      if c.endpoint.id == call.endpoint.id { assert c == call; }
    }
  }

  /** Every route that the call reaches has its edge; for a proxy, its service has one. */
  ghost predicate Linked(input: Input, seen: set<Key>, call: Placed) {
    forall serve :: LinkedOne(input, seen, call, serve)
  }

  ghost predicate LinkedOne(input: Input, seen: set<Key>, call: Placed, serve: Placed) {
    input.Links(call, serve) ==>
      if Proxied(input, call) then LeadsTo(seen, call.endpoint.id, serve.service)
      else Rest(call.service, serve.service, call.endpoint, serve.endpoint) in seen
  }

  lemma LinkedOneStill(input: Input, before: set<Key>, seen: set<Key>, call: Placed, serve: Placed)
    requires LinkedOne(input, before, call, serve) && before <= seen
    ensures LinkedOne(input, seen, call, serve)
  {
    if input.Links(call, serve) && Proxied(input, call) {
      var key :| key in before && key.0 == "rest" && key.2 == serve.service && key.3 == call.endpoint.id;
      assert key in seen;
    }
  }

  ghost predicate LinkedAmong(input: Input, seen: set<Key>, call: Placed, serves: seq<Placed>) {
    forall serve :: serve in serves ==> LinkedOne(input, seen, call, serve)
  }

  /** Decides whether the contract designates one service, and if so adds its edge. */
  method ContractEdge(input: Input, b: Builder, call: Placed, contract: string, ghost proxies: set<(string, string)>) returns (decided: bool)
    requires Passing(input, b) && Noted(input, b.seen, proxies) && input.IsCall(call) && input.ev.contract(call.endpoint) == Some(contract)
    modifies b
    ensures Passing(input, b) && Noted(input, b.seen, proxies) && old(b.seen) <= b.seen
    ensures decided <==> input.ByContract(call)
    ensures if decided then Linked(input, b.seen, call) else b.edges == old(b.edges) && b.seen == old(b.seen)
  {
    var targets := input.ContractServices(call, contract);
    OneService(targets);
    decided := |targets| == 1;
    if !decided { return; }
    var i := FirstAnswer(input, call);
    assert input.placed[i].service in targets && input.IsFirstAnswer(call, input.placed[i]);
    NotedEmit(input, b.seen, proxies, call, input.placed[i], proxies);
    EmitRest(input, b, call, input.placed[i]);
    OnlyFirstAnswer(input, b.seen, call, i);
  }

  method FirstAnswer(input: Input, call: Placed) returns (i: nat)
    requires input.ByContract(call)
    ensures i < |input.placed| && input.Answers(call, input.placed[i]) && forall j :: 0 <= j < i ==> !input.Answers(call, input.placed[j])
  {
    i := 0;
    while i < |input.placed| && !input.Answers(call, input.placed[i])
      invariant 0 <= i <= |input.placed|
      invariant forall j :: 0 <= j < i ==> !input.Answers(call, input.placed[j])
    {
      i := i + 1;
    }
    if i == |input.placed| { NoAnswer(input, call); }
  }

  lemma NoAnswer(input: Input, call: Placed)
    requires forall j :: 0 <= j < |input.placed| ==> !input.Answers(call, input.placed[j])
    ensures input.Answering(call) == {}
  {
  }

  lemma OnlyFirstAnswer(input: Input, seen: set<Key>, call: Placed, i: nat)
    requires i < |input.placed| && input.Answers(call, input.placed[i]) && forall j :: 0 <= j < i ==> !input.Answers(call, input.placed[j])
    requires input.ByContract(call) && Rest(call.service, input.placed[i].service, call.endpoint, input.placed[i].endpoint) in seen
    ensures Linked(input, seen, call)
  {
    forall serve | input.Links(call, serve) ensures serve == input.placed[i] {
      assert input.IsFirstAnswer(call, serve);
    }
  }

  method ServeEdge(input: Input, b: Builder, call: Placed, target: string, serve: Placed, proxies: set<(string, string)>)
    returns (proxies': set<(string, string)>)
    requires Passing(input, b) && Noted(input, b.seen, proxies)
    requires input.IsCall(call) && !input.ByContract(call)
    requires input.Designated(call) == {target} && target != call.service
    modifies b
    ensures Passing(input, b) && Noted(input, b.seen, proxies') && old(b.seen) <= b.seen
    ensures LinkedOne(input, b.seen, call, serve)
  {
    proxies' := proxies;
    if !input.IsServe(serve) || serve.service != target { return; }
    if !input.Selects(call.endpoint, serve) && !input.TakesRoute(call.endpoint, serve.endpoint) { return; }
    if IsGatewayProxy(call.endpoint) {
      if (call.endpoint.id, target) in proxies { return; }
      proxies' := proxies + {(call.endpoint.id, target)};
    }
    NotedEmit(input, b.seen, proxies, call, serve, proxies');
    EmitRest(input, b, call, serve);
  }

  method ServeEdges(input: Input, b: Builder, call: Placed, target: string, proxies: set<(string, string)>)
    returns (proxies': set<(string, string)>)
    requires Passing(input, b) && Noted(input, b.seen, proxies)
    requires input.IsCall(call) && !input.ByContract(call)
    requires input.Designated(call) == {target} && target != call.service
    modifies b
    ensures Passing(input, b) && Noted(input, b.seen, proxies') && old(b.seen) <= b.seen && Linked(input, b.seen, call)
  {
    proxies' := proxies;
    for i := 0 to |input.placed|
      invariant Passing(input, b) && Noted(input, b.seen, proxies') && old(b.seen) <= b.seen
      invariant LinkedAmong(input, b.seen, call, input.placed[..i])
    {
      ghost var before := b.seen;
      proxies' := ServeEdge(input, b, call, target, input.placed[i], proxies');
      LinkedNext(input, before, b.seen, call, input.placed, i);
    }
    AllLinked(input, b.seen, call);
  }

  lemma LinkedNext(input: Input, before: set<Key>, seen: set<Key>, call: Placed, serves: seq<Placed>, i: nat)
    requires i < |serves| && before <= seen && LinkedAmong(input, before, call, serves[..i]) && LinkedOne(input, seen, call, serves[i])
    ensures LinkedAmong(input, seen, call, serves[..i + 1])
  {
    assert serves[..i + 1] == serves[..i] + [serves[i]];
    forall x | x in serves[..i] ensures LinkedOne(input, seen, call, x) { LinkedOneStill(input, before, seen, call, x); }
  }

  lemma AllLinked(input: Input, seen: set<Key>, call: Placed)
    requires !input.ByContract(call) && LinkedAmong(input, seen, call, input.placed[..|input.placed|])
    ensures Linked(input, seen, call)
  {
    assert input.placed[..|input.placed|] == input.placed;
    forall serve | input.Links(call, serve) ensures LinkedOne(input, seen, call, serve) {}
  }

  lemma NoSingleService(input: Input, seen: set<Key>, call: Placed)
    requires !Single(input.Designated(call))
    ensures Linked(input, seen, call)
  {
    forall serve ensures LinkedOne(input, seen, call, serve) {
      assert serve.service in {serve.service};
      assert !input.Links(call, serve);
    }
  }

  lemma LinkedStill(input: Input, before: set<Key>, seen: set<Key>, call: Placed)
    requires Linked(input, before, call) && before <= seen
    ensures Linked(input, seen, call)
  {
    forall serve ensures LinkedOne(input, seen, call, serve) { LinkedOneStill(input, before, seen, call, serve); }
  }

  lemma OwnService(input: Input, seen: set<Key>, call: Placed)
    requires input.Designated(call) == {call.service}
    ensures Linked(input, seen, call)
  {
    forall serve ensures LinkedOne(input, seen, call, serve) {
      if input.Designated(call) == {serve.service} { assert serve.service in {call.service}; }
    }
  }

  method RestCall(input: Input, b: Builder, call: Placed, proxies: set<(string, string)>) returns (proxies': set<(string, string)>)
    requires Passing(input, b) && Noted(input, b.seen, proxies) && input.IsCall(call)
    modifies b
    ensures Passing(input, b) && Noted(input, b.seen, proxies') && old(b.seen) <= b.seen && Linked(input, b.seen, call)
  {
    proxies' := proxies;
    var contract := input.ev.contract(call.endpoint);
    if contract.Some? {
      var decided := ContractEdge(input, b, call, contract.value, proxies);
      if decided { return; }
    }
    var hinted := input.HintedServices(call.endpoint);
    OneService(hinted);
    if input.MarkedExternal(call.endpoint) || |hinted| != 1 {
      NoSingleService(input, b.seen, call);
      return;
    }
    var target :| target in hinted;
    assert hinted == {target};
    if target == call.service {
      OwnService(input, b.seen, call);
      return;
    }
    proxies' := ServeEdges(input, b, call, target, proxies);
  }

  ghost predicate LinkedAll(input: Input, seen: set<Key>, calls: seq<Placed>) {
    forall call :: call in calls ==> Linked(input, seen, call)
  }

  lemma LinkedAllNext(input: Input, before: set<Key>, seen: set<Key>, calls: seq<Placed>, i: nat)
    requires i < |calls| && before <= seen && LinkedAll(input, before, calls[..i]) && Linked(input, seen, calls[i])
    ensures LinkedAll(input, seen, calls[..i + 1])
  {
    assert calls[..i + 1] == calls[..i] + [calls[i]];
    forall call | call in calls[..i] ensures Linked(input, seen, call) { LinkedStill(input, before, seen, call); }
  }

  lemma NotACall(input: Input, seen: set<Key>, p: Placed)
    requires !input.IsCall(p)
    ensures Linked(input, seen, p)
  {
    forall serve ensures LinkedOne(input, seen, p, serve) {}
  }

  method RestPass(input: Input, b: Builder)
    requires b.Valid() && b.edges == [] && b.seen == {}
    modifies b
    ensures Passing(input, b) && LinkedAll(input, b.seen, input.placed) && OneEdgePerProxy(input, b.edges)
  {
    var proxies: set<(string, string)> := {};
    for i := 0 to |input.placed|
      invariant Passing(input, b) && Noted(input, b.seen, proxies) && LinkedAll(input, b.seen, input.placed[..i])
    {
      ghost var before := b.seen;
      if input.IsCall(input.placed[i]) {
        proxies := RestCall(input, b, input.placed[i], proxies);
      } else {
        NotACall(input, b.seen, input.placed[i]);
      }
      LinkedAllNext(input, before, b.seen, input.placed, i);
    }
    assert input.placed[..|input.placed|] == input.placed;
    ProxyEdges(input, b, proxies);
  }

  /** At most one edge stands for the calls of a gateway. */
  ghost predicate OneEdgePerProxy(input: Input, edges: seq<Edge>) {
    forall call :: SoleProxy(input, call) ==> OneEdge(edges, call.endpoint.id)
  }

  ghost predicate OneEdge(edges: seq<Edge>, id: string) {
    forall i, j :: 0 <= i < |edges| && 0 <= j < |edges| && edges[i].from.id == edges[j].from.id == id ==> i == j
  }

  lemma ProxyEdges(input: Input, b: Builder, proxies: set<(string, string)>)
    requires Passing(input, b) && Noted(input, b.seen, proxies)
    ensures OneEdgePerProxy(input, b.edges)
  {
    forall call | SoleProxy(input, call) ensures OneEdge(b.edges, call.endpoint.id) {
      assert OneKey(b.seen, call.endpoint.id);
      forall i, j | 0 <= i < |b.edges| && 0 <= j < |b.edges| && b.edges[i].from.id == b.edges[j].from.id == call.endpoint.id
        ensures i == j
      {
        OneProxyEdge(input, b, call, i, j);
      }
    }
  }

  lemma OneProxyEdge(input: Input, b: Builder, call: Placed, i: nat, j: nat)
    requires Passing(input, b) && SoleProxy(input, call) && OneKey(b.seen, call.endpoint.id)
    requires i < |b.edges| && j < |b.edges| && b.edges[i].from.id == b.edges[j].from.id == call.endpoint.id
    ensures i == j
  {
    SoleEdge(input, call, b.edges[i]);
    SoleEdge(input, call, b.edges[j]);
    assert b.edges[i].target in {b.edges[j].target};
    assert b.keys[i] in b.seen && b.keys[j] in b.seen;
  }

  lemma SoleEdge(input: Input, call: Placed, e: Edge)
    requires SoleProxy(input, call) && FollowsEvidence(input, e) && e.from.id == call.endpoint.id
    ensures e.kind == "rest" && e.to.Some? && input.Designated(call) == {e.target}
  {
    var c, serve :| FollowsBy(input, e, c, serve);
    assert c.endpoint.id == call.endpoint.id;
  }

  // ----- further passes: configured clients and services outside the workspace

  function Configured(source: string, target: string): Key { ("rest", source, target, "configured-api", "") }

  function External(source: string, target: string): Key { ("rest", source, target, "configured-external", "") }

  /** The calls of configured clients that already lead to a route of a service. */
  function Resolved(input: Input, edges: seq<Edge>): set<(string, string)> {
    set e | e in edges && e.kind == "rest" && input.ev.domain(e.from).Some? :: (e.from.id, e.target)
  }

  /** An edge without a route: the call names a configured host to which no route leads it so
      far, or a service outside. */
  ghost predicate FromMarker(input: Input, before: seq<Edge>, e: Edge) { exists call :: Marks(input, before, e, call) }

  ghost predicate Marks(input: Input, before: seq<Edge>, e: Edge, call: Placed) {
    && input.IsCall(call) && e == Edge("rest", call.service, e.target, call.endpoint, None)
    && (input.ev.external(call.endpoint) == Some(e.target)
        || (input.ev.domain(call.endpoint) == Some(e.target) && e.target in input.services && (call.endpoint.id, e.target) !in Resolved(input, before)))
  }

  ghost predicate MarkersFrom(input: Input, before: seq<Edge>, edges: seq<Edge>, start: nat) {
    forall i :: start <= i < |edges| ==> FromMarker(input, before, edges[i])
  }

  /** A configured client whose host is indexed is connected with it one way or the other. */
  ghost predicate Connected(input: Input, edges: seq<Edge>, seen: set<Key>, call: Placed) {
    input.IsCall(call) && input.ev.domain(call.endpoint).Some? ==>
      var domain := input.ev.domain(call.endpoint).value;
      domain in input.services && domain != call.service ==>
        Configured(call.service, domain) in seen || (call.endpoint.id, domain) in Resolved(input, edges)
  }

  method ConfiguredPass(input: Input, b: Builder)
    requires b.Valid() && RestOnly(b.seen)
    modifies b
    ensures b.Valid() && RestOnly(b.seen) && old(b.edges) <= b.edges && old(b.keys) <= b.keys && old(b.seen) <= b.seen
    ensures MarkersFrom(input, old(b.edges), b.edges, |old(b.edges)|)
    ensures forall i :: 0 <= i < |input.placed| ==> Connected(input, old(b.edges), b.seen, input.placed[i])
  {
    var resolved := Resolved(input, b.edges);
    for i := 0 to |input.placed|
      invariant b.Valid() && RestOnly(b.seen) && old(b.edges) <= b.edges && old(b.keys) <= b.keys && old(b.seen) <= b.seen
      invariant MarkersFrom(input, old(b.edges), b.edges, |old(b.edges)|)
      invariant forall j :: 0 <= j < i ==> Connected(input, old(b.edges), b.seen, input.placed[j])
    {
      var call := input.placed[i];
      if !input.IsCall(call) || input.ev.domain(call.endpoint).None? { continue; }
      var domain := input.ev.domain(call.endpoint).value;
      if domain !in input.services || call.service == domain || (call.endpoint.id, domain) in resolved { continue; }
      var e := Edge("rest", call.service, domain, call.endpoint, None);
      assert Marks(input, old(b.edges), e, call);
      b.Emit(Configured(call.service, domain), e);
    }
  }

  /** A service outside that a call names is connected with it. */
  ghost predicate LeadsOutside(input: Input, seen: set<Key>, call: Placed) {
    input.IsCall(call) && input.ev.external(call.endpoint).Some? ==>
      var outside := input.ev.external(call.endpoint).value;
      outside == call.service || External(call.service, outside) in seen
  }

  method ExternalPass(input: Input, b: Builder, ghost before: seq<Edge>)
    requires b.Valid() && RestOnly(b.seen)
    modifies b
    ensures b.Valid() && RestOnly(b.seen) && old(b.edges) <= b.edges && old(b.keys) <= b.keys && old(b.seen) <= b.seen
    ensures MarkersFrom(input, before, b.edges, |old(b.edges)|)
    ensures forall i :: 0 <= i < |input.placed| ==> LeadsOutside(input, b.seen, input.placed[i])
  {
    for i := 0 to |input.placed|
      invariant b.Valid() && RestOnly(b.seen) && old(b.edges) <= b.edges && old(b.keys) <= b.keys && old(b.seen) <= b.seen
      invariant MarkersFrom(input, before, b.edges, |old(b.edges)|)
      invariant forall j :: 0 <= j < i ==> LeadsOutside(input, b.seen, input.placed[j])
    {
      var call := input.placed[i];
      if !input.IsCall(call) { continue; }
      var target := input.ev.external(call.endpoint);
      if target.None? || call.service == target.value { continue; }
      var e := Edge("rest", call.service, target.value, call.endpoint, None);
      assert Marks(input, before, e, call);
      b.Emit(External(call.service, target.value), e);
    }
  }

  // ----- last pass: the indexed join of producers and consumers

  type TopicIndex = map<string, seq<Placed>>

  /** The index files exactly the consumers among `placed` under their topic. */
  ghost predicate Indexes(input: Input, index: TopicIndex, placed: seq<Placed>) {
    forall topic :: FilesTopic(input, Filed(index, topic), topic, placed)
  }

  ghost predicate FilesTopic(input: Input, filed: seq<Placed>, topic: string, placed: seq<Placed>) {
    forall c :: c in filed <==> c in placed && input.Consumes(c) && c.endpoint.topic == topic
  }

  lemma FileConsumer(input: Input, index: TopicIndex, i: nat)
    requires i < |input.placed| && Indexes(input, index, input.placed[..i])
    ensures var c := input.placed[i];
      if input.Consumes(c) then Indexes(input, index[c.endpoint.topic := Filed(index, c.endpoint.topic) + [c]], input.placed[..i + 1])
      else Indexes(input, index, input.placed[..i + 1])
  {
    var c := input.placed[i];
    assert input.placed[..i + 1] == input.placed[..i] + [c];
    var after := if input.Consumes(c) then index[c.endpoint.topic := Filed(index, c.endpoint.topic) + [c]] else index;
    forall topic ensures FilesTopic(input, Filed(after, topic), topic, input.placed[..i + 1]) {
      assert FilesTopic(input, Filed(index, topic), topic, input.placed[..i]);
      assert Filed(after, topic) == if input.Consumes(c) && topic == c.endpoint.topic then Filed(index, topic) + [c] else Filed(index, topic);
    }
  }

  method IndexConsumers(input: Input) returns (index: TopicIndex)
    ensures Indexes(input, index, input.placed)
  {
    index := map[];
    for i := 0 to |input.placed|
      invariant Indexes(input, index, input.placed[..i])
    {
      var c := input.placed[i];
      FileConsumer(input, index, i);
      if input.Consumes(c) {
        index := index[c.endpoint.topic := Filed(index, c.endpoint.topic) + [c]];
      }
    }
    assert input.placed[..|input.placed|] == input.placed;
  }

  /** The keys that pair one producer with the consumers `cs`. */
  ghost function PairKeys(input: Input, p: Placed, cs: seq<Placed>): set<Key> {
    set c | c in cs && input.Pairs(p, c) :: input.PairKey(p, c)
  }

  /** The keys that the nested loops over all endpoints give to the producers `ps`. */
  ghost function JoinKeys(input: Input, ps: seq<Placed>): set<Key> {
    set p, c | p in ps && c in input.placed && input.Pairs(p, c) :: input.PairKey(p, c)
  }

  ghost predicate IsPairEdge(input: Input, e: Edge) {
    exists p, c :: input.Pairs(p, c) && e == Edge("kafka", p.service, c.service, p.endpoint, Some(c.endpoint))
  }

  ghost predicate PairsFrom(input: Input, edges: seq<Edge>, start: nat) {
    forall i :: start <= i < |edges| ==> IsPairEdge(input, edges[i])
  }

  method EmitPair(input: Input, b: Builder, p: Placed, c: Placed, ghost start: nat)
    requires b.Valid() && input.Produces(p) && PairsFrom(input, b.edges, start)
    requires input.Consumes(c) && c.endpoint.topic == p.endpoint.topic
    modifies b
    ensures b.Valid() && old(b.edges) <= b.edges && old(b.keys) <= b.keys && PairsFrom(input, b.edges, start)
    ensures b.seen == old(b.seen) + (if input.Pairs(p, c) then {input.PairKey(p, c)} else {})
  {
    if p.service == c.service || input.ev.conflict(p.endpoint.messageType, c.endpoint.messageType) { return; }
    var e := Edge("kafka", p.service, c.service, p.endpoint, Some(c.endpoint));
    assert input.Pairs(p, c) && IsPairEdge(input, e);
    b.Emit(input.PairKey(p, c), e);
  }

  method EmitPairs(input: Input, b: Builder, p: Placed, consumers: seq<Placed>, ghost start: nat)
    requires b.Valid() && input.Produces(p) && PairsFrom(input, b.edges, start)
    requires forall c :: c in consumers ==> input.Consumes(c) && c.endpoint.topic == p.endpoint.topic
    modifies b
    ensures b.Valid() && old(b.edges) <= b.edges && old(b.keys) <= b.keys && b.seen == old(b.seen) + PairKeys(input, p, consumers)
    ensures PairsFrom(input, b.edges, start)
  {
    for i := 0 to |consumers|
      invariant b.Valid() && old(b.edges) <= b.edges && old(b.keys) <= b.keys && b.seen == old(b.seen) + PairKeys(input, p, consumers[..i])
      invariant PairsFrom(input, b.edges, start)
    {
      var c := consumers[i];
      PairKeysNext(input, p, consumers, i);
      EmitPair(input, b, p, c, start);
    }
    assert consumers[..|consumers|] == consumers;
  }

  lemma PairKeysNext(input: Input, p: Placed, cs: seq<Placed>, i: nat)
    requires i < |cs|
    ensures PairKeys(input, p, cs[..i + 1]) ==
            PairKeys(input, p, cs[..i]) + (if input.Pairs(p, cs[i]) then {input.PairKey(p, cs[i])} else {})
  {
    assert cs[..i + 1] == cs[..i] + [cs[i]];
  }

  lemma JoinKeysNext(input: Input, index: TopicIndex, i: nat)
    requires i < |input.placed| && Indexes(input, index, input.placed)
    ensures var p := input.placed[i];
      JoinKeys(input, input.placed[..i + 1]) ==
      JoinKeys(input, input.placed[..i]) + (if input.Produces(p) then PairKeys(input, p, Filed(index, p.endpoint.topic)) else {})
  {
    var p := input.placed[i];
    assert input.placed[..i + 1] == input.placed[..i] + [p];
    assert FilesTopic(input, Filed(index, p.endpoint.topic), p.endpoint.topic, input.placed);
    assert forall c :: c in input.placed && input.Pairs(p, c) ==> c in Filed(index, p.endpoint.topic);
  }

  method KafkaPass(input: Input, b: Builder)
    requires b.Valid() && RestOnly(b.seen)
    modifies b
    ensures b.Valid() && old(b.edges) <= b.edges && old(b.keys) <= b.keys && b.seen == old(b.seen) + JoinKeys(input, input.placed)
    ensures PairsFrom(input, b.edges, |old(b.edges)|)
  {
    var index := IndexConsumers(input);
    assert JoinKeys(input, input.placed[..0]) == {};
    for i := 0 to |input.placed|
      invariant b.Valid() && old(b.edges) <= b.edges && old(b.keys) <= b.keys && b.seen == old(b.seen) + JoinKeys(input, input.placed[..i])
      invariant PairsFrom(input, b.edges, |old(b.edges)|)
    {
      var p := input.placed[i];
      JoinKeysNext(input, index, i);
      if !input.Produces(p) { continue; }
      assert FilesTopic(input, Filed(index, p.endpoint.topic), p.endpoint.topic, input.placed);
      EmitPairs(input, b, p, Filed(index, p.endpoint.topic), |old(b.edges)|);
    }
    assert input.placed[..|input.placed|] == input.placed;
  }

  // ----- build_graph

  /** The keys of the kafka edges are those of the pairs that the nested loops accept. */
  ghost predicate JoinsExactly(input: Input, keys: seq<Key>) {
    forall key: Key :: key.0 == "kafka" ==> (key in keys <==> exists p, c :: input.Pairs(p, c) && key == input.PairKey(p, c))
  }

  ghost predicate WellKeyed(edges: seq<Edge>, keys: seq<Key>) {
    && |keys| == |edges| && (forall i, j :: 0 <= i < j < |keys| ==> keys[i] != keys[j])
    && forall i :: 0 <= i < |edges| ==> edges[i].source != edges[i].target && KeyFits(keys[i], edges[i])
  }

  function KeySet(keys: seq<Key>): set<Key> { set key | key in keys }

  /** Nothing that the evidence calls for is missing. */
  ghost predicate Complete(input: Input, edges: seq<Edge>, linked: set<Key>, seen: set<Key>) {
    && (forall call, serve :: LinkedOne(input, linked, call, serve))
    && (forall i :: 0 <= i < |input.placed| ==> Connected(input, edges, seen, input.placed[i]))
    && (forall i :: 0 <= i < |input.placed| ==> LeadsOutside(input, seen, input.placed[i]))
  }

  ghost predicate CallIdsDistinct(input: Input) {
    forall a, b :: input.IsCall(a) && input.IsCall(b) && a.endpoint.id == b.endpoint.id ==> a == b
  }

  /** Edges from one call lead to one service. */
  ghost predicate OneTargetPerCall(edges: seq<Edge>) {
    forall i, j :: 0 <= i < |edges| && 0 <= j < |edges| && edges[i].from.id == edges[j].from.id ==> edges[i].target == edges[j].target
  }

  /** The first pass never sends a call to two services. */
  lemma OneServicePerCall(input: Input, edges: seq<Edge>)
    requires AllFollow(input, edges) && CallIdsDistinct(input)
    ensures OneTargetPerCall(edges)
  {
    forall i, j | 0 <= i < |edges| && 0 <= j < |edges| && edges[i].from.id == edges[j].from.id
      ensures edges[i].target == edges[j].target
    {
      var call, serve :| FollowsBy(input, edges[i], call, serve);
      var call', serve' :| FollowsBy(input, edges[j], call', serve');
      assert call == call' && serve'.service in input.Designated(call);
    }
  }

  /** No self edge, no key twice. The edges come in three parts: the first joins each call
      with the routes it reaches in the one service that its evidence designates, the second
      follows markers without a route, and the third is the join of producers and consumers. */
  ghost predicate Built(input: Input, edges: seq<Edge>, keys: seq<Key>, rest: nat, kafka: nat)
    requires rest <= kafka <= |edges|
  {
    && WellKeyed(edges, keys) && JoinsExactly(input, keys)
    && AllFollow(input, edges[..rest]) && OneEdgePerProxy(input, edges[..rest])
    && (CallIdsDistinct(input) ==> OneTargetPerCall(edges[..rest]))
    && MarkersFrom(input, edges[..rest], edges[..kafka], rest) && PairsFrom(input, edges, kafka)
    && Complete(input, edges[..rest], KeySet(keys[..rest]), KeySet(keys))
  }

  /** Why an edge may be in the graph. */
  ghost predicate Justified(input: Input, before: seq<Edge>, e: Edge) {
    FollowsEvidence(input, e) || FromMarker(input, before, e) || IsPairEdge(input, e)
  }

  lemma EdgeJustified(input: Input, edges: seq<Edge>, keys: seq<Key>, rest: nat, kafka: nat, i: nat)
    requires rest <= kafka <= |edges| && Built(input, edges, keys, rest, kafka) && i < |edges|
    ensures Justified(input, edges[..rest], edges[i])
  {
    if i < rest {
      assert edges[..rest][i] == edges[i];
    } else if i < kafka {
      assert edges[..kafka][i] == edges[i];
    }
  }

  /** `build_graph`. */
  method BuildGraph(input: Input) returns (edges: seq<Edge>, ghost keys: seq<Key>, ghost rest: nat, ghost kafka: nat)
    ensures rest <= kafka <= |edges| && Built(input, edges, keys, rest, kafka)
    ensures forall i :: 0 <= i < |edges| ==> edges[i].source != edges[i].target && Justified(input, edges[..rest], edges[i])
  {
    var b := new Builder();
    RestPass(input, b);
    ghost var first, linked, firstKeys := b.edges, b.seen, b.keys;
    assert KeySet(firstKeys) == linked;
    ConfiguredPass(input, b);
    ghost var second, connected := b.edges, b.seen;
    ExternalPass(input, b, first);
    ghost var before, third := b.seen, b.edges;
    assert forall i :: 0 <= i < |second| ==> third[i] == second[i];
    KafkaPass(input, b);
    edges, keys, rest, kafka := b.edges, b.keys, |first|, |third|;
    assert edges[..rest] == first && edges[..kafka] == third && keys[..rest] == firstKeys;
    JoinMeans(input, b.seen, before, keys);
    if CallIdsDistinct(input) { OneServicePerCall(input, first); }
    assert KeySet(keys) == b.seen;
    NothingMissing(input, first, linked, connected, before, b.seen);
    forall i | 0 <= i < |edges| ensures Justified(input, edges[..rest], edges[i]) { EdgeJustified(input, edges, keys, rest, kafka, i); }
  }

  lemma NothingMissing(input: Input, edges: seq<Edge>, linked: set<Key>, connected: set<Key>, outside: set<Key>, seen: set<Key>)
    requires connected <= outside <= seen && LinkedAll(input, linked, input.placed)
    requires forall i :: 0 <= i < |input.placed| ==> Connected(input, edges, connected, input.placed[i])
    requires forall i :: 0 <= i < |input.placed| ==> LeadsOutside(input, outside, input.placed[i])
    ensures Complete(input, edges, linked, seen)
  {
    forall call, serve ensures LinkedOne(input, linked, call, serve) {
      if input.Links(call, serve) { assert call in input.placed && Linked(input, linked, call); }
    }
  }

  lemma JoinMeans(input: Input, seen: set<Key>, before: set<Key>, keys: seq<Key>)
    requires RestOnly(before) && seen == before + JoinKeys(input, input.placed) && forall key :: key in seen <==> key in keys
    ensures JoinsExactly(input, keys)
  {
    assert "kafka"[0] != "rest"[0];
  }
}
