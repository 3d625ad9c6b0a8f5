/** Calls that carry a contract: when they are led to a service that does not answer it
    (domain/graph.py; docs/spec-tech/extractors.md promises that such a call stays unresolved). */
module ContractCalls {
  import opened Wrappers
  import opened RouteMatching
  import RouteSelection
  import opened ServiceGraph

  /** The first pass has an edge from the call to a route of the service. */
  ghost predicate LeadsInto(edges: seq<Edge>, call: Placed, service: string) {
    exists i :: 0 <= i < |edges| && edges[i].from.id == call.endpoint.id && edges[i].target == service
  }

  lemma FollowsCall(input: Input, call: Placed, e: Edge) returns (serve: Placed)
    requires CallIdsDistinct(input) && input.IsCall(call) && FollowsEvidence(input, e) && e.from.id == call.endpoint.id
    ensures input.Links(call, serve) && serve.service == e.target
  {
    var c, s :| FollowsBy(input, e, c, s);
    assert c == call;
    serve := s;
  }

  lemma LinkHasEdge(input: Input, edges: seq<Edge>, keys: seq<Key>, rest: nat, kafka: nat, call: Placed, serve: Placed)
    requires rest <= kafka <= |edges| && Built(input, edges, keys, rest, kafka) && input.Links(call, serve)
    ensures LeadsInto(edges[..rest], call, serve.service)
  {
    assert LinkedOne(input, KeySet(keys[..rest]), call, serve);
    var key :| key in keys[..rest] && key.2 == serve.service && key.3 == call.endpoint.id;
    var i :| 0 <= i < rest && keys[..rest][i] == key;
    assert FollowsEvidence(input, edges[..rest][i]) && KeyFits(keys[i], edges[i]);
    assert edges[..rest][i] == edges[i];
  }

  /** The first pass leads a call into a service exactly if the call reaches one of its routes. */
  lemma LeadsIntoIff(input: Input, edges: seq<Edge>, keys: seq<Key>, rest: nat, kafka: nat, call: Placed, service: string)
    requires rest <= kafka <= |edges| && Built(input, edges, keys, rest, kafka) && CallIdsDistinct(input) && input.IsCall(call)
    ensures LeadsInto(edges[..rest], call, service) <==> exists serve :: input.Links(call, serve) && serve.service == service
  {
    if LeadsInto(edges[..rest], call, service) {
      var i :| 0 <= i < rest && edges[..rest][i].from.id == call.endpoint.id && edges[..rest][i].target == service;
      assert FollowsEvidence(input, edges[..rest][i]);
      var serve := FollowsCall(input, call, edges[..rest][i]);
    }
    if serve :| input.Links(call, serve) && serve.service == service { LinkHasEdge(input, edges, keys, rest, kafka, call, serve); }
  }

  /** None or several services answer the contract, and a hint alone leads to a route. */
  predicate FallsThrough(input: Input, call: Placed, serve: Placed) {
    && input.IsCall(call) && !Single(input.Answering(call)) && !input.MarkedExternal(call.endpoint)
    && input.HintedServices(call.endpoint) == {serve.service} && serve.service != call.service && input.Meets(call, serve)
  }

  /** The documented promise is that a call whose contract is not answered by exactly one service
      stays unresolved. It is kept exactly unless a hint leads the call to a route. */
  lemma UnresolvedIff(input: Input, edges: seq<Edge>, keys: seq<Key>, rest: nat, kafka: nat, call: Placed)
    requires rest <= kafka <= |edges| && Built(input, edges, keys, rest, kafka) && CallIdsDistinct(input)
    requires input.IsCall(call) && input.ev.contract(call.endpoint).Some? && !Single(input.Answering(call))
    ensures (exists service :: LeadsInto(edges[..rest], call, service)) <==> exists serve :: FallsThrough(input, call, serve)
  {
    if service :| LeadsInto(edges[..rest], call, service) {
      LeadsIntoIff(input, edges, keys, rest, kafka, call, service);
      var serve :| input.Links(call, serve) && serve.service == service;
      assert FallsThrough(input, call, serve);
    }
    if serve :| FallsThrough(input, call, serve) {
      assert input.Links(call, serve);
      LinkHasEdge(input, edges, keys, rest, kafka, call, serve);
    }
  }

  /** A call with a contract is led into a service that does not answer it exactly if it falls
      through to such a service. */
  lemma StraysIff(input: Input, edges: seq<Edge>, keys: seq<Key>, rest: nat, kafka: nat, call: Placed)
    requires rest <= kafka <= |edges| && Built(input, edges, keys, rest, kafka) && CallIdsDistinct(input)
    requires input.IsCall(call) && input.ev.contract(call.endpoint).Some?
    ensures (exists service :: LeadsInto(edges[..rest], call, service) && service !in input.Answering(call)) <==>
      exists serve :: FallsThrough(input, call, serve) && serve.service !in input.Answering(call)
  {
    if service :| LeadsInto(edges[..rest], call, service) && service !in input.Answering(call) {
      LeadsIntoIff(input, edges, keys, rest, kafka, call, service);
      var serve :| input.Links(call, serve) && serve.service == service;
      assert serve.service in {serve.service};
      assert FallsThrough(input, call, serve);
    }
    if serve :| FallsThrough(input, call, serve) && serve.service !in input.Answering(call) {
      assert input.Links(call, serve);
      LinkHasEdge(input, edges, keys, rest, kafka, call, serve);
    }
  }

  /** No service ever answers the contract of a call without a known path, such as that of a
      configured client: it always falls through. */
  lemma DynamicIsNeverAnswered(input: Input, call: Placed)
    requires Path(call.endpoint.topic) == "<dynamic>"
    ensures input.Answering(call) == {} && !input.ByContract(call)
  {
  }

  // ----- the smallest workspace

  const CALL := Placed("a", Endpoint("1", "rest", "call", "ANY <dynamic>", true, "code", "configured-api-client-factory", "A.java", None))

  const SERVE := Placed("b", Endpoint("2", "rest", "serve", "GET /items", false, "code", "spring-mvc", "B.java", None))

  /** The call names the contract `x.yaml` and the host `b`; no endpoint serves the contract. */
  function Strayed(): Input {
    Input({"a", "b"}, map[], [CALL, SERVE],
      Evidence((e: Endpoint) => if e.role == "call" then Some("x.yaml") else None, (e: Endpoint) => if e.role == "call" then Some("b") else None,
               (e: Endpoint) => if e.role == "call" then Some("b") else None, _ => None, (_, _) => true, s => s, (a, b) => a != b))
  }

  lemma StrayedTopics()
    ensures Path("ANY <dynamic>") == "<dynamic>" && Method("ANY <dynamic>") == "ANY"
  {
    assert "ANY <dynamic>"[1..][1..][1..][0] == ' ';
  }

  lemma StrayedHint()
    ensures Strayed().HintedServices(CALL.endpoint) == {"b"}
  {
    assert "a"[0] != "b"[0];
  }

  /** Its graph leads the call to the only route of `b`, which serves no contract. */
  lemma HintOverridesContract(edges: seq<Edge>, keys: seq<Key>, rest: nat, kafka: nat)
    requires rest <= kafka <= |edges| && Built(Strayed(), edges, keys, rest, kafka)
    ensures FallsThrough(Strayed(), CALL, SERVE) && SERVE.service !in Strayed().Answering(CALL)
    ensures LeadsInto(edges[..rest], CALL, "b")
  {
    StrayedTopics();
    StrayedHint();
    DynamicIsNeverAnswered(Strayed(), CALL);
    assert Strayed().placed[0] == CALL && Strayed().placed[1] == SERVE;
    assert Strayed().TakesRoute(CALL.endpoint, SERVE.endpoint);
    assert Strayed().Links(CALL, SERVE);
    LinkHasEdge(Strayed(), edges, keys, rest, kafka, CALL, SERVE);
  }
}
