/** Workspaces in which paths through topics join services that no edge joins
    (application/architecture.py, domain/graph.py). */
module TopicMixing {
  import opened Wrappers
  import opened Digraph
  import opened ServiceGraph
  import opened Topology
  import opened TrailSpec

  /** Two producers and two consumers of one topic in four services, and nothing else; the
      message types keep the first producer from the second consumer and the second from
      the first. */
  ghost predicate TwoPairs(input: Input, p: Placed, c: Placed, p': Placed, c': Placed) {
    && input.placed == [p, c, p', c'] && input.Pairs(p, c) && input.Pairs(p', c')
    && p.endpoint.topic == p'.endpoint.topic && !input.Pairs(p, c') && !input.Pairs(p', c)
    && p.service != p'.service && c.service != c'.service && p.service != c'.service && p'.service != c.service
  }

  function PairEdge(p: Placed, c: Placed): Edge { Edge("kafka", p.service, c.service, p.endpoint, Some(c.endpoint)) }

  lemma OnlyPairEdges(input: Input, before: seq<Edge>, e: Edge)
    requires Justified(input, before, e)
    requires forall q :: !input.IsCall(q)
    ensures IsPairEdge(input, e)
  {
  }

  lemma NoCalls(input: Input, p: Placed, c: Placed, p': Placed, c': Placed)
    requires TwoPairs(input, p, c, p', c')
    ensures forall q :: !input.IsCall(q)
  {
    forall q ensures !input.IsCall(q) {
      if q in input.placed { assert q in [p, c, p', c'] && q.endpoint.system == "kafka"; }
    }
  }

  lemma OnlyTwo(input: Input, p: Placed, c: Placed, p': Placed, c': Placed, e: Edge)
    requires TwoPairs(input, p, c, p', c') && IsPairEdge(input, e)
    ensures e == PairEdge(p, c) || e == PairEdge(p', c')
  {
    var q, d :| input.Pairs(q, d) && e == Edge("kafka", q.service, d.service, q.endpoint, Some(d.endpoint));
    assert q in [p, c, p', c'] && d in [p, c, p', c'];
  }

  lemma EdgeIsPair(input: Input, p: Placed, c: Placed, p': Placed, c': Placed,
                   edges: seq<Edge>, keys: seq<Key>, rest: nat, kafka: nat, i: nat)
    requires TwoPairs(input, p, c, p', c') && rest <= kafka <= |edges| && Built(input, edges, keys, rest, kafka) && i < |edges|
    ensures edges[i] == PairEdge(p, c) || edges[i] == PairEdge(p', c')
  {
    EdgeJustified(input, edges, keys, rest, kafka, i);
    NoCalls(input, p, c, p', c');
    OnlyPairEdges(input, edges[..rest], edges[i]);
    OnlyTwo(input, p, c, p', c', edges[i]);
  }

  lemma PairIsEdge(input: Input, p: Placed, c: Placed, p': Placed, c': Placed, q: Placed, d: Placed,
                   edges: seq<Edge>, keys: seq<Key>, rest: nat, kafka: nat)
    requires TwoPairs(input, p, c, p', c') && rest <= kafka <= |edges| && Built(input, edges, keys, rest, kafka)
    requires (q == p && d == c) || (q == p' && d == c')
    ensures PairEdge(q, d) in edges
  {
    var key := input.PairKey(q, d);
    assert input.Pairs(q, d) && key.0 == "kafka" && key in keys;
    var i :| 0 <= i < |keys| && keys[i] == key;
    EdgeIsPair(input, p, c, p', c', edges, keys, rest, kafka, i);
    assert KeyFits(keys[i], edges[i]);
  }

  /** In the graph of such a workspace the paths lead from the first producer to the second
      consumer; the edges do not. */
  lemma PathsMixPairs(input: Input, p: Placed, c: Placed, p': Placed, c': Placed,
                      edges: seq<Edge>, keys: seq<Key>, rest: nat, kafka: nat, adj: Adjacency, direct: Adjacency)
    requires TwoPairs(input, p, c, p', c') && rest <= kafka <= |edges| && Built(input, edges, keys, rest, kafka)
    requires IsTopology(edges, DEPENDENCIES, adj) && IsTopology(edges, DIRECT, direct)
    ensures Reach(GraphOf(adj), Service(p.service), Service(c'.service))
    ensures !Reach(GraphOf(direct), Service(p.service), Service(c'.service))
  {
    var e, f := PairEdge(p, c), PairEdge(p', c');
    PairIsEdge(input, p, c, p', c', p, c, edges, keys, rest, kafka);
    PairIsEdge(input, p, c, p', c', p', c', edges, keys, rest, kafka);
    forall x | x in edges ensures x == e || x == f {
      var i :| 0 <= i < |edges| && edges[i] == x;
      EdgeIsPair(input, p, c, p', c', edges, keys, rest, kafka, i);
    }
    TopicMixesPairs(edges, e, f, adj, direct);
  }

  function Event(role: string, id: string, messageType: string): Endpoint {
    Endpoint(id, "kafka", role, "events", false, "code", "spring", "src/Events.java", Some(messageType))
  }

  /** There is such a workspace: one service pair exchanges orders, the other one refunds. */
  lemma TwoPairsExist() returns (input: Input, p: Placed, c: Placed, p': Placed, c': Placed)
    ensures TwoPairs(input, p, c, p', c')
  {
    p, c := Placed("orders", Event("produce", "1", "Order")), Placed("billing", Event("consume", "2", "Order"));
    p', c' := Placed("returns", Event("produce", "3", "Refund")), Placed("audit", Event("consume", "4", "Refund"));
    var ev := Evidence(_ => None, _ => None, _ => None, _ => None, (_, _) => true, s => s, (a, b) => a != b);
    input := Input({"orders", "billing", "returns", "audit"}, map[], [p, c, p', c'], ev);
    assert input.placed[0] == p && input.placed[1] == c && input.placed[2] == p' && input.placed[3] == c';
  }
}
