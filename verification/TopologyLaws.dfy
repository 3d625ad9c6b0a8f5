/** Which way the links of a topology run, and how often: for paths from the caller to the
    provider, for impact from the provider to its callers (application/architecture.py). */
module TopologyLaws {
  import opened Wrappers
  import opened Digraph
  import opened ServiceGraph
  import opened Topology
  import opened TrailSpec
  import ImpactSearch
  import Text

  function Http(e: Edge): Relation { Relation("http", e.target + ": " + (if e.to.Some? then e.to.value.topic else "API")) }

  /** A path runs along a call, into a topic that is published to, and out of it to a consumer. */
  predicate InPaths(e: Edge, u: Node, x: Entry) {
    || (e.kind == "rest" && u == Node("microservice", e.source) && x == Entry(Node("microservice", e.target), Http(e)))
    || (e.kind == "kafka" && u == Node("microservice", e.source) && x == Entry(Node("topic", e.from.topic), Relation("publishes", e.from.topic)))
    || (e.kind == "kafka" && u == Node("topic", e.from.topic) && x == Entry(Node("microservice", e.target), Relation("consumes", e.from.topic)))
  }

  /** A change of a provider reaches its callers, a change of a producer its consumers. */
  predicate InImpact(e: Edge, u: Node, x: Entry) {
    || (e.kind == "rest" && u == Node("microservice", e.target) && x == Entry(Node("microservice", e.source), Http(e)))
    || (e.kind == "kafka" && u == Node("microservice", e.source) && x == Entry(Node("microservice", e.target), Relation("kafka", e.from.topic)))
  }

  /** How many of the edges give the entry. */
  function Times(edges: seq<Edge>, given: Edge -> bool): nat {
    if edges == [] then 0 else Times(edges[..|edges| - 1], given) + (if given(edges[|edges| - 1]) then 1 else 0)
  }

  lemma {:induction false} FromAppend(a: seq<Step>, b: seq<Step>, n: Node)
    ensures From(a + b, n) == From(a, n) + From(b, n)
  {
    if b == [] {
      assert a + b == a;
    } else {
      var m := |b| - 1;
      assert (a + b)[..|a + b| - 1] == a + b[..m] && (a + b)[|a + b| - 1] == b[m];
      FromAppend(a, b[..m], n);
    }
  }

  lemma One(s: Step, n: Node)
    ensures From([s], n) == if s.origin == n then [s.entry] else []
  {
    assert [s][..0] == [];
  }

  lemma Two(s: Step, t: Step, n: Node)
    ensures From([s, t], n) == From([s], n) + From([t], n)
  {
    assert [s, t] == [s] + [t];
    FromAppend([s], [t], n);
  }

  lemma PathSteps(e: Edge, u: Node, x: Entry)
    ensures multiset(From(StepsOf(e, DEPENDENCIES), u))[x] == if InPaths(e, u, x) then 1 else 0
  {
    var steps := StepsOf(e, DEPENDENCIES);
    if e.kind == "rest" {
      One(steps[0], u);
    } else if e.kind == "kafka" {
      Two(steps[0], steps[1], u);
      One(steps[0], u);
      One(steps[1], u);
      assert "microservice"[0] != "topic"[0];
    }
  }

  lemma ImpactSteps(e: Edge, u: Node, x: Entry)
    ensures multiset(From(StepsOf(e, IMPACT), u))[x] == if InImpact(e, u, x) then 1 else 0
  {
    var steps := StepsOf(e, IMPACT);
    if e.kind == "rest" || e.kind == "kafka" { One(steps[0], u); }
  }

  /** If each edge gives the entry once or not at all, the steps give it as often as edges do. */
  lemma {:induction false} StepsCount(edges: seq<Edge>, p: Projection, u: Node, x: Entry, given: Edge -> bool)
    requires forall e :: multiset(From(StepsOf(e, p), u))[x] == if given(e) then 1 else 0
    ensures multiset(From(Steps(edges, p), u))[x] == Times(edges, given)
  {
    if edges != [] {
      var n := |edges| - 1;
      StepsCount(edges[..n], p, u, x, given);
      FromAppend(Steps(edges[..n], p), StepsOf(edges[n], p), u);
    }
  }

  /** In the topology of paths each node lists exactly the links that `InPaths` gives it, each
      as often as edges give it. */
  lemma PathEntries(edges: seq<Edge>, adj: Adjacency, u: Node, x: Entry)
    requires IsTopology(edges, DEPENDENCIES, adj)
    ensures multiset(Entries(adj, u))[x] == Times(edges, e => InPaths(e, u, x))
  {
    forall e ensures multiset(From(StepsOf(e, DEPENDENCIES), u))[x] == if InPaths(e, u, x) then 1 else 0 { PathSteps(e, u, x); }
    StepsCount(edges, DEPENDENCIES, u, x, e => InPaths(e, u, x));
    assert multiset(Entries(adj, u)) == multiset(From(Steps(edges, DEPENDENCIES), u));
  }

  /** The same for the topology of impact. */
  lemma ImpactEntries(edges: seq<Edge>, adj: Adjacency, u: Node, x: Entry)
    requires IsTopology(edges, IMPACT, adj)
    ensures multiset(Entries(adj, u))[x] == Times(edges, e => InImpact(e, u, x))
  {
    forall e ensures multiset(From(StepsOf(e, IMPACT), u))[x] == if InImpact(e, u, x) then 1 else 0 { ImpactSteps(e, u, x); }
    StepsCount(edges, IMPACT, u, x, e => InImpact(e, u, x));
    assert multiset(Entries(adj, u)) == multiset(From(Steps(edges, IMPACT), u));
  }

  lemma {:induction false} TimesMeans(edges: seq<Edge>, given: Edge -> bool)
    ensures Times(edges, given) > 0 <==> exists e :: e in edges && given(e)
  {
    if edges != [] {
      var n := |edges| - 1;
      assert edges == edges[..n] + [edges[n]];
      TimesMeans(edges[..n], given);
    }
  }

  /** Between services a path takes one step exactly along a call from caller to provider. */
  lemma CallsRunForward(edges: seq<Edge>, adj: Adjacency, a: string, b: string)
    requires IsTopology(edges, DEPENDENCIES, adj)
    ensures Node("microservice", b) in Succ(GraphOf(adj), Node("microservice", a)) <==>
      exists e :: e in edges && e.kind == "rest" && e.source == a && e.target == b
  {
    var u, v := Node("microservice", a), Node("microservice", b);
    assert "microservice"[0] != "topic"[0];
    if v in Succ(GraphOf(adj), u) {
      var x :| x in adj[u] && x.node == v;
      PathEntries(edges, adj, u, x);
      TimesMeans(edges, e => InPaths(e, u, x));
    }
    if e :| e in edges && e.kind == "rest" && e.source == a && e.target == b {
      PathEntries(edges, adj, u, Entry(v, Http(e)));
      TimesMeans(edges, f => InPaths(f, u, Entry(v, Http(e))));
      assert InPaths(e, u, Entry(v, Http(e))) && Entry(v, Http(e)) in Entries(adj, u);
    }
  }

  /** An impact takes one step exactly from a provider to a caller, or from a producer to a
      consumer. */
  lemma ImpactRunsToDependents(edges: seq<Edge>, adj: Adjacency, a: string, b: string)
    requires IsTopology(edges, IMPACT, adj)
    ensures Node("microservice", b) in Succ(GraphOf(adj), Node("microservice", a)) <==>
      exists e :: e in edges && ((e.kind == "rest" && e.source == b && e.target == a) || (e.kind == "kafka" && e.source == a && e.target == b))
  {
    var u, v := Node("microservice", a), Node("microservice", b);
    if v in Succ(GraphOf(adj), u) {
      var x :| x in adj[u] && x.node == v;
      ImpactEntries(edges, adj, u, x);
      TimesMeans(edges, e => InImpact(e, u, x));
    }
    if e :| e in edges && ((e.kind == "rest" && e.source == b && e.target == a) || (e.kind == "kafka" && e.source == a && e.target == b)) {
      var x := Entry(v, if e.kind == "rest" then Http(e) else Relation("kafka", e.from.topic));
      ImpactEntries(edges, adj, u, x);
      TimesMeans(edges, f => InImpact(f, u, x));
      assert InImpact(e, u, x) && x in Entries(adj, u);
    }
  }

  /** The steps from a node are listed by kind and name of where they lead, then by the kind and
      the text of the relation. */
  lemma EntryOrderMeans(a: Entry, b: Entry)
    ensures EntryLe(a, b) <==> Text.LexLe([a.node.kind, a.node.name, a.relation.kind, a.relation.caption], [b.node.kind, b.node.name, b.relation.kind, b.relation.caption])
  {
    var r, t := [a.relation.caption], [b.relation.caption];
    Text.LexOne(a.relation.caption, b.relation.caption);
    Text.LexCons(a.relation.kind, r, b.relation.kind, t);
    Text.LexCons(a.node.name, [a.relation.kind] + r, b.node.name, [b.relation.kind] + t);
    Text.LexCons(a.node.kind, [a.node.name] + ([a.relation.kind] + r), b.node.kind, [b.node.name] + ([b.relation.kind] + t));
    assert [a.node.kind] + ([a.node.name] + ([a.relation.kind] + r)) == [a.node.kind, a.node.name, a.relation.kind, a.relation.caption];
    assert [b.node.kind] + ([b.node.name] + ([b.relation.kind] + t)) == [b.node.kind, b.node.name, b.relation.kind, b.relation.caption];
  }

  /** Where fewer than 100 services are reported, they are exactly those within 32 steps. */
  lemma ImpactLimits(adj: Adjacency, source: Node, paths: seq<Trail>, truncated: bool, v: Node)
    requires ImpactSearch.Answers(adj, source, paths, truncated) && |paths| < 100 && v != source
    ensures (exists t :: t in paths && End(t) == v) <==> exists m: nat :: m <= 32 && ReachIn(GraphOf(adj), source, v, m)
  {
    var reached := {source} + ImpactSearch.Ends(paths);
    if m: nat :| m <= 32 && ReachIn(GraphOf(adj), source, v, m) { assert v in reached; }
    if t :| t in paths && End(t) == v { assert ReachIn(GraphOf(adj), source, v, |t.steps|); }
  }
}
