/** The adjacency that the path searches run on, projected from the edges between services
    (application/architecture.py). */
module Topology {
  import opened Digraph
  import opened TrailSpec
  import opened ServiceGraph
  import ImpactSearch
  import Order
  import PathSearch
  import Text

  /** REST edges may point from the provider to its callers; topics may be nodes. */
  datatype Projection = Projection(reverseRest: bool, topicNodes: bool)

  const DEPENDENCIES := Projection(false, true)
  const IMPACT := Projection(true, false)
  const DIRECT := Projection(false, false)

  /** One call of `add_edge`. */
  datatype Step = Step(origin: Node, entry: Entry)

  function Service(name: string): Node { Node("microservice", name) }

  function Topic(name: string): Node { Node("topic", name) }

  function StepsOf(e: Edge, p: Projection): seq<Step> {
    var topic := e.from.topic;
    if e.kind == "rest" then
      var relation := Relation("http", RestResource(e));
      if p.reverseRest then [Step(Service(e.target), Entry(Service(e.source), relation))]
      else [Step(Service(e.source), Entry(Service(e.target), relation))]
    else if e.kind == "kafka" then
      if p.topicNodes
      then [Step(Service(e.source), Entry(Topic(topic), Relation("publishes", topic))),
            Step(Topic(topic), Entry(Service(e.target), Relation("consumes", topic)))]
      else [Step(Service(e.source), Entry(Service(e.target), Relation("kafka", topic)))]
    else []
  }

  function Steps(edges: seq<Edge>, p: Projection): seq<Step> {
    if edges == [] then [] else Steps(edges[..|edges| - 1], p) + StepsOf(edges[|edges| - 1], p)
  }

  function From(steps: seq<Step>, n: Node): seq<Entry> {
    if steps == [] then [] else
      var last := steps[|steps| - 1];
      From(steps[..|steps| - 1], n) + (if last.origin == n then [last.entry] else [])
  }

  // ----- the order of entries

  predicate EntryLe(a: Entry, b: Entry) {
    if a.node.kind != b.node.kind then Text.Le(a.node.kind, b.node.kind)
    else if a.node.name != b.node.name then Text.Le(a.node.name, b.node.name)
    else if a.relation.kind != b.relation.kind then Text.Le(a.relation.kind, b.relation.kind)
    else Text.Le(a.relation.caption, b.relation.caption)
  }

  lemma EntryLeTotal(a: Entry, b: Entry)
    ensures EntryLe(a, b) || EntryLe(b, a)
    ensures EntryLe(a, b) && EntryLe(b, a) ==> a == b
  {
    Text.LeOrders({a.node.kind, b.node.kind});
    Text.LeOrders({a.node.name, b.node.name});
    Text.LeOrders({a.relation.kind, b.relation.kind});
    Text.LeOrders({a.relation.caption, b.relation.caption});
  }

  lemma EntryLeTransitive(a: Entry, b: Entry, c: Entry)
    requires EntryLe(a, b) && EntryLe(b, c)
    ensures EntryLe(a, c)
  {
    Text.LeOrders({a.node.kind, b.node.kind, c.node.kind});
    Text.LeOrders({a.node.name, b.node.name, c.node.name});
    Text.LeOrders({a.relation.kind, b.relation.kind, c.relation.kind});
    Text.LeOrders({a.relation.caption, b.relation.caption, c.relation.caption});
  }

  lemma EntryLeRanks()
    ensures Order.Ranks(EntryLe)
  {
    forall a, b ensures EntryLe(a, b) || EntryLe(b, a) { EntryLeTotal(a, b); }
    forall a, b, c | EntryLe(a, b) && EntryLe(b, c) ensures EntryLe(a, c) { EntryLeTransitive(a, b, c); }
  }

  // ----- _topology_adjacency

  /** Every step is an entry of its origin, as often as it was added, in increasing order. */
  ghost predicate IsTopology(edges: seq<Edge>, p: Projection, adj: Adjacency) {
    && (forall n :: n in adj ==> adj[n] != [] && Order.Ascending(adj[n], EntryLe))
    && Holds(Steps(edges, p), adj)
  }

  ghost predicate Holds(steps: seq<Step>, adj: Adjacency) {
    forall n :: multiset(Entries(adj, n)) == multiset(From(steps, n))
  }

  ghost predicate Collects(steps: seq<Step>, adj: Adjacency) {
    && (forall n :: n in adj ==> adj[n] != [])
    && forall n :: Entries(adj, n) == From(steps, n)
  }

  method AddEdge(adj: Adjacency, s: Step, ghost steps: seq<Step>) returns (adj': Adjacency)
    requires Collects(steps, adj)
    ensures Collects(steps + [s], adj')
  {
    adj' := adj[s.origin := Entries(adj, s.origin) + [s.entry]];
    assert (steps + [s])[..|steps|] == steps;
    forall n ensures Entries(adj', n) == From(steps + [s], n) { assert Entries(adj, n) == From(steps, n); }
  }

  method AddEdges(adj: Adjacency, e: Edge, p: Projection, ghost steps: seq<Step>) returns (adj': Adjacency)
    requires Collects(steps, adj)
    ensures Collects(steps + StepsOf(e, p), adj')
  {
    var added := StepsOf(e, p);
    adj' := adj;
    assert steps + added[..0] == steps;
    for i := 0 to |added|
      invariant Collects(steps + added[..i], adj')
    {
      adj' := AddEdge(adj', added[i], steps + added[..i]);
      assert steps + added[..i + 1] == steps + added[..i] + [added[i]];
    }
    assert added[..|added|] == added;
  }

  method BuildTopology(edges: seq<Edge>, p: Projection) returns (adj: Adjacency)
    ensures IsTopology(edges, p, adj)
  {
    adj := map[];
    for i := 0 to |edges|
      invariant Collects(Steps(edges[..i], p), adj)
    {
      assert edges[..i + 1][..i] == edges[..i];
      adj := AddEdges(adj, edges[i], p, Steps(edges[..i], p));
    }
    assert edges[..|edges|] == edges;
    adj := SortEntries(adj, Steps(edges, p));
  }

  method SortEntries(adj: Adjacency, ghost steps: seq<Step>) returns (sorted: Adjacency)
    requires Collects(steps, adj)
    ensures Holds(steps, sorted) && forall n :: n in sorted ==> sorted[n] != [] && Order.Ascending(sorted[n], EntryLe)
  {
    EntryLeRanks();
    sorted := map n | n in adj :: Order.SortedList(adj[n], EntryLe);
    forall n ensures multiset(Entries(sorted, n)) == multiset(From(steps, n)) {
      assert Entries(adj, n) == From(steps, n);
    }
    forall n | n in sorted ensures sorted[n] != [] { assert multiset(sorted[n]) == multiset(adj[n]); }
  }

  // ----- the result does not depend on the order of the edges

  function Without<T>(s: seq<T>, i: nat): seq<T>
    requires i < |s|
  {
    s[..i] + s[i + 1..]
  }

  lemma TakeOut<T>(s: seq<T>, i: nat)
    requires i < |s|
    ensures multiset(Without(s, i)) == multiset(s) - multiset{s[i]} && |Without(s, i)| == |s| - 1
  {
    assert s == s[..i] + [s[i]] + s[i + 1..];
  }

  lemma SameRest<T>(a: seq<T>, i: nat, b: seq<T>, j: nat)
    requires multiset(a) == multiset(b) && i < |a| && j < |b| && a[i] == b[j]
    ensures multiset(Without(a, i)) == multiset(Without(b, j)) && |Without(a, i)| < |a|
  {
    TakeOut(a, i);
    TakeOut(b, j);
  }

  lemma SameSize<T>(a: seq<T>, b: seq<T>)
    requires multiset(a) == multiset(b)
    ensures |a| == |b| && forall x :: x in a ==> x in b
  {
    assert |a| == |multiset(a)| && |b| == |multiset(b)|;
    forall x | x in a ensures x in b { assert x in multiset(a); }
  }

  lemma WithoutLast<T>(s: seq<T>)
    requires s != []
    ensures Without(s, |s| - 1) == s[..|s| - 1] && s == Without(s, |s| - 1) + [s[|s| - 1]]
  {
  }

  /** A last element is determined by the content. */
  lemma SameLast(a: seq<Entry>, b: seq<Entry>)
    requires a != [] && b != [] && multiset(a) == multiset(b)
    requires Order.Ascending(a, EntryLe) && Order.Ascending(b, EntryLe)
    ensures a[|a| - 1] == b[|b| - 1]
  {
    var x, y := a[|a| - 1], b[|b| - 1];
    EntryLeRanks();
    Order.LastIsGreatest(a, EntryLe);
    Order.LastIsGreatest(b, EntryLe);
    assert x in multiset(b) && y in multiset(a);
    EntryLeTotal(x, y);
  }

  lemma {:induction false} SortedUnique(a: seq<Entry>, b: seq<Entry>)
    requires multiset(a) == multiset(b) && Order.Ascending(a, EntryLe) && Order.Ascending(b, EntryLe)
    ensures a == b
    decreases |a|
  {
    SameSize(a, b);
    if a != [] {
      SameLast(a, b);
      SameRest(a, |a| - 1, b, |b| - 1);
      WithoutLast(a);
      WithoutLast(b);
      SortedUnique(Without(a, |a| - 1), Without(b, |b| - 1));
    }
  }

  lemma {:induction false} StepsJoin(a: seq<Edge>, b: seq<Edge>, p: Projection)
    ensures Steps(a + b, p) == Steps(a, p) + Steps(b, p)
  {
    if b == [] {
      assert a + b == a;
    } else {
      assert (a + b)[..|a + b| - 1] == a + b[..|b| - 1];
      StepsJoin(a, b[..|b| - 1], p);
    }
  }

  lemma {:induction false} FromJoin(a: seq<Step>, b: seq<Step>, n: Node)
    ensures From(a + b, n) == From(a, n) + From(b, n)
  {
    if b == [] {
      assert a + b == a;
    } else {
      assert (a + b)[..|a + b| - 1] == a + b[..|b| - 1];
      FromJoin(a, b[..|b| - 1], n);
    }
  }

  /** Taking one edge out takes its steps out. */
  lemma WithoutEdge(edges: seq<Edge>, i: nat, p: Projection, n: Node)
    requires i < |edges|
    ensures multiset(From(Steps(edges, p), n)) ==
            multiset(From(Steps(Without(edges, i), p), n)) + multiset(From(StepsOf(edges[i], p), n))
  {
    var a, e, b := edges[..i], [edges[i]], edges[i + 1..];
    assert edges == a + (e + b);
    StepsJoin(a, e + b, p);
    StepsJoin(e, b, p);
    StepsJoin(a, b, p);
    assert Steps(e, p) == StepsOf(edges[i], p);
    FromJoin(Steps(a, p), Steps(e, p) + Steps(b, p), n);
    FromJoin(Steps(e, p), Steps(b, p), n);
    FromJoin(Steps(a, p), Steps(b, p), n);
  }

  lemma {:induction false} SameEntries(edges: seq<Edge>, others: seq<Edge>, p: Projection, n: Node)
    requires multiset(edges) == multiset(others)
    ensures multiset(From(Steps(edges, p), n)) == multiset(From(Steps(others, p), n))
    decreases |edges|
  {
    SameSize(edges, others);
    if edges != [] {
      assert edges[0] in others;
      var i :| 0 <= i < |others| && others[i] == edges[0];
      SameRest(edges, 0, others, i);
      SameEntries(Without(edges, 0), Without(others, i), p, n);
      WithoutEdge(others, i, p, n);
      WithoutEdge(edges, 0, p, n);
    }
  }

  /** `_topology_adjacency` is deterministic: the order of the edges does not matter. */
  lemma OrderIrrelevant(edges: seq<Edge>, others: seq<Edge>, p: Projection, a: Adjacency, b: Adjacency)
    requires multiset(edges) == multiset(others) && IsTopology(edges, p, a) && IsTopology(others, p, b)
    ensures a == b
  {
    forall n ensures Entries(a, n) == Entries(b, n) && (n in a <==> n in b) {
      SameEntries(edges, others, p, n);
      assert multiset(Entries(a, n)) == multiset(From(Steps(edges, p), n));
      assert multiset(Entries(b, n)) == multiset(From(Steps(others, p), n));
      SortedUnique(Entries(a, n), Entries(b, n));
    }
    assert a.Keys == b.Keys;
  }

  // ----- which nodes are linked

  predicate Gives(e: Edge, p: Projection, u: Node, v: Node) {
    exists s | s in StepsOf(e, p) :: s.origin == u && s.entry.node == v
  }

  lemma {:induction false} FromMeans(steps: seq<Step>, n: Node, x: Entry)
    ensures x in From(steps, n) <==> Step(n, x) in steps
  {
    if steps != [] {
      assert steps == steps[..|steps| - 1] + [steps[|steps| - 1]];
      FromMeans(steps[..|steps| - 1], n, x);
    }
  }

  lemma {:induction false} StepsMean(edges: seq<Edge>, p: Projection, s: Step)
    ensures s in Steps(edges, p) <==> exists e :: e in edges && s in StepsOf(e, p)
  {
    if edges != [] {
      assert edges == edges[..|edges| - 1] + [edges[|edges| - 1]];
      StepsMean(edges[..|edges| - 1], p, s);
    }
  }

  lemma EntryMeans(edges: seq<Edge>, p: Projection, adj: Adjacency, u: Node, x: Entry)
    requires IsTopology(edges, p, adj)
    ensures x in Entries(adj, u) <==> exists e :: e in edges && Step(u, x) in StepsOf(e, p)
  {
    assert multiset(Entries(adj, u)) == multiset(From(Steps(edges, p), u));
    assert x in Entries(adj, u) <==> x in multiset(Entries(adj, u));
    assert x in From(Steps(edges, p), u) <==> x in multiset(From(Steps(edges, p), u));
    FromMeans(Steps(edges, p), u, x);
    StepsMean(edges, p, Step(u, x));
  }

  /** Two nodes are linked exactly when some edge links them. */
  lemma LinkMeans(edges: seq<Edge>, p: Projection, adj: Adjacency, u: Node, v: Node)
    requires IsTopology(edges, p, adj)
    ensures v in Succ(GraphOf(adj), u) <==> exists e :: e in edges && Gives(e, p, u, v)
  {
    if v in Succ(GraphOf(adj), u) {
      var x :| x in adj[u] && x.node == v;
      EntryMeans(edges, p, adj, u, x);
    }
    if e :| e in edges && Gives(e, p, u, v) {
      var s :| s in StepsOf(e, p) && s.origin == u && s.entry.node == v;
      assert s == Step(u, s.entry);
      EntryMeans(edges, p, adj, u, s.entry);
    }
  }

  // ----- what topic nodes add

  /** Any source of a topic leads, edge by edge, to any of its targets. */
  ghost predicate TopicsKeepPairs(edges: seq<Edge>, direct: Adjacency) {
    forall e, f :: e in edges && f in edges && SameTopic(e, f) ==> Reach(GraphOf(direct), Service(e.source), Service(f.target))
  }

  predicate SameTopic(e: Edge, f: Edge) { e.kind == "kafka" && f.kind == "kafka" && e.from.topic == f.from.topic }

  lemma ThroughTopic(edges: seq<Edge>, adj: Adjacency, e: Edge, f: Edge)
    requires IsTopology(edges, DEPENDENCIES, adj) && e in edges && f in edges && SameTopic(e, f)
    ensures Reach(GraphOf(adj), Service(e.source), Service(f.target))
  {
    var t := Topic(e.from.topic);
    var publish, consume := StepsOf(e, DEPENDENCIES)[0], StepsOf(f, DEPENDENCIES)[1];
    assert publish in StepsOf(e, DEPENDENCIES) && consume in StepsOf(f, DEPENDENCIES);
    LinkMeans(edges, DEPENDENCIES, adj, Service(e.source), t);
    LinkMeans(edges, DEPENDENCIES, adj, t, Service(f.target));
    assert Gives(e, DEPENDENCIES, Service(e.source), t) && Gives(f, DEPENDENCIES, t, Service(f.target));
    ReachEdge(GraphOf(adj), Service(e.source), t);
    ReachEdge(GraphOf(adj), t, Service(f.target));
    ReachTransitive(GraphOf(adj), Service(e.source), t, Service(f.target));
  }

  lemma DirectStep(edges: seq<Edge>, adj: Adjacency, direct: Adjacency, u: Node, v: Node)
    requires IsTopology(edges, DEPENDENCIES, adj) && IsTopology(edges, DIRECT, direct) && v in Succ(GraphOf(direct), u)
    ensures Reach(GraphOf(adj), u, v)
  {
    LinkMeans(edges, DIRECT, direct, u, v);
    var e :| e in edges && Gives(e, DIRECT, u, v);
    if e.kind == "kafka" {
      ThroughTopic(edges, adj, e, e);
    } else {
      assert Gives(e, DEPENDENCIES, u, v);
      LinkMeans(edges, DEPENDENCIES, adj, u, v);
      ReachEdge(GraphOf(adj), u, v);
    }
  }

  lemma {:induction false} DirectWalk(edges: seq<Edge>, adj: Adjacency, direct: Adjacency, w: seq<Node>, u: Node, v: Node)
    requires IsTopology(edges, DEPENDENCIES, adj) && IsTopology(edges, DIRECT, direct) && IsWalk(GraphOf(direct), w, u, v)
    ensures Reach(GraphOf(adj), u, v)
    decreases |w|
  {
    if |w| == 1 {
      ReachSelf(GraphOf(adj), u);
    } else {
      assert IsWalk(GraphOf(direct), w[1..], w[1], v);
      DirectWalk(edges, adj, direct, w[1..], w[1], v);
      assert w[1] in Succ(GraphOf(direct), w[0]);
      DirectStep(edges, adj, direct, u, w[1]);
      ReachTransitive(GraphOf(adj), u, w[1], v);
    }
  }

  /** From a service, an edge leads to a service directly, or into a topic. */
  lemma FromService(edges: seq<Edge>, adj: Adjacency, direct: Adjacency, name: string, v: Node)
    requires IsTopology(edges, DEPENDENCIES, adj) && IsTopology(edges, DIRECT, direct)
    requires v in Succ(GraphOf(adj), Service(name))
    ensures (v.kind == "microservice" && v in Succ(GraphOf(direct), Service(name))) ||
            exists e :: e in edges && e.kind == "kafka" && e.source == name && v == Topic(e.from.topic)
  {
    LinkMeans(edges, DEPENDENCIES, adj, Service(name), v);
    var e :| e in edges && Gives(e, DEPENDENCIES, Service(name), v);
    if e.kind == "rest" {
      assert Gives(e, DIRECT, Service(name), v);
      LinkMeans(edges, DIRECT, direct, Service(name), v);
    }
  }

  lemma FromTopic(edges: seq<Edge>, adj: Adjacency, topic: string, v: Node)
    requires IsTopology(edges, DEPENDENCIES, adj) && v in Succ(GraphOf(adj), Topic(topic))
    ensures exists f :: f in edges && f.kind == "kafka" && f.from.topic == topic && v == Service(f.target)
  {
    LinkMeans(edges, DEPENDENCIES, adj, Topic(topic), v);
  }

  lemma {:induction false} WalkIsDirect(edges: seq<Edge>, adj: Adjacency, direct: Adjacency, w: seq<Node>, a: string, b: string)
    requires IsTopology(edges, DEPENDENCIES, adj) && IsTopology(edges, DIRECT, direct) && TopicsKeepPairs(edges, direct)
    requires IsWalk(GraphOf(adj), w, Service(a), Service(b))
    ensures Reach(GraphOf(direct), Service(a), Service(b))
    decreases |w|
  {
    var g := GraphOf(direct);
    if |w| == 1 {
      ReachSelf(g, Service(a));
    } else {
      assert w[1] in Succ(GraphOf(adj), w[0]);
      FromService(edges, adj, direct, a, w[1]);
      if w[1].kind == "microservice" {
        assert IsWalk(GraphOf(adj), w[1..], w[1], Service(b)) && w[1] == Service(w[1].name);
        WalkIsDirect(edges, adj, direct, w[1..], w[1].name, b);
        ReachEdge(g, Service(a), w[1]);
        ReachTransitive(g, Service(a), w[1], Service(b));
      } else {
        var e :| e in edges && e.kind == "kafka" && e.source == a && w[1] == Topic(e.from.topic);
        assert |w| > 2 && w[2] in Succ(GraphOf(adj), w[1]);
        FromTopic(edges, adj, e.from.topic, w[2]);
        var f :| f in edges && f.kind == "kafka" && f.from.topic == e.from.topic && w[2] == Service(f.target);
        assert SameTopic(e, f);
        assert IsWalk(GraphOf(adj), w[2..], w[2], Service(b));
        WalkIsDirect(edges, adj, direct, w[2..], f.target, b);
        ReachTransitive(g, Service(a), w[2], Service(b));
      }
    }
  }

  ghost predicate SameReach(adj: Adjacency, direct: Adjacency) {
    forall a, b :: Reach(GraphOf(adj), Service(a), Service(b)) <==> Reach(GraphOf(direct), Service(a), Service(b))
  }

  /** Paths through topic nodes connect exactly the services that edges connect if and only
      if each topic leads from any of its sources to any of its targets by edges alone. */
  lemma TopicNodesExact(edges: seq<Edge>, adj: Adjacency, direct: Adjacency)
    requires IsTopology(edges, DEPENDENCIES, adj) && IsTopology(edges, DIRECT, direct)
    ensures SameReach(adj, direct) <==> TopicsKeepPairs(edges, direct)
  {
    if TopicsKeepPairs(edges, direct) {
      forall a, b ensures Reach(GraphOf(adj), Service(a), Service(b)) <==> Reach(GraphOf(direct), Service(a), Service(b)) {
        if Reach(GraphOf(adj), Service(a), Service(b)) {
          var w :| IsWalk(GraphOf(adj), w, Service(a), Service(b));
          WalkIsDirect(edges, adj, direct, w, a, b);
        }
        if Reach(GraphOf(direct), Service(a), Service(b)) {
          var w :| IsWalk(GraphOf(direct), w, Service(a), Service(b));
          DirectWalk(edges, adj, direct, w, Service(a), Service(b));
        }
      }
    }
    if SameReach(adj, direct) {
      forall e, f | e in edges && f in edges && SameTopic(e, f)
        ensures Reach(GraphOf(direct), Service(e.source), Service(f.target))
      {
        ThroughTopic(edges, adj, e, f);
      }
    }
  }

  /** Two edges on one topic between four services: the paths lead from the first producer to
      the second consumer, although no edge does. */
  lemma TopicMixesPairs(edges: seq<Edge>, e: Edge, f: Edge, adj: Adjacency, direct: Adjacency)
    requires e in edges && f in edges && forall x :: x in edges ==> x == e || x == f
    requires SameTopic(e, f) && e.source != f.target && e.target != f.target && e.source != f.source && e.target != f.source
    requires IsTopology(edges, DEPENDENCIES, adj) && IsTopology(edges, DIRECT, direct)
    ensures Reach(GraphOf(adj), Service(e.source), Service(f.target))
    ensures !Reach(GraphOf(direct), Service(e.source), Service(f.target))
  {
    ThroughTopic(edges, adj, e, f);
    var inside := {Service(e.source), Service(e.target)};
    forall x | x in inside ensures Succ(GraphOf(direct), x) <= inside {
      forall v | v in Succ(GraphOf(direct), x) ensures v in inside {
        LinkMeans(edges, DIRECT, direct, x, v);
        var d :| d in edges && Gives(d, DIRECT, x, v);
      }
    }
    if w :| IsWalk(GraphOf(direct), w, Service(e.source), Service(f.target)) {
      ReachStaysInside(GraphOf(direct), inside, w, Service(e.source), Service(f.target));
    }
  }

  // ----- the searches on a catalog's edges

  /** `find_microservice_paths` between two applications. */
  method FindMicroservicePaths(edges: seq<Edge>, source: string, target: string, maxDepth: int, limit: int)
    returns (paths: seq<Trail>, truncated: bool, ghost adj: Adjacency)
    ensures IsTopology(edges, DEPENDENCIES, adj)
    ensures PathSearch.Answers(PathSearch.Query(adj, Service(source), Service(target), maxDepth, limit), paths, truncated)
  {
    var topology := BuildTopology(edges, DEPENDENCIES);
    paths, truncated := PathSearch.FindPaths(PathSearch.Query(topology, Service(source), Service(target), maxDepth, limit));
    adj := topology;
  }

  /** `_microservice_impact_paths`: a provider affects its callers, a producer its consumers. */
  method MicroserviceImpactPaths(edges: seq<Edge>, source: string)
    returns (paths: seq<Trail>, truncated: bool, ghost adj: Adjacency)
    ensures IsTopology(edges, IMPACT, adj) && ImpactSearch.Answers(adj, Service(source), paths, truncated)
  {
    var topology := BuildTopology(edges, IMPACT);
    paths, truncated := ImpactSearch.ImpactPaths(topology, Service(source));
    adj := topology;
  }
}
