/** Plausible Kafka chains from one topic: their enumeration, and which chains it lists
    (application/architecture.py). */
module ChainSpec {
  import opened Basics
  import Text

  datatype Step = Topic(name: string) | Service(name: string)
  datatype Flow = Flow(nodes: seq<Step>, cycleDetected: bool)

  /** Who consumes each topic, what each service publishes, and the depth bound. */
  datatype Catalog = Catalog(consumers: map<string, set<string>>, published: map<string, set<string>>, maxDepth: int) {
    function ConsumersOf(topic: string): set<string> { if topic in consumers then consumers[topic] else {} }
    function PublishedBy(service: string): set<string> { if service in published then published[service] else {} }
  }

  function Left(c: Catalog, depth: int): nat { if depth < c.maxDepth then c.maxDepth - depth else 0 }

  /** All the chains that continue `nodes`, whose last node is `topic`, in visiting order. */
  function Chains(c: Catalog, topic: string, nodes: seq<Step>, seen: set<string>, depth: int): seq<Flow>
    decreases Left(c, depth), 3
  {
    ThroughServices(c, Text.Sorted(c.ConsumersOf(topic)), nodes, seen, depth)
  }

  function ThroughServices(c: Catalog, services: seq<string>, nodes: seq<Step>, seen: set<string>, depth: int): seq<Flow>
    decreases Left(c, depth), 2, |services|
  {
    if services == [] then [] else
      var n := |services| - 1;
      ThroughServices(c, services[..n], nodes, seen, depth) + ThroughService(c, services[n], nodes, seen, depth)
  }

  function ThroughService(c: Catalog, service: string, nodes: seq<Step>, seen: set<string>, depth: int): seq<Flow>
    decreases Left(c, depth), 1
  {
    var branch := nodes + [Service(service)];
    var topics := Text.Sorted(c.PublishedBy(service));
    if depth >= c.maxDepth || topics == [] then [Flow(branch, false)]
    else ThroughTopics(c, topics, branch, seen, depth)
  }

  function ThroughTopics(c: Catalog, topics: seq<string>, branch: seq<Step>, seen: set<string>, depth: int): seq<Flow>
    requires depth < c.maxDepth
    decreases Left(c, depth), 0, |topics|
  {
    if topics == [] then [] else
      var n := |topics| - 1;
      ThroughTopics(c, topics[..n], branch, seen, depth) + ThroughTopic(c, topics[n], branch, seen, depth)
  }

  function ThroughTopic(c: Catalog, topic: string, branch: seq<Step>, seen: set<string>, depth: int): seq<Flow>
    requires depth < c.maxDepth
    decreases Left(c, depth), 0, 0
  {
    if topic in seen then [Flow(branch + [Topic(topic)], true)]
    else Chains(c, topic, branch + [Topic(topic)], seen + {topic}, depth + 1)
  }

  // ----- what the enumeration means

  ghost predicate Follows(c: Catalog, a: Step, b: Step) {
    match (a, b)
    case (Topic(t), Service(s)) => s in c.ConsumersOf(t)
    case (Service(s), Topic(t)) => t in c.PublishedBy(s)
    case _ => false
  }

  /** A linked sequence from the start in which no topic repeats, continued past a
      service only above the depth bound. */
  ghost predicate IsPrefix(c: Catalog, start: string, nodes: seq<Step>) {
    && |nodes| >= 1 && nodes[0] == Topic(start)
    && (forall i, j :: 0 <= i && j == i + 1 < |nodes| ==> Follows(c, nodes[i], nodes[j]))
    && (forall i, j :: 0 <= i < j < |nodes| && nodes[i].Topic? && nodes[j].Topic? ==> nodes[i] != nodes[j])
    && (forall i :: 0 <= i < |nodes| - 1 && nodes[i].Service? ==> (i + 1) / 2 < c.maxDepth)
  }

  /** A complete chain: either it ends at a service where the bound is met or nothing is
      published, or it ends at a topic seen before and is flagged as a cycle. */
  ghost predicate IsChain(c: Catalog, start: string, f: Flow) {
    var n := |f.nodes|;
    && n >= 2
    && if f.cycleDetected then
         && IsPrefix(c, start, f.nodes[..n - 1])
         && f.nodes[n - 2].Service? && n / 2 < c.maxDepth
         && Follows(c, f.nodes[n - 2], f.nodes[n - 1])
         && f.nodes[n - 1] in f.nodes[..n - 1]
       else
         && IsPrefix(c, start, f.nodes)
         && f.nodes[n - 1].Service?
         && (n / 2 >= c.maxDepth || c.PublishedBy(f.nodes[n - 1].name) == {})
  }

  /** Topics stand at even places and services at odd ones. */
  lemma {:induction false} Alternates(c: Catalog, start: string, nodes: seq<Step>, i: nat)
    requires IsPrefix(c, start, nodes) && i < |nodes|
    ensures nodes[i].Topic? <==> i % 2 == 0
  {
    if i > 0 {
      Alternates(c, start, nodes, i - 1);
      assert Follows(c, nodes[i - 1], nodes[i]);
    }
  }

  lemma {:induction false} InServices(c: Catalog, services: seq<string>, nodes: seq<Step>, seen: set<string>, depth: int, f: Flow)
    ensures f in ThroughServices(c, services, nodes, seen, depth) <==>
            exists s :: s in services && f in ThroughService(c, s, nodes, seen, depth)
  {
    if services != [] {
      var n := |services| - 1;
      InServices(c, services[..n], nodes, seen, depth, f);
      if f in ThroughService(c, services[n], nodes, seen, depth) { assert services[n] in services; }
      if s :| s in services && f in ThroughService(c, s, nodes, seen, depth) {
        assert s in services[..n] || s == services[n];
      }
    }
  }

  lemma {:induction false} InTopics(c: Catalog, topics: seq<string>, branch: seq<Step>, seen: set<string>, depth: int, f: Flow)
    requires depth < c.maxDepth
    ensures f in ThroughTopics(c, topics, branch, seen, depth) <==>
            exists t :: t in topics && f in ThroughTopic(c, t, branch, seen, depth)
  {
    if topics != [] {
      var n := |topics| - 1;
      InTopics(c, topics[..n], branch, seen, depth, f);
      if f in ThroughTopic(c, topics[n], branch, seen, depth) { assert topics[n] in topics; }
      if t :| t in topics && f in ThroughTopic(c, t, branch, seen, depth) {
        assert t in topics[..n] || t == topics[n];
      }
    }
  }

  /** The situation of one visit. */
  ghost predicate AtTopic(c: Catalog, start: string, topic: string, nodes: seq<Step>, seen: set<string>, depth: int) {
    && IsPrefix(c, start, nodes) && nodes[|nodes| - 1] == Topic(topic) && |nodes| == 2 * depth - 1
    && forall t :: t in seen <==> Topic(t) in nodes
  }

  ghost predicate AtService(c: Catalog, start: string, service: string, branch: seq<Step>, seen: set<string>, depth: int) {
    && IsPrefix(c, start, branch) && branch[|branch| - 1] == Service(service) && |branch| == 2 * depth
    && forall t :: t in seen <==> Topic(t) in branch
  }

  lemma ToService(c: Catalog, start: string, topic: string, nodes: seq<Step>, seen: set<string>, depth: int, service: string)
    requires AtTopic(c, start, topic, nodes, seen, depth) && service in c.ConsumersOf(topic)
    ensures AtService(c, start, service, nodes + [Service(service)], seen, depth)
  {
  }

  lemma ToTopic(c: Catalog, start: string, service: string, branch: seq<Step>, seen: set<string>, depth: int, topic: string)
    requires AtService(c, start, service, branch, seen, depth) && topic in c.PublishedBy(service)
    requires topic !in seen && depth < c.maxDepth
    ensures AtTopic(c, start, topic, branch + [Topic(topic)], seen + {topic}, depth + 1)
  {
  }

  /** Every element of a chain before its last belongs to a prefix. */
  lemma ChainPrefix(c: Catalog, start: string, f: Flow, k: nat)
    requires IsChain(c, start, f) && k < |f.nodes| && k > 0
    ensures IsPrefix(c, start, f.nodes[..k])
  {
    var n := |f.nodes|;
    if f.cycleDetected { assert f.nodes[..n - 1][..k] == f.nodes[..k]; }
  }

  lemma NextStep(c: Catalog, start: string, f: Flow, k: nat)
    requires IsChain(c, start, f) && 0 < k < |f.nodes|
    ensures Follows(c, f.nodes[k - 1], f.nodes[k])
    ensures f.nodes[k - 1].Service? ==> k / 2 < c.maxDepth
  {
    var n := |f.nodes|;
    if f.cycleDetected && k < n - 1 {
      assert f.nodes[..n - 1][k - 1] == f.nodes[k - 1] && f.nodes[..n - 1][k] == f.nodes[k];
    }
  }

  /** The enumeration from a topic lists exactly the chains that extend the visited nodes. */
  lemma {:induction false} ChainsExact(c: Catalog, start: string, topic: string, nodes: seq<Step>, seen: set<string>, depth: int, f: Flow)
    requires AtTopic(c, start, topic, nodes, seen, depth)
    ensures f in Chains(c, topic, nodes, seen, depth) <==> IsChain(c, start, f) && nodes < f.nodes
    decreases Left(c, depth), 2
  {
    var services := Text.Sorted(c.ConsumersOf(topic));
    InServices(c, services, nodes, seen, depth, f);
    forall s | s in services
      ensures f in ThroughService(c, s, nodes, seen, depth) <==> IsChain(c, start, f) && nodes + [Service(s)] <= f.nodes
    {
      ToService(c, start, topic, nodes, seen, depth, s);
      ServiceExact(c, start, s, nodes, seen, depth, f);
    }
    if IsChain(c, start, f) && nodes < f.nodes {
      NextStep(c, start, f, |nodes|);
      var s := f.nodes[|nodes|].name;
      assert s in services && nodes + [Service(s)] <= f.nodes;
    }
  }

  lemma {:induction false} ServiceExact(c: Catalog, start: string, service: string, nodes: seq<Step>, seen: set<string>, depth: int, f: Flow)
    requires AtService(c, start, service, nodes + [Service(service)], seen, depth)
    ensures f in ThroughService(c, service, nodes, seen, depth) <==> IsChain(c, start, f) && nodes + [Service(service)] <= f.nodes
    decreases Left(c, depth), 1
  {
    var branch := nodes + [Service(service)];
    var topics := Text.Sorted(c.PublishedBy(service));
    if depth >= c.maxDepth || topics == [] {
      assert c.PublishedBy(service) == {} <==> topics == [];
      LastService(c, start, service, branch, seen, depth, f);
    } else {
      InTopics(c, topics, branch, seen, depth, f);
      forall t | t in topics
        ensures f in ThroughTopic(c, t, branch, seen, depth) <==> IsChain(c, start, f) && branch + [Topic(t)] <= f.nodes
      {
        TopicExact(c, start, service, branch, seen, depth, t, f);
      }
      assert topics[0] in c.PublishedBy(service);
      if IsChain(c, start, f) && branch <= f.nodes { InnerService(c, start, service, branch, seen, depth, f); }
    }
  }

  /** Where the bound is met or nothing is published, the chain ends. */
  lemma LastService(c: Catalog, start: string, service: string, branch: seq<Step>, seen: set<string>, depth: int, f: Flow)
    requires AtService(c, start, service, branch, seen, depth)
    requires depth >= c.maxDepth || c.PublishedBy(service) == {}
    ensures f == Flow(branch, false) <==> IsChain(c, start, f) && branch <= f.nodes
  {
    var k := |branch|;
    if IsChain(c, start, f) && branch <= f.nodes {
      if k < |f.nodes| { NextStep(c, start, f, k); }
      assert f.nodes == branch;
      assert !f.cycleDetected by { NextStep(c, start, f, k - 1); }
    }
  }

  /** Elsewhere it continues to a published topic. */
  lemma InnerService(c: Catalog, start: string, service: string, branch: seq<Step>, seen: set<string>, depth: int, f: Flow)
    requires AtService(c, start, service, branch, seen, depth)
    requires depth < c.maxDepth && c.PublishedBy(service) != {}
    requires IsChain(c, start, f) && branch <= f.nodes
    ensures exists t :: t in c.PublishedBy(service) && branch + [Topic(t)] <= f.nodes
  {
    var k := |branch|;
    if k < |f.nodes| {
      NextStep(c, start, f, k);
      assert branch + [Topic(f.nodes[k].name)] <= f.nodes;
    } else {
      assert f.nodes == branch;
      NextStep(c, start, f, k - 1);
    }
  }

  lemma {:induction false} TopicExact(c: Catalog, start: string, service: string, branch: seq<Step>, seen: set<string>, depth: int, topic: string, f: Flow)
    requires AtService(c, start, service, branch, seen, depth) && topic in c.PublishedBy(service) && depth < c.maxDepth
    ensures f in ThroughTopic(c, topic, branch, seen, depth) <==> IsChain(c, start, f) && branch + [Topic(topic)] <= f.nodes
    decreases Left(c, depth), 0
  {
    var nodes := branch + [Topic(topic)];
    var k := |branch|;
    if topic in seen {
      if f == Flow(nodes, true) {
        assert f.nodes[..k] == branch;
        assert IsChain(c, start, f);
      }
      if IsChain(c, start, f) && nodes <= f.nodes {
        RepeatEndsChain(c, start, branch, topic, f);
      }
    } else {
      ToTopic(c, start, service, branch, seen, depth, topic);
      ChainsExact(c, start, topic, nodes, seen + {topic}, depth + 1, f);
      assert nodes[..k] == branch;
    }
  }

  /** A chain that repeats a topic stops there and is flagged. */
  lemma RepeatEndsChain(c: Catalog, start: string, branch: seq<Step>, topic: string, f: Flow)
    requires IsChain(c, start, f) && branch + [Topic(topic)] <= f.nodes && Topic(topic) in branch
    ensures f == Flow(branch + [Topic(topic)], true)
  {
    var nodes := branch + [Topic(topic)];
    assert nodes[..|branch|] == branch;
    if |nodes| < |f.nodes| {
      assert f.nodes[..|nodes|] == nodes;
      ChainPrefix(c, start, f, |nodes|);
      NoRepeat(c, start, branch, topic);
    }
  }

  lemma NoRepeat(c: Catalog, start: string, branch: seq<Step>, topic: string)
    requires IsPrefix(c, start, branch + [Topic(topic)])
    ensures Topic(topic) !in branch
  {
    var nodes := branch + [Topic(topic)];
    forall i | 0 <= i < |branch| ensures branch[i] != Topic(topic) { assert nodes[i] != nodes[|branch|] || nodes[i].Service?; }
  }

  /** `trace_topic_flows` enumerates, from the start, exactly the bounded chains. */
  lemma EnumerationExact(c: Catalog, start: string, f: Flow)
    ensures f in Chains(c, start, [Topic(start)], {start}, 1) <==> IsChain(c, start, f)
  {
    ChainsExact(c, start, start, [Topic(start)], {start}, 1, f);
    if IsChain(c, start, f) {
      ChainPrefix(c, start, f, 1);
      assert f.nodes[..1][0] == f.nodes[0];
    }
  }

  /** Only the last topic of a chain can repeat an earlier one, and exactly then the
      chain is flagged. */
  lemma OnlyFlaggedEndRepeats(c: Catalog, start: string, f: Flow)
    requires IsChain(c, start, f)
    ensures f.cycleDetected <==> exists i, j :: 0 <= i < j < |f.nodes| && f.nodes[i].Topic? && f.nodes[i] == f.nodes[j]
    ensures forall i, j :: 0 <= i < j < |f.nodes| && f.nodes[i].Topic? && f.nodes[i] == f.nodes[j] ==> j == |f.nodes| - 1
  {
    var n := |f.nodes|;
    if f.cycleDetected {
      var p := f.nodes[..n - 1];
      assert Follows(c, f.nodes[n - 2], f.nodes[n - 1]);
      var i :| 0 <= i < n - 1 && p[i] == f.nodes[n - 1];
      assert f.nodes[i] == f.nodes[n - 1];
      forall i, j | 0 <= i < j < n - 1 && f.nodes[i].Topic? ensures f.nodes[i] != f.nodes[j] {
        assert p[i] == f.nodes[i] && p[j] == f.nodes[j];
      }
    }
  }

  // ----- no chain is listed twice

  lemma DistinctJoin<T>(xs: seq<T>, ys: seq<T>)
    requires Distinct(xs) && Distinct(ys) && forall x :: x in xs ==> x !in ys
    ensures Distinct(xs + ys)
  {
    forall i, j | 0 <= i < j < |xs + ys| ensures (xs + ys)[i] != (xs + ys)[j] {
      if i < |xs| <= j { assert xs[i] in xs && ys[j - |xs|] in ys; }
    }
  }

  lemma {:induction false} ChainsOnce(c: Catalog, start: string, topic: string, nodes: seq<Step>, seen: set<string>, depth: int)
    requires AtTopic(c, start, topic, nodes, seen, depth)
    ensures Distinct(Chains(c, topic, nodes, seen, depth))
    decreases Left(c, depth), 3
  {
    ServicesOnce(c, start, topic, nodes, seen, depth, Text.Sorted(c.ConsumersOf(topic)));
  }

  lemma {:induction false} ServicesOnce(c: Catalog, start: string, topic: string, nodes: seq<Step>, seen: set<string>, depth: int, services: seq<string>)
    requires AtTopic(c, start, topic, nodes, seen, depth)
    requires Distinct(services) && forall s :: s in services ==> s in c.ConsumersOf(topic)
    ensures Distinct(ThroughServices(c, services, nodes, seen, depth))
    decreases Left(c, depth), 2, |services|
  {
    if services != [] {
      var n := |services| - 1;
      var front, last := services[..n], services[n];
      assert last in services && last !in front;
      ServicesOnce(c, start, topic, nodes, seen, depth, front);
      ToService(c, start, topic, nodes, seen, depth, last);
      ServiceOnce(c, start, last, nodes, seen, depth);
      forall f | f in ThroughServices(c, front, nodes, seen, depth) ensures f !in ThroughService(c, last, nodes, seen, depth) {
        InServices(c, front, nodes, seen, depth, f);
        var s :| s in front && f in ThroughService(c, s, nodes, seen, depth);
        ToService(c, start, topic, nodes, seen, depth, s);
        ServiceExact(c, start, s, nodes, seen, depth, f);
        ServiceExact(c, start, last, nodes, seen, depth, f);
        assert f.nodes[|nodes|] == Service(s);
      }
      DistinctJoin(ThroughServices(c, front, nodes, seen, depth), ThroughService(c, last, nodes, seen, depth));
    }
  }

  lemma {:induction false} ServiceOnce(c: Catalog, start: string, service: string, nodes: seq<Step>, seen: set<string>, depth: int)
    requires AtService(c, start, service, nodes + [Service(service)], seen, depth)
    ensures Distinct(ThroughService(c, service, nodes, seen, depth))
    decreases Left(c, depth), 1
  {
    if depth < c.maxDepth {
      TopicsOnce(c, start, service, nodes + [Service(service)], seen, depth, Text.Sorted(c.PublishedBy(service)));
    }
  }

  lemma {:induction false} TopicsOnce(c: Catalog, start: string, service: string, branch: seq<Step>, seen: set<string>, depth: int, topics: seq<string>)
    requires AtService(c, start, service, branch, seen, depth) && depth < c.maxDepth
    requires Distinct(topics) && forall t :: t in topics ==> t in c.PublishedBy(service)
    ensures Distinct(ThroughTopics(c, topics, branch, seen, depth))
    decreases Left(c, depth), 0, |topics|
  {
    if topics != [] {
      var n := |topics| - 1;
      var front, last := topics[..n], topics[n];
      assert last in topics && last !in front;
      TopicsOnce(c, start, service, branch, seen, depth, front);
      if last !in seen {
        ToTopic(c, start, service, branch, seen, depth, last);
        ChainsOnce(c, start, last, branch + [Topic(last)], seen + {last}, depth + 1);
      }
      forall f | f in ThroughTopics(c, front, branch, seen, depth) ensures f !in ThroughTopic(c, last, branch, seen, depth) {
        InTopics(c, front, branch, seen, depth, f);
        var t :| t in front && f in ThroughTopic(c, t, branch, seen, depth);
        TopicExact(c, start, service, branch, seen, depth, t, f);
        TopicExact(c, start, service, branch, seen, depth, last, f);
        assert f.nodes[|branch|] == Topic(t);
      }
      DistinctJoin(ThroughTopics(c, front, branch, seen, depth), ThroughTopic(c, last, branch, seen, depth));
    }
  }

  lemma EnumerationOnce(c: Catalog, start: string)
    ensures Distinct(Chains(c, start, [Topic(start)], {start}, 1))
  {
    ChainsOnce(c, start, start, [Topic(start)], {start}, 1);
  }
}
