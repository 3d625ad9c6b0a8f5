/** Topic chains read off the endpoints, and the order in which they are listed
    (application/architecture.py). */
module TopicLaws {
  import opened Basics
  import opened ChainSpec
  import opened TopicTrace
  import Text

  // ----- chains

  ghost predicate Receives(endpoints: seq<Endpoint>, service: string, topic: string) {
    exists e :: e in endpoints && e.system == "kafka" && e.role == "consume" && !e.topicDynamic && e.topic == topic && e.owner == service && service != ""
  }

  ghost predicate Sends(endpoints: seq<Endpoint>, service: string, topic: string) {
    exists e :: e in endpoints && e.system == "kafka" && e.role == "produce" && !e.topicDynamic && e.topic == topic && e.owner == service && service != ""
  }

  /** Topics and services in turn, from the topic asked for: each service receives the topic before
      it and sends the topic after it. */
  ghost predicate Runs(endpoints: seq<Endpoint>, start: string, nodes: seq<Step>) {
    && nodes != [] && nodes[0] == Topic(start)
    && (forall i :: 0 <= i < |nodes| ==> (nodes[i].Topic? <==> i % 2 == 0))
    && forall i, j :: 0 <= i && j == i + 1 < |nodes| ==> RunsOn(endpoints, nodes[i], nodes[j])
  }

  ghost predicate RunsOn(endpoints: seq<Endpoint>, a: Step, b: Step) {
    if a.Topic? then b.Service? && Receives(endpoints, b.name, a.name) else b.Topic? && Sends(endpoints, a.name, b.name)
  }

  ghost predicate TopicsDiffer(nodes: seq<Step>) {
    forall i, j :: 0 <= i < j < |nodes| && nodes[i].Topic? && nodes[j].Topic? ==> nodes[i].name != nodes[j].name
  }

  /** The run names at most `maxDepth` services, or the first one alone. It ends with a service that
      sends nothing or is the last one allowed, or with the first topic that it had before. */
  ghost predicate IsRun(endpoints: seq<Endpoint>, maxDepth: int, start: string, f: Flow) {
    var n := |f.nodes|;
    && Runs(endpoints, start, f.nodes) && n >= 2 && (n / 2 <= maxDepth || n == 2)
    && if f.cycleDetected then
         n % 2 == 1 && n / 2 < maxDepth && TopicsDiffer(f.nodes[..n - 1]) && f.nodes[n - 1] in f.nodes[..n - 1]
       else
         n % 2 == 0 && TopicsDiffer(f.nodes) && (n / 2 >= maxDepth || SendsNothing(endpoints, f.nodes[n - 1].name))
  }

  ghost predicate SendsNothing(endpoints: seq<Endpoint>, service: string) { forall t :: !Sends(endpoints, service, t) }

  lemma FollowsIff(endpoints: seq<Endpoint>, c: Catalog, a: Step, b: Step)
    requires Describes(endpoints, c)
    ensures Follows(c, a, b) <==> RunsOn(endpoints, a, b)
  {
  }

  lemma PrefixRuns(endpoints: seq<Endpoint>, c: Catalog, start: string, nodes: seq<Step>)
    requires Describes(endpoints, c) && IsPrefix(c, start, nodes)
    ensures Runs(endpoints, start, nodes) && TopicsDiffer(nodes)
    ensures |nodes| > 2 ==> (|nodes| - 1) / 2 < c.maxDepth
  {
    forall i | 0 <= i < |nodes| ensures nodes[i].Topic? <==> i % 2 == 0 { Alternates(c, start, nodes, i); }
    forall i, j | 0 <= i && j == i + 1 < |nodes| ensures RunsOn(endpoints, nodes[i], nodes[j]) { FollowsIff(endpoints, c, nodes[i], nodes[j]); }
    if |nodes| > 2 { assert nodes[if |nodes| % 2 == 0 then |nodes| - 3 else |nodes| - 2].Service?; }
  }

  lemma RunIsPrefix(endpoints: seq<Endpoint>, c: Catalog, start: string, nodes: seq<Step>)
    requires Describes(endpoints, c) && Runs(endpoints, start, nodes) && TopicsDiffer(nodes)
    requires |nodes| > 2 ==> (|nodes| - 1) / 2 < c.maxDepth
    ensures IsPrefix(c, start, nodes)
  {
    forall i, j | 0 <= i && j == i + 1 < |nodes| ensures Follows(c, nodes[i], nodes[j]) { FollowsIff(endpoints, c, nodes[i], nodes[j]); }
  }

  lemma SendsIff(endpoints: seq<Endpoint>, c: Catalog, service: string)
    requires Describes(endpoints, c)
    ensures c.PublishedBy(service) == {} <==> SendsNothing(endpoints, service)
  {
    forall t ensures t in c.PublishedBy(service) <==> Sends(endpoints, service, t) {}
    if c.PublishedBy(service) != {} { var t :| t in c.PublishedBy(service); }
  }

  lemma RunsMore(endpoints: seq<Endpoint>, start: string, nodes: seq<Step>, step: Step)
    requires Runs(endpoints, start, nodes) && RunsOn(endpoints, nodes[|nodes| - 1], step)
    ensures Runs(endpoints, start, nodes + [step])
  {
    var all := nodes + [step];
    forall i, j | 0 <= i && j == i + 1 < |all| ensures RunsOn(endpoints, all[i], all[j]) {
      if j < |nodes| { assert RunsOn(endpoints, nodes[i], nodes[j]); }
    }
  }

  lemma FlaggedIsRun(endpoints: seq<Endpoint>, c: Catalog, start: string, f: Flow)
    requires Describes(endpoints, c) && IsChain(c, start, f) && f.cycleDetected
    ensures IsRun(endpoints, c.maxDepth, start, f)
  {
    var n := |f.nodes|;
    var front := f.nodes[..n - 1];
    PrefixRuns(endpoints, c, start, front);
    assert front[n - 2] == f.nodes[n - 2];
    FollowsIff(endpoints, c, f.nodes[n - 2], f.nodes[n - 1]);
    RunsMore(endpoints, start, front, f.nodes[n - 1]);
    assert f.nodes == front + [f.nodes[n - 1]];
    assert (n - 2) % 2 == 1;
  }

  lemma PlainIsRun(endpoints: seq<Endpoint>, c: Catalog, start: string, f: Flow)
    requires Describes(endpoints, c) && IsChain(c, start, f) && !f.cycleDetected
    ensures IsRun(endpoints, c.maxDepth, start, f)
  {
    var n := |f.nodes|;
    PrefixRuns(endpoints, c, start, f.nodes);
    SendsIff(endpoints, c, f.nodes[n - 1].name);
    assert (n - 1) % 2 == 1;
  }

  lemma FlaggedIsChain(endpoints: seq<Endpoint>, c: Catalog, start: string, f: Flow)
    requires Describes(endpoints, c) && IsRun(endpoints, c.maxDepth, start, f) && f.cycleDetected
    ensures IsChain(c, start, f)
  {
    var n := |f.nodes|;
    var front := f.nodes[..n - 1];
    RunIsPrefix(endpoints, c, start, front);
    FollowsIff(endpoints, c, f.nodes[n - 2], f.nodes[n - 1]);
  }

  lemma PlainIsChain(endpoints: seq<Endpoint>, c: Catalog, start: string, f: Flow)
    requires Describes(endpoints, c) && IsRun(endpoints, c.maxDepth, start, f) && !f.cycleDetected
    ensures IsChain(c, start, f)
  {
    RunIsPrefix(endpoints, c, start, f.nodes);
    SendsIff(endpoints, c, f.nodes[|f.nodes| - 1].name);
  }

  /** The chains are exactly these runs. */
  lemma ChainIff(endpoints: seq<Endpoint>, c: Catalog, start: string, f: Flow)
    requires Describes(endpoints, c)
    ensures IsChain(c, start, f) <==> IsRun(endpoints, c.maxDepth, start, f)
  {
    if f.cycleDetected {
      if IsChain(c, start, f) { FlaggedIsRun(endpoints, c, start, f); }
      if IsRun(endpoints, c.maxDepth, start, f) { FlaggedIsChain(endpoints, c, start, f); }
    } else {
      if IsChain(c, start, f) { PlainIsRun(endpoints, c, start, f); }
      if IsRun(endpoints, c.maxDepth, start, f) { PlainIsChain(endpoints, c, start, f); }
    }
  }

  // ----- their order

  function Names(nodes: seq<Step>): (r: seq<string>)
    ensures |r| == |nodes| && forall i :: 0 <= i < |r| ==> r[i] == nodes[i].name
  {
    seq(|nodes|, i requires 0 <= i < |nodes| => nodes[i].name)
  }

  ghost predicate NotAfter(f: Flow, g: Flow) { Text.LexLe(Names(f.nodes), Names(g.nodes)) }

  ghost predicate InOrder(flows: seq<Flow>) { forall i, j :: 0 <= i < j < |flows| ==> NotAfter(flows[i], flows[j]) }

  /** Two flows that go on from the same nodes to names in order. */
  lemma BranchesInOrder(nodes: seq<Step>, a: Step, b: Step, f: Flow, g: Flow)
    requires nodes + [a] <= f.nodes && nodes + [b] <= g.nodes && a.name != b.name && Text.Le(a.name, b.name)
    ensures NotAfter(f, g)
  {
    var x, y, n := Names(f.nodes), Names(g.nodes), |nodes|;
    assert (nodes + [a])[n] == a && (nodes + [b])[n] == b;
    forall i | 0 <= i < n ensures x[i] == y[i] { assert (nodes + [a])[i] == (nodes + [b])[i]; }
    assert x[..n] == y[..n] && Text.FirstBefore(x, y, n);
    Text.LexMeans(x, y);
  }

  lemma JoinInOrder(fs: seq<Flow>, gs: seq<Flow>)
    requires InOrder(fs) && InOrder(gs) && forall f, g :: f in fs && g in gs ==> NotAfter(f, g)
    ensures InOrder(fs + gs)
  {
  }

  lemma {:induction false} ChainsInOrder(c: Catalog, start: string, topic: string, nodes: seq<Step>, seen: set<string>, depth: int)
    requires AtTopic(c, start, topic, nodes, seen, depth)
    ensures InOrder(Chains(c, topic, nodes, seen, depth))
    decreases Left(c, depth), 3
  {
    ServicesInOrder(c, start, topic, nodes, seen, depth, Text.Sorted(c.ConsumersOf(topic)));
  }

  lemma {:induction false} ServicesInOrder(c: Catalog, start: string, topic: string, nodes: seq<Step>, seen: set<string>, depth: int, services: seq<string>)
    requires AtTopic(c, start, topic, nodes, seen, depth) && Text.Increasing(services)
    requires forall s :: s in services ==> s in c.ConsumersOf(topic)
    ensures InOrder(ThroughServices(c, services, nodes, seen, depth))
    decreases Left(c, depth), 2, |services|
  {
    if services != [] {
      var n := |services| - 1;
      var front, last := ThroughServices(c, services[..n], nodes, seen, depth), ThroughService(c, services[n], nodes, seen, depth);
      ToService(c, start, topic, nodes, seen, depth, services[n]);
      ServicesInOrder(c, start, topic, nodes, seen, depth, services[..n]);
      ServiceInOrder(c, start, services[n], nodes, seen, depth);
      forall f, g | f in front && g in last ensures NotAfter(f, g) {
        InServices(c, services[..n], nodes, seen, depth, f);
        var s :| s in services[..n] && f in ThroughService(c, s, nodes, seen, depth);
        var i :| 0 <= i < n && services[i] == s;
        ToService(c, start, topic, nodes, seen, depth, s);
        ServiceExact(c, start, s, nodes, seen, depth, f);
        ServiceExact(c, start, services[n], nodes, seen, depth, g);
        BranchesInOrder(nodes, Service(s), Service(services[n]), f, g);
      }
      JoinInOrder(front, last);
    }
  }

  lemma {:induction false} ServiceInOrder(c: Catalog, start: string, service: string, nodes: seq<Step>, seen: set<string>, depth: int)
    requires AtService(c, start, service, nodes + [Service(service)], seen, depth)
    ensures InOrder(ThroughService(c, service, nodes, seen, depth))
    decreases Left(c, depth), 1
  {
    var topics := Text.Sorted(c.PublishedBy(service));
    if depth < c.maxDepth && topics != [] {
      TopicsInOrder(c, start, service, nodes + [Service(service)], seen, depth, topics);
    }
  }

  lemma {:induction false} TopicsInOrder(c: Catalog, start: string, service: string, branch: seq<Step>, seen: set<string>, depth: int, topics: seq<string>)
    requires AtService(c, start, service, branch, seen, depth) && depth < c.maxDepth && Text.Increasing(topics)
    requires forall t :: t in topics ==> t in c.PublishedBy(service)
    ensures InOrder(ThroughTopics(c, topics, branch, seen, depth))
    decreases Left(c, depth), 0, |topics|
  {
    if topics != [] {
      var n := |topics| - 1;
      var front, last := ThroughTopics(c, topics[..n], branch, seen, depth), ThroughTopic(c, topics[n], branch, seen, depth);
      TopicsInOrder(c, start, service, branch, seen, depth, topics[..n]);
      TopicInOrder(c, start, service, branch, seen, depth, topics[n]);
      forall f, g | f in front && g in last ensures NotAfter(f, g) {
        InTopics(c, topics[..n], branch, seen, depth, f);
        var t :| t in topics[..n] && f in ThroughTopic(c, t, branch, seen, depth);
        var i :| 0 <= i < n && topics[i] == t;
        TopicExact(c, start, service, branch, seen, depth, t, f);
        TopicExact(c, start, service, branch, seen, depth, topics[n], g);
        BranchesInOrder(branch, Topic(t), Topic(topics[n]), f, g);
      }
      JoinInOrder(front, last);
    }
  }

  lemma {:induction false} TopicInOrder(c: Catalog, start: string, service: string, branch: seq<Step>, seen: set<string>, depth: int, topic: string)
    requires AtService(c, start, service, branch, seen, depth) && topic in c.PublishedBy(service) && depth < c.maxDepth
    ensures InOrder(ThroughTopic(c, topic, branch, seen, depth))
    decreases Left(c, depth), 0, 0
  {
    if topic !in seen {
      ToTopic(c, start, service, branch, seen, depth, topic);
      ChainsInOrder(c, start, topic, branch + [Topic(topic)], seen + {topic}, depth + 1);
    }
  }

  lemma RunsListed(endpoints: seq<Endpoint>, c: Catalog, topic: string)
    requires Describes(endpoints, c)
    ensures forall f :: f in Chains(c, topic, [Topic(topic)], {topic}, 1) <==> IsRun(endpoints, c.maxDepth, topic, f)
  {
    forall f ensures f in Chains(c, topic, [Topic(topic)], {topic}, 1) <==> IsRun(endpoints, c.maxDepth, topic, f) {
      EnumerationExact(c, topic, f);
      ChainIff(endpoints, c, topic, f);
    }
  }

  lemma FirstPart(all: seq<Flow>, flows: seq<Flow>, f: Flow, g: Flow)
    requires InOrder(all) && flows <= all && f in flows && g in all && g !in flows
    ensures NotAfter(f, g)
  {
    assert all == flows + all[|flows|..];
    var i :| 0 <= i < |flows| && flows[i] == f;
    var j :| 0 <= j < |all| - |flows| && all[|flows|..][j] == g;
    assert all[i] == f && all[|flows| + j] == g;
  }

  /** The flows reported are runs in the order of their names; no run that is missing comes before
      a reported one. */
  lemma ReportsFirstRuns(endpoints: seq<Endpoint>, c: Catalog, topic: string, limit: int, flows: seq<Flow>, truncated: bool)
    requires Describes(endpoints, c) && Lists(c, topic, limit, flows, truncated)
    ensures forall f :: f in flows ==> IsRun(endpoints, c.maxDepth, topic, f)
    ensures InOrder(flows)
    ensures forall f, g :: f in flows && IsRun(endpoints, c.maxDepth, topic, g) && g !in flows ==> NotAfter(f, g)
  {
    var all := Chains(c, topic, [Topic(topic)], {topic}, 1);
    ChainsInOrder(c, topic, topic, [Topic(topic)], {topic}, 1);
    RunsListed(endpoints, c, topic);
    assert flows <= all;
    forall f, g | f in flows && g in all && g !in flows ensures NotAfter(f, g) { FirstPart(all, flows, f, g); }
  }

  /** Runs are missing exactly if the list is truncated, and then it has the full length. */
  lemma TruncatedIff(endpoints: seq<Endpoint>, c: Catalog, topic: string, limit: int, flows: seq<Flow>, truncated: bool)
    requires Describes(endpoints, c) && Lists(c, topic, limit, flows, truncated)
    ensures truncated <==> exists g :: IsRun(endpoints, c.maxDepth, topic, g) && g !in flows
    ensures truncated ==> |flows| == if limit < 0 then 0 else limit
  {
    ListsMean(c, topic, limit, flows, truncated);
    forall f ensures IsChain(c, topic, f) <==> IsRun(endpoints, c.maxDepth, topic, f) { ChainIff(endpoints, c, topic, f); }
  }
}
