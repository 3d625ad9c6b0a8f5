/** The recursive trace of topic chains with its shared result and early exits
    (application/architecture.py). */
module TopicTrace {
  import opened Basics
  import opened ChainSpec
  import Text

  /** The part of an endpoint that the trace reads; an empty owner means no module. */
  datatype Endpoint = Endpoint(system: string, role: string, topic: string, topicDynamic: bool, owner: string)

  datatype Outcome = UnknownTopic | Traced(flows: seq<Flow>, truncated: bool)

  /** The variables that `visit` and `add_flow` share. */
  class Tracer {
    const catalog: Catalog
    const limit: int
    var flows: seq<Flow>
    var truncated: bool

    constructor (catalog: Catalog, limit: int)
      ensures this.catalog == catalog && this.limit == limit && Records([])
    {
      this.catalog, this.limit, flows, truncated := catalog, limit, [], false;
    }

    /** The first `limit` of the offered chains are kept, and a flag tells of the others. */
    ghost predicate Records(offered: seq<Flow>)
      reads this
    {
      && flows == Take(offered, AtLeastZero(limit))
      && (truncated <==> |offered| > AtLeastZero(limit))
    }

    /** Once truncated, further chains would change nothing. */
    lemma FullAlready(offered: seq<Flow>, sofar: seq<Flow>, more: seq<Flow>)
      requires Records(offered + sofar) && truncated && sofar <= more
      ensures Records(offered + more)
    {
      assert offered + more == (offered + sofar) + more[|sofar|..];
    }

    method AddFlow(nodes: seq<Step>, cycleDetected: bool, ghost offered: seq<Flow>) returns (added: bool)
      requires Records(offered)
      modifies this
      ensures Records(offered + [Flow(nodes, cycleDetected)])
    {
      if |flows| >= limit {
        truncated := true;
        return false;
      }
      flows := flows + [Flow(nodes, cycleDetected)];
      return true;
    }

    method Visit(topic: string, nodes: seq<Step>, seen: set<string>, depth: int, ghost offered: seq<Flow>)
      requires Records(offered)
      modifies this
      ensures Records(offered + Chains(catalog, topic, nodes, seen, depth))
      decreases Left(catalog, depth), 2
    {
      var services := Text.Sorted(catalog.ConsumersOf(topic));
      ghost var sofar: seq<Flow> := [];
      for i := 0 to |services|
        invariant sofar == ThroughServices(catalog, services[..i], nodes, seen, depth)
        invariant Records(offered + sofar)
      {
        if truncated {
          MoreServices(catalog, services, i, nodes, seen, depth);
          FullAlready(offered, sofar, Chains(catalog, topic, nodes, seen, depth));
          return;
        }
        ServicesNext(catalog, offered, services, i, nodes, seen, depth);
        VisitService(services[i], nodes, seen, depth, offered + sofar);
        sofar := ThroughServices(catalog, services[..i + 1], nodes, seen, depth);
      }
      assert services[..|services|] == services;
    }

    method VisitService(service: string, nodes: seq<Step>, seen: set<string>, depth: int, ghost offered: seq<Flow>)
      requires Records(offered)
      modifies this
      ensures Records(offered + ThroughService(catalog, service, nodes, seen, depth))
      decreases Left(catalog, depth), 1
    {
      var branch := nodes + [Service(service)];
      var topics := Text.Sorted(catalog.PublishedBy(service));
      if depth >= catalog.maxDepth || topics == [] {
        var _ := AddFlow(branch, false, offered);
      } else {
        VisitTopics(topics, branch, seen, depth, offered);
      }
    }

    method VisitTopics(topics: seq<string>, branch: seq<Step>, seen: set<string>, depth: int, ghost offered: seq<Flow>)
      requires Records(offered) && depth < catalog.maxDepth
      modifies this
      ensures Records(offered + ThroughTopics(catalog, topics, branch, seen, depth))
      decreases Left(catalog, depth), 0
    {
      ghost var sofar: seq<Flow> := [];
      for i := 0 to |topics|
        invariant sofar == ThroughTopics(catalog, topics[..i], branch, seen, depth)
        invariant Records(offered + sofar)
      {
        var topic := topics[i];
        assert topics[..i + 1][..i] == topics[..i];
        ghost var more := ThroughTopic(catalog, topic, branch, seen, depth);
        assert offered + (sofar + more) == (offered + sofar) + more;
        if topic in seen {
          var _ := AddFlow(branch + [Topic(topic)], true, offered + sofar);
        } else {
          Visit(topic, branch + [Topic(topic)], seen + {topic}, depth + 1, offered + sofar);
        }
        sofar := sofar + more;
      }
      assert topics[..|topics|] == topics;
    }
  }

  lemma ServicesNext(c: Catalog, offered: seq<Flow>, services: seq<string>, i: nat, nodes: seq<Step>, seen: set<string>, depth: int)
    requires i < |services|
    ensures offered + ThroughServices(c, services[..i + 1], nodes, seen, depth) ==
            offered + ThroughServices(c, services[..i], nodes, seen, depth) + ThroughService(c, services[i], nodes, seen, depth)
  {
    assert services[..i + 1][..i] == services[..i];
  }

  /** Services not visited would only have added chains. */
  lemma {:induction false} MoreServices(c: Catalog, services: seq<string>, i: nat, nodes: seq<Step>, seen: set<string>, depth: int)
    requires i <= |services|
    ensures ThroughServices(c, services[..i], nodes, seen, depth) <= ThroughServices(c, services, nodes, seen, depth)
  {
    if i < |services| {
      var front := services[..|services| - 1];
      MoreServices(c, front, i, nodes, seen, depth);
      assert front[..i] == services[..i];
    } else {
      assert services[..i] == services;
    }
  }

  // ----- the catalog of an endpoint list

  predicate IsKafka(e: Endpoint) { e.system == "kafka" && !e.topicDynamic && e.owner != "" }

  predicate Consumes(e: Endpoint, service: string, topic: string) {
    IsKafka(e) && e.role == "consume" && e.topic == topic && e.owner == service
  }

  predicate Publishes(e: Endpoint, service: string, topic: string) {
    IsKafka(e) && e.role == "produce" && e.topic == topic && e.owner == service
  }

  ghost predicate Describes(endpoints: seq<Endpoint>, c: Catalog) {
    && (forall t, s :: s in c.ConsumersOf(t) <==> exists e :: e in endpoints && Consumes(e, s, t))
    && (forall s, t :: t in c.PublishedBy(s) <==> exists e :: e in endpoints && Publishes(e, s, t))
  }

  function Noted(m: map<string, set<string>>, key: string, value: string): map<string, set<string>> {
    m[key := (if key in m then m[key] else {}) + {value}]
  }

  function WithEndpoint(c: Catalog, e: Endpoint): Catalog {
    if !IsKafka(e) then c
    else if e.role == "consume" then c.(consumers := Noted(c.consumers, e.topic, e.owner))
    else if e.role == "produce" then c.(published := Noted(c.published, e.owner, e.topic))
    else c
  }

  lemma DescribesNext(endpoints: seq<Endpoint>, c: Catalog, e: Endpoint)
    requires Describes(endpoints, c)
    ensures Describes(endpoints + [e], WithEndpoint(c, e))
  {
    var all, d := endpoints + [e], WithEndpoint(c, e);
    forall t, s ensures s in d.ConsumersOf(t) <==> s in c.ConsumersOf(t) || Consumes(e, s, t) {}
    forall t, s ensures t in d.PublishedBy(s) <==> t in c.PublishedBy(s) || Publishes(e, s, t) {}
    forall x ensures x in all <==> x in endpoints || x == e {}
  }

  method BuildCatalog(endpoints: seq<Endpoint>, maxDepth: int) returns (c: Catalog)
    ensures c.maxDepth == maxDepth && Describes(endpoints, c)
  {
    c := Catalog(map[], map[], maxDepth);
    for i := 0 to |endpoints|
      invariant c.maxDepth == maxDepth && Describes(endpoints[..i], c)
    {
      var e := endpoints[i];
      DescribesNext(endpoints[..i], c, e);
      assert endpoints[..i + 1] == endpoints[..i] + [e];
      c := WithEndpoint(c, e);
    }
    assert endpoints[..|endpoints|] == endpoints;
  }

  /** The first `limit` chains of the enumeration, and whether it is longer. */
  ghost predicate Lists(c: Catalog, topic: string, limit: int, flows: seq<Flow>, truncated: bool) {
    var all := Chains(c, topic, [Topic(topic)], {topic}, 1);
    flows == Take(all, AtLeastZero(limit)) && (truncated <==> |all| > AtLeastZero(limit))
  }

  /** `trace_topic_flows`. */
  method TraceTopicFlows(endpoints: seq<Endpoint>, topic: string, maxDepth: int, limit: int) returns (r: Outcome)
    ensures r.UnknownTopic? <==> !exists e :: e in endpoints && IsKafka(e) && e.topic == topic
    ensures r.Traced? ==> exists c: Catalog ::
      c.maxDepth == maxDepth && Describes(endpoints, c) && Lists(c, topic, limit, r.flows, r.truncated)
  {
    if !exists e | e in endpoints :: IsKafka(e) && e.topic == topic {
      return UnknownTopic;
    }
    var catalog := BuildCatalog(endpoints, maxDepth);
    var tracer := new Tracer(catalog, limit);
    tracer.Visit(topic, [Topic(topic)], {topic}, 1, []);
    assert [] + Chains(catalog, topic, [Topic(topic)], {topic}, 1) == Chains(catalog, topic, [Topic(topic)], {topic}, 1);
    r := Traced(tracer.flows, tracer.truncated);
  }

  /** Every reported flow is a bounded chain, none is reported twice, and without
      truncation every bounded chain is reported. */
  lemma ListsMean(c: Catalog, topic: string, limit: int, flows: seq<Flow>, truncated: bool)
    requires Lists(c, topic, limit, flows, truncated)
    ensures Distinct(flows) && |flows| <= AtLeastZero(limit)
    ensures forall f :: f in flows ==> IsChain(c, topic, f)
    ensures truncated <==> exists f :: IsChain(c, topic, f) && f !in flows
  {
    var all := Chains(c, topic, [Topic(topic)], {topic}, 1);
    EnumerationOnce(c, topic);
    forall f ensures f in all <==> IsChain(c, topic, f) { EnumerationExact(c, topic, f); }
    forall f | f in flows ensures f in all {}
    if truncated {
      var n := AtLeastZero(limit);
      assert all[n] in all && all[n] !in flows;
    }
  }
}
