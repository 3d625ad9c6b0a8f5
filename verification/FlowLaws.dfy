/** When one flow continues another, read off their steps (application/code_flows.py). */
module FlowLaws {
  import opened Wrappers
  import opened FlowLinks
  import opened FlowTree
  import Order
  import Text

  /** Step `i` of the flow sends something out at the endpoint `o`. */
  predicate Sends(f: Flow, i: int, endpoints: Endpoints, o: Endpoint) {
    && 0 <= i < |f.steps| && (f.steps[i].kind == "http_call" || f.steps[i].kind == "message_publish")
    && f.steps[i].endpointId.Some? && f.steps[i].endpointId.value != ""
    && f.steps[i].endpointId.value in endpoints && endpoints[f.steps[i].endpointId.value] == o
  }

  /** The flow starts with what comes in at the endpoint `e`. */
  predicate StartsAt(c: Flow, endpoints: Endpoints, e: Endpoint) {
    && c.steps != [] && (c.steps[0].kind == "http_entry" || c.steps[0].kind == "message_entry")
    && var id := if c.steps[0].endpointId.Some? then c.steps[0].endpointId.value else "";
    && id in endpoints && endpoints[id] == e
  }

  /** A call goes to a served route, a message to a consumer, of the same system and topic. */
  predicate Meet(o: Endpoint, e: Endpoint) {
    && o.system == e.system && o.topic == e.topic
    && ((o.role == Call && e.role == Serve) || (o.role == Produce && e.role == Consume))
  }

  ghost predicate Feeds(f: Flow, c: Flow, endpoints: Endpoints) {
    c.id != f.id && exists i, o, e :: Sends(f, i, endpoints, o) && StartsAt(c, endpoints, e) && Meet(o, e)
  }

  /** A flow is linked to another exactly if something it sends out comes in there. */
  lemma LinksIff(f: Flow, c: Flow, endpoints: Endpoints)
    ensures Links(f, c, endpoints) <==> Feeds(f, c, endpoints)
  {
    if Links(f, c, endpoints) {
      var o :| o in Outputs(f, endpoints) && Arrives(o, c, endpoints);
      var s :| s in f.steps && IsOutput(s) && s.endpointId.value in endpoints && endpoints[s.endpointId.value] == o;
      var i :| 0 <= i < |f.steps| && f.steps[i] == s;
      assert Sends(f, i, endpoints, o) && StartsAt(c, endpoints, EntryOf(c, endpoints).value);
    }
    if i, o, e :| Sends(f, i, endpoints, o) && StartsAt(c, endpoints, e) && Meet(o, e) {
      assert f.steps[i] in f.steps && o in Outputs(f, endpoints) && Arrives(o, c, endpoints) && c.id != f.id ==> Links(f, c, endpoints);
    }
  }

  /** Children are listed by module, then path, then line, then id. */
  lemma KeyOrderMeans(a: Flow, b: Flow)
    ensures KeyLe(a, b) <==>
      || Text.Less(a.moduleName, b.moduleName)
      || (a.moduleName == b.moduleName && Text.Less(a.path, b.path))
      || (a.moduleName == b.moduleName && a.path == b.path && a.startLine < b.startLine)
      || (a.moduleName == b.moduleName && a.path == b.path && a.startLine == b.startLine && Text.Le(a.id, b.id))
  {
  }

  // ----- what a tree says

  /** A flow that no flow feeds. */
  ghost predicate IsTop(w: Snapshot, f: Flow) { forall g :: g in w.flows ==> !Feeds(g, f, w.endpoints) }

  /** The node names the flow, its method and what triggers it. */
  ghost predicate Says(w: Snapshot, t: Tree, f: Flow) {
    && t.id == f.id && t.moduleName == f.moduleName && t.methodName == f.methodName
    && (t.root <==> IsTop(w, f))
    && match t.trigger
       case None => f.steps == []
       case Some(trigger) => f.steps != [] && trigger.kind == f.steps[0].kind && trigger.name == f.steps[0].name
  }

  predicate IsBefore(a: Flow, b: Flow) {
    || Text.Less(a.moduleName, b.moduleName)
    || (a.moduleName == b.moduleName && Text.Less(a.path, b.path))
    || (a.moduleName == b.moduleName && a.path == b.path && a.startLine < b.startLine)
    || (a.moduleName == b.moduleName && a.path == b.path && a.startLine == b.startLine && Text.Less(a.id, b.id))
  }

  ghost predicate InOrder(cs: seq<Flow>) { forall i, j :: 0 <= i < j < |cs| ==> IsBefore(cs[i], cs[j]) }

  /** Below the node of a flow stand, in the order of their keys, flows that it feeds. */
  ghost predicate TreeSays(w: Snapshot, t: Tree, f: Flow)
    decreases t, 1
  {
    Says(w, t, f) && exists cs: seq<Flow> :: InOrder(cs) && ForestSays(w, t.children, f, cs)
  }

  ghost predicate ForestSays(w: Snapshot, ts: seq<Tree>, f: Flow, cs: seq<Flow>)
    decreases ts, 0
  {
    && |cs| == |ts|
    && forall k :: 0 <= k < |ts| ==> cs[k] in w.flows && Feeds(f, cs[k], w.endpoints) && TreeSays(w, ts[k], cs[k])
  }

  lemma RootIff(w: Snapshot, f: Flow)
    requires w.Valid() && f in w.flows
    ensures f.id in Roots(w) <==> IsTop(w, f)
  {
    forall g ensures Links(g, f, w.endpoints) <==> Feeds(g, f, w.endpoints) { LinksIff(g, f, w.endpoints); }
    if f.id in Roots(w) {
      var g :| g in w.flows && !LinkedFromOne(w, g) && g.id == f.id;
      assert g == f;
    }
  }

  lemma {:induction false} ShownSays(w: Snapshot, t: Tree, f: Flow)
    requires w.Valid() && f in w.flows && Shows(w, Roots(w), t, f)
    ensures TreeSays(w, t, f)
    decreases t, 1
  {
    RootIff(w, f);
    var links := Children(w, f);
    LinksOrdered(w, f);
    var cs := HungSays(w, t.children, f, links);
    assert InOrder(cs) && ForestSays(w, t.children, f, cs);
  }

  lemma LinksOrdered(w: Snapshot, f: Flow)
    requires w.Valid() && f in w.flows
    ensures InOrder(Children(w, f)) && forall c :: c in Children(w, f) ==> c in w.flows && Feeds(f, c, w.endpoints)
  {
    KeyOrders(w.Linked(f));
    var links := Children(w, f);
    forall i, j | 0 <= i < j < |links| ensures IsBefore(links[i], links[j]) {
      assert links[i] in w.Linked(f) && links[j] in w.Linked(f);
      KeyOrderMeans(links[i], links[j]);
    }
    forall c | c in links ensures Feeds(f, c, w.endpoints) { LinksIff(f, c, w.endpoints); }
  }

  ghost predicate Among(cs: seq<Flow>, links: seq<Flow>) { forall c :: c in cs ==> c in links }

  lemma {:induction false} HungSays(w: Snapshot, ts: seq<Tree>, f: Flow, links: seq<Flow>) returns (cs: seq<Flow>)
    requires w.Valid() && Hangs(w, Roots(w), ts, links) && InOrder(links)
    requires forall c :: c in links ==> c in w.flows && Feeds(f, c, w.endpoints)
    ensures InOrder(cs) && ForestSays(w, ts, f, cs) && Among(cs, links)
    decreases ts, 0, |links|
  {
    cs := [];
    if links != [] {
      var front, last := links[..|links| - 1], links[|links| - 1];
      assert last in links;
      if Hangs(w, Roots(w), ts, front) {
        cs := HungSays(w, ts, f, front);
      } else {
        var n := |ts| - 1;
        ShownSays(w, ts[n], last);
        var before := HungSays(w, ts[..n], f, front);
        cs := before + [last];
        OneMore(before, front, last, links);
        ForestMore(w, ts, f, before, last);
      }
    }
  }

  lemma ForestMore(w: Snapshot, ts: seq<Tree>, f: Flow, cs: seq<Flow>, last: Flow)
    requires ts != [] && ForestSays(w, ts[..|ts| - 1], f, cs)
    requires last in w.flows && Feeds(f, last, w.endpoints) && TreeSays(w, ts[|ts| - 1], last)
    ensures ForestSays(w, ts, f, cs + [last])
  {
    var all := cs + [last];
    forall k | 0 <= k < |ts| ensures all[k] in w.flows && Feeds(f, all[k], w.endpoints) && TreeSays(w, ts[k], all[k]) {
      if k < |ts| - 1 { assert ts[..|ts| - 1][k] == ts[k] && all[k] == cs[k]; }
    }
  }

  lemma OneMore(cs: seq<Flow>, front: seq<Flow>, last: Flow, links: seq<Flow>)
    requires InOrder(cs) && Among(cs, front) && links == front + [last] && InOrder(links)
    ensures InOrder(cs + [last]) && Among(cs + [last], links)
  {
    forall i | 0 <= i < |cs| ensures IsBefore(cs[i], last) {
      assert cs[i] in front;
      var k :| 0 <= k < |front| && front[k] == cs[i];
      assert links[k] == cs[i] && links[|front|] == last;
    }
  }
}
