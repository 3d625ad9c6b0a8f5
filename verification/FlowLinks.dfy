/** Which potential flows continue which: the indexed join of a flow's outputs with the
    entries of the other flows (application/code_flows.py). */
module FlowLinks {
  import opened Wrappers
  import opened Basics
  import opened Digraph
  import Order
  import Text

  datatype Role = Serve | Call | Consume | Produce
  datatype Endpoint = Endpoint(role: Role, system: string, topic: string)

  datatype FlowStep = FlowStep(kind: string, name: string, endpointId: Option<string>)
  datatype Flow = Flow(id: string, moduleName: string, methodName: string, path: string, startLine: int, steps: seq<FlowStep>)

  type Resource = (string, string)
  type Endpoints = map<string, Endpoint>

  const ENTRY_KINDS := {"http_entry", "message_entry"}
  const OUTPUT_KINDS := {"http_call", "message_publish"}

  // ----- what a link is

  /** The endpoint that the first step of a flow refers to. */
  function EntryOf(f: Flow, endpoints: Endpoints): Option<Endpoint> {
    if f.steps == [] || OrEmpty(f.steps[0].endpointId) !in endpoints then None
    else Some(endpoints[OrEmpty(f.steps[0].endpointId)])
  }

  predicate IsOutput(s: FlowStep) {
    s.endpointId.Some? && s.endpointId.value != "" && s.kind in OUTPUT_KINDS
  }

  function Outputs(f: Flow, endpoints: Endpoints): set<Endpoint> {
    set s | s in f.steps && IsOutput(s) && s.endpointId.value in endpoints :: endpoints[s.endpointId.value]
  }

  /** The role that takes in what an output role sends out. */
  function Target(r: Role): Option<Role> {
    match r case Call => Some(Serve) case Produce => Some(Consume) case _ => None
  }

  /** Output `o` arrives at the entry of `c`. */
  predicate Arrives(o: Endpoint, c: Flow, endpoints: Endpoints) {
    && c.steps != [] && c.steps[0].kind in ENTRY_KINDS
    && match EntryOf(c, endpoints)
       case None => false
       case Some(e) => e.system == o.system && e.topic == o.topic && Target(o.role) == Some(e.role)
  }

  /** `c` is another flow, entered by one of the outputs of `f`. */
  predicate Links(f: Flow, c: Flow, endpoints: Endpoints) {
    c.id != f.id && exists o | o in Outputs(f, endpoints) :: Arrives(o, c, endpoints)
  }

  /** The flows of a snapshot and their endpoints. */
  datatype Snapshot = Snapshot(flows: seq<Flow>, endpoints: Endpoints) {
    /** Distinct flow ids, and output steps that refer to output endpoints. */
    ghost predicate Valid() {
      && (forall f, c :: f in flows && c in flows && f.id == c.id ==> f == c)
      && (forall f, o :: f in flows && o in Outputs(f, endpoints) ==> Target(o.role).Some?)
    }

    function Linked(f: Flow): set<Flow> {
      set c | c in flows && Links(f, c, endpoints)
    }

    function LinkGraph(): Graph<Flow> {
      map f | f in flows :: Linked(f)
    }
  }

  // ----- the order of children

  predicate KeyLe(a: Flow, b: Flow) {
    if a.moduleName != b.moduleName then Text.Le(a.moduleName, b.moduleName)
    else if a.path != b.path then Text.Le(a.path, b.path)
    else if a.startLine != b.startLine then a.startLine < b.startLine
    else Text.Le(a.id, b.id)
  }

  lemma KeyOrders(s: set<Flow>)
    requires forall f, c :: f in s && c in s && f.id == c.id ==> f == c
    ensures Order.Orders(KeyLe, s)
  {
    forall a, b | a in s && b in s ensures (KeyLe(a, b) || KeyLe(b, a)) && (KeyLe(a, b) && KeyLe(b, a) ==> a == b) {
      KeyTotal(a, b);
    }
    forall a, b, c | KeyLe(a, b) && KeyLe(b, c) ensures KeyLe(a, c) { KeyTransitive(a, b, c); }
  }

  lemma KeyTotal(a: Flow, b: Flow)
    ensures KeyLe(a, b) || KeyLe(b, a)
    ensures KeyLe(a, b) && KeyLe(b, a) ==> a.id == b.id
  {
    Text.LeOrders({a.moduleName, b.moduleName});
    Text.LeOrders({a.path, b.path});
    Text.LeOrders({a.id, b.id});
  }

  lemma KeyTransitive(a: Flow, b: Flow, c: Flow)
    requires KeyLe(a, b) && KeyLe(b, c)
    ensures KeyLe(a, c)
  {
    Text.LeOrders({a.moduleName, b.moduleName, c.moduleName});
    Text.LeOrders({a.path, b.path, c.path});
    Text.LeOrders({a.id, b.id, c.id});
  }

  /** The flows that `f` links to, in the order of their keys. */
  ghost function Children(w: Snapshot, f: Flow): (r: seq<Flow>)
    requires w.Valid()
    ensures forall c :: c in r <==> c in w.Linked(f)
  {
    KeyOrders(w.Linked(f));
    Order.Sorted(w.Linked(f), KeyLe)
  }

  // ----- _build_flow_index

  /** An entry of the index: a flow that starts at an endpoint of this resource. */
  predicate Enters(f: Flow, endpoints: Endpoints, key: Resource) {
    && f.steps != [] && f.steps[0].kind in ENTRY_KINDS
    && match EntryOf(f, endpoints)
       case None => false
       case Some(e) => (e.system, e.topic) == key
  }

  ghost predicate Indexes(index: map<Resource, seq<Flow>>, flows: seq<Flow>, endpoints: Endpoints) {
    forall key, f :: f in Filed(index, key) <==> f in flows && Enters(f, endpoints, key)
  }

  method BuildFlowIndex(flows: seq<Flow>, endpoints: Endpoints) returns (index: map<Resource, seq<Flow>>)
    ensures Indexes(index, flows, endpoints)
  {
    index := map[];
    for i := 0 to |flows|
      invariant Indexes(index, flows[..i], endpoints)
    {
      var f := flows[i];
      assert flows[..i + 1] == flows[..i] + [f];
      if f.steps == [] || f.steps[0].kind !in ENTRY_KINDS { continue; }
      var endpoint := EntryOf(f, endpoints);
      if endpoint.Some? {
        var key := (endpoint.value.system, endpoint.value.topic);
        index := index[key := Filed(index, key) + [f]];
      }
    }
    assert flows[..|flows|] == flows;
  }

  // ----- _flow_children

  /** The dictionary of children by id holds exactly the given flows. */
  ghost predicate Holds(byId: map<string, Flow>, s: set<Flow>) {
    && (forall id :: id in byId ==> byId[id] in s && byId[id].id == id)
    && (forall f :: f in s ==> f.id in byId && byId[f.id] == f)
  }

  /** The flows reached from `f` by its outputs in `os`. */
  ghost function ReachedBy(w: Snapshot, f: Flow, os: set<Endpoint>): set<Flow> {
    set c | c in w.flows && c.id != f.id && exists o :: o in os && Arrives(o, c, w.endpoints)
  }

  method FlowChildren(w: Snapshot, f: Flow, index: map<Resource, seq<Flow>>) returns (children: seq<Flow>)
    requires w.Valid() && f in w.flows && Indexes(index, w.flows, w.endpoints)
    ensures children == Children(w, f)
  {
    var todo := Outputs(f, w.endpoints);
    var childrenById: map<string, Flow> := map[];
    ghost var done: set<Endpoint> := {};
    while todo != {}
      invariant done + todo == Outputs(f, w.endpoints)
      invariant Holds(childrenById, ReachedBy(w, f, done))
    {
      var output :| output in todo;
      childrenById := AddCandidates(w, f, index, output, childrenById, done);
      todo, done := todo - {output}, done + {output};
    }
    assert done == Outputs(f, w.endpoints);
    assert ReachedBy(w, f, done) == w.Linked(f);
    assert childrenById.Values == w.Linked(f);
    KeyOrders(w.Linked(f));
    children := Order.Sorted(childrenById.Values, KeyLe);
  }

  ghost predicate Answers(w: Snapshot, f: Flow, o: Endpoint, c: Flow) {
    c.id != f.id && Arrives(o, c, w.endpoints)
  }

  lemma HoldsAdd(byId: map<string, Flow>, s: set<Flow>, c: Flow)
    requires Holds(byId, s) && forall f :: f in s && f.id == c.id ==> f == c
    ensures Holds(byId[c.id := c], s + {c})
  {
  }

  /** The candidates filed under an output's resource that it arrives at. */
  ghost function Answering(w: Snapshot, f: Flow, o: Endpoint, cs: seq<Flow>): set<Flow> {
    set c | c in cs && Answers(w, f, o, c)
  }

  lemma AnsweringNext(w: Snapshot, f: Flow, o: Endpoint, cs: seq<Flow>, i: nat)
    requires i < |cs|
    ensures Answering(w, f, o, cs[..i + 1]) ==
            Answering(w, f, o, cs[..i]) + (if Answers(w, f, o, cs[i]) then {cs[i]} else {})
  {
    assert cs[..i + 1] == cs[..i] + [cs[i]];
  }

  lemma AllAnswering(w: Snapshot, f: Flow, index: map<Resource, seq<Flow>>, o: Endpoint, done: set<Endpoint>)
    requires Indexes(index, w.flows, w.endpoints)
    ensures ReachedBy(w, f, done) + Answering(w, f, o, Filed(index, (o.system, o.topic))) == ReachedBy(w, f, done + {o})
  {
    var cs := Filed(index, (o.system, o.topic));
    forall c | c in w.flows && Answers(w, f, o, c) ensures c in cs {
      assert Enters(c, w.endpoints, (o.system, o.topic));
    }
  }

  /** The role test is all that remains to check of a filed candidate. */
  lemma FiledAnswers(w: Snapshot, f: Flow, index: map<Resource, seq<Flow>>, o: Endpoint, c: Flow)
    requires Indexes(index, w.flows, w.endpoints) && Target(o.role).Some?
    requires c in Filed(index, (o.system, o.topic))
    ensures c in w.flows && c.steps != [] && EntryOf(c, w.endpoints).Some?
    ensures Answers(w, f, o, c) <==> c.id != f.id && EntryOf(c, w.endpoints).value.role == Target(o.role).value
  {
    assert Enters(c, w.endpoints, (o.system, o.topic));
  }

  /** The inner loop: adds the candidates filed under one output's resource. */
  method AddCandidates(w: Snapshot, f: Flow, index: map<Resource, seq<Flow>>, output: Endpoint, before: map<string, Flow>, ghost done: set<Endpoint>)
    returns (byId: map<string, Flow>)
    requires w.Valid() && Indexes(index, w.flows, w.endpoints) && Target(output.role).Some?
    requires Holds(before, ReachedBy(w, f, done))
    ensures Holds(byId, ReachedBy(w, f, done + {output}))
  {
    byId := before;
    var candidates := Filed(index, (output.system, output.topic));
    for i := 0 to |candidates|
      invariant Holds(byId, ReachedBy(w, f, done) + Answering(w, f, output, candidates[..i]))
    {
      var candidate := candidates[i];
      FiledAnswers(w, f, index, output, candidate);
      AnsweringNext(w, f, output, candidates, i);
      if candidate.id == f.id || candidate.steps == [] { continue; }
      var first := EntryOf(candidate, w.endpoints);
      if first.Some? && first.value.role == Target(output.role).value {
        AddOne(w, f, index, output, candidates, byId, done, i);
        byId := byId[candidate.id := candidate];
      }
    }
    assert candidates[..|candidates|] == candidates;
    AllAnswering(w, f, index, output, done);
  }

  lemma AddOne(w: Snapshot, f: Flow, index: map<Resource, seq<Flow>>, o: Endpoint, cs: seq<Flow>, byId: map<string, Flow>, done: set<Endpoint>, i: nat)
    requires w.Valid() && Indexes(index, w.flows, w.endpoints) && cs == Filed(index, (o.system, o.topic))
    requires i < |cs| && Answers(w, f, o, cs[i])
    requires Holds(byId, ReachedBy(w, f, done) + Answering(w, f, o, cs[..i]))
    ensures Holds(byId[cs[i].id := cs[i]], ReachedBy(w, f, done) + Answering(w, f, o, cs[..i + 1]))
  {
    var s := ReachedBy(w, f, done) + Answering(w, f, o, cs[..i]);
    AnsweringNext(w, f, o, cs, i);
    forall x | x in s ensures x in w.flows {
      if x in cs { assert Enters(x, w.endpoints, (o.system, o.topic)); }
    }
    assert Enters(cs[i], w.endpoints, (o.system, o.topic));
    HoldsAdd(byId, s, cs[i]);
    assert s + {cs[i]} == ReachedBy(w, f, done) + Answering(w, f, o, cs[..i + 1]);
  }
}
