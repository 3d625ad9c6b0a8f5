/** Pairs of an asynchronous write and a synchronous read below one root: which are judged
    by their place in the call graph, and what is left to the branch labels
    (application/flow_consistency.py). */
module StaleReads {
  import opened Wrappers
  import opened SiteOrder

  /** One step of a flow. */
  datatype Access = Access(flow: Flow, index: nat) {
    predicate Valid() { index < |flow.steps| }

    function Step(): Step
      requires Valid()
    {
      flow.steps[index]
    }
  }

  type FlowPath = seq<string>

  /** One root, the endpoint path to each flow it reaches, and the systems of the endpoints. */
  datatype Scope = Scope(root: string, flows: seq<Flow>, paths: map<string, FlowPath>, systems: map<string, string>) {
    /** Distinct flow ids. */
    ghost predicate Valid() {
      forall f, g :: f in flows && g in flows && f.id == g.id ==> f == g
    }

    function ForkFlows(prefix: FlowPath): seq<Flow> { FlowsAt(this, flows, prefix) }

    predicate IsKafka(id: string) { id in systems && systems[id] == "kafka" }

    predicate IsRest(id: string) { id in systems && systems[id] == "rest" }
  }

  function FlowsAt(s: Scope, flows: seq<Flow>, prefix: FlowPath): (r: seq<Flow>)
    ensures forall f :: f in r ==> f in flows
  {
    if flows == [] then [] else
      var last := flows[|flows| - 1];
      FlowsAt(s, flows[..|flows| - 1], prefix) +
      (if !last.cycle && last.id in s.paths && s.paths[last.id] == prefix then [last] else [])
  }

  // ----- where the two paths part

  /** `path[i:j]`. */
  function Slice(path: FlowPath, i: nat, j: nat): FlowPath
    requires i <= j
  {
    if i >= |path| then [] else if j >= |path| then path[i..] else path[i..j]
  }

  function Hops(w: FlowPath, r: FlowPath, h: nat): nat
    decreases |w| - h
  {
    if Slice(w, 2 * h, 2 * h + 2) != [] && Slice(w, 2 * h, 2 * h + 2) == Slice(r, 2 * h, 2 * h + 2) then Hops(w, r, h + 1) else h
  }

  /** `path[i::2]`. */
  function Outputs(path: FlowPath, i: nat): seq<string>
    decreases |path| - i
  {
    if i >= |path| then [] else [path[i]] + Outputs(path, i + 2)
  }

  /** The branch from the common handler to the write crosses Kafka, the one to the read
      nothing but REST. */
  predicate Diverges(s: Scope, w: Access, r: Access)
    requires w.flow.id in s.paths && r.flow.id in s.paths
  {
    var wp, rp := s.paths[w.flow.id], s.paths[r.flow.id];
    var h := Hops(wp, rp, 0);
    && (exists id | id in Outputs(wp, 2 * h) :: s.IsKafka(id))
    && (forall id | id in Outputs(rp, 2 * h) :: s.IsRest(id))
  }

  predicate Accessed(s: Scope, a: Access, kind: string) {
    && a.flow in s.flows && !a.flow.cycle && a.flow.id in s.paths && a.Valid()
    && a.Step().kind == kind && a.Step().resourceIdentity != "" && !a.Step().ordered
  }

  /** The pairs that the call graph judges. */
  predicate Paired(s: Scope, w: Access, r: Access) {
    && Accessed(s, w, "data_write") && Accessed(s, r, "data_read")
    && w.Step().resourceIdentity == r.Step().resourceIdentity
    && (w.Step().keyIdentity == "" || r.Step().keyIdentity == "" || w.Step().keyIdentity == r.Step().keyIdentity)
    && Diverges(s, w, r)
  }

  // ----- _branch_sites

  /** Where a branch leaves: at an endpoint, or at the access itself. */
  datatype Target = AtEndpoint(id: string) | AtAccess(access: Access)

  predicate LeavesAt(site: Site, target: Target) {
    site.Valid() &&
    match target
    case AtEndpoint(id) => site.flow.steps[site.index].endpointId == id
    case AtAccess(a) => site.flow.id == a.flow.id && site.index == a.index
  }

  /** The departures among the first `n` steps of a flow, in order. */
  function SitesHere(flow: Flow, target: Target, n: nat): (r: seq<Site>)
    ensures forall site :: site in r <==> site.flow == flow && site.index < n && LeavesAt(site, target)
  {
    if n == 0 then [] else
      SitesHere(flow, target, n - 1) + (if LeavesAt(Site(flow, n - 1), target) then [Site(flow, n - 1)] else [])
  }

  /** The departures in the fork flows, in the order of the flows and of their steps. */
  function SitesOf(forks: seq<Flow>, target: Target): (r: seq<Site>)
    ensures forall site :: site in r <==> site.flow in forks && LeavesAt(site, target)
  {
    if forks == [] then [] else
      var last := forks[|forks| - 1];
      assert forks == forks[..|forks| - 1] + [last];
      SitesOf(forks[..|forks| - 1], target) + SitesHere(last, target, |last.steps|)
  }

  method BranchSites(forks: seq<Flow>, target: Target) returns (sites: seq<Site>)
    ensures sites == SitesOf(forks, target)
  {
    sites := [];
    for i := 0 to |forks|
      invariant sites == SitesOf(forks[..i], target)
    {
      assert forks[..i + 1][..i] == forks[..i];
      var here := SitesIn(forks[i], target);
      sites := sites + here;
    }
    assert forks[..|forks|] == forks;
  }

  method SitesIn(flow: Flow, target: Target) returns (sites: seq<Site>)
    ensures sites == SitesHere(flow, target, |flow.steps|)
  {
    sites := [];
    for i := 0 to |flow.steps|
      invariant sites == SitesHere(flow, target, i)
    {
      if LeavesAt(Site(flow, i), target) { sites := sites + [Site(flow, i)]; }
    }
  }

  // ----- the verdict on one pair

  datatype Verdict = NotPaired | ReadFirst | Risk(evidence: Evidence) | Unordered

  function WriteTarget(s: Scope, w: Access, r: Access): Target
    requires w.flow.id in s.paths && r.flow.id in s.paths && Diverges(s, w, r)
  {
    var h := Hops(s.paths[w.flow.id], s.paths[r.flow.id], 0);
    AtEndpoint(Outputs(s.paths[w.flow.id], 2 * h)[0])
  }

  function ReadTarget(s: Scope, w: Access, r: Access): Target
    requires w.flow.id in s.paths && r.flow.id in s.paths
  {
    var h := Hops(s.paths[w.flow.id], s.paths[r.flow.id], 0);
    var outputs := Outputs(s.paths[r.flow.id], 2 * h);
    if outputs != [] then AtEndpoint(outputs[0]) else AtAccess(r)
  }

  function Forks(s: Scope, w: Access, r: Access): seq<Flow>
    requires w.flow.id in s.paths && r.flow.id in s.paths
  {
    s.ForkFlows(Slice(s.paths[w.flow.id], 0, 2 * Hops(s.paths[w.flow.id], s.paths[r.flow.id], 0)))
  }

  /** A departure of each branch from the common handler. */
  ghost predicate Departs(s: Scope, w: Access, r: Access, ws: Site, rs: Site) {
    && Paired(s, w, r)
    && ws.flow in Forks(s, w, r) && LeavesAt(ws, WriteTarget(s, w, r))
    && rs.flow in Forks(s, w, r) && LeavesAt(rs, ReadTarget(s, w, r))
  }

  ghost predicate WriteMayComeFirst(s: Scope, w: Access, r: Access) {
    exists ws, rs :: Departs(s, w, r, ws, rs) && Before(ws, rs)
  }

  ghost predicate ReadMayComeFirst(s: Scope, w: Access, r: Access) {
    exists ws, rs :: Departs(s, w, r, ws, rs) && Before(rs, ws)
  }

  /** The lines that show the write before the read. */
  ghost predicate Witnesses(w: Site, r: Site, evidence: Evidence) {
    Before(w, r) && OrderOf(w, r).value.evidence == evidence
  }

  /** The pair at `i` and `j` shows the write before the read, and no pair before it does. */
  ghost predicate IsFirst(writeAt: seq<Site>, readAt: seq<Site>, i: int, j: int, evidence: Evidence) {
    && 0 <= i < |writeAt| && 0 <= j < |readAt| && Witnesses(writeAt[i], readAt[j], evidence)
    && !Ordered(writeAt[..i], readAt, true) && !OrderedWith(writeAt[i], readAt[..j], true)
  }

  ghost predicate FirstShown(writeAt: seq<Site>, readAt: seq<Site>, evidence: Evidence) {
    exists i, j :: IsFirst(writeAt, readAt, i, j, evidence)
  }

  /** The evidence is that of the first pair of departures with the write before the read. */
  ghost predicate RiskShown(s: Scope, w: Access, r: Access, evidence: Evidence) {
    && Paired(s, w, r)
    && FirstShown(SitesOf(Forks(s, w, r), WriteTarget(s, w, r)), SitesOf(Forks(s, w, r), ReadTarget(s, w, r)), evidence)
  }

  /** The read is dismissed when departures are ordered and all put it first; it is a risk
      when some departure of the write comes first; otherwise the order stays open. */
  ghost predicate IsVerdict(s: Scope, w: Access, r: Access, v: Verdict) {
    && (v.NotPaired? <==> !Paired(s, w, r))
    && (v.Risk? <==> WriteMayComeFirst(s, w, r)) && (v.Risk? ==> RiskShown(s, w, r, v.evidence))
    && (v.ReadFirst? <==> ReadMayComeFirst(s, w, r) && !WriteMayComeFirst(s, w, r))
  }

  ghost predicate InOrder(w: Site, r: Site, writeFirst: bool) {
    if writeFirst then Before(w, r) else Before(r, w)
  }

  ghost predicate OrderedWith(w: Site, readAt: seq<Site>, writeFirst: bool) {
    exists r :: r in readAt && InOrder(w, r, writeFirst)
  }

  /** Some ordered pair of sites, the write before the read or after it. */
  ghost predicate Ordered(writeAt: seq<Site>, readAt: seq<Site>, writeFirst: bool) {
    exists w :: w in writeAt && OrderedWith(w, readAt, writeFirst)
  }

  ghost predicate FirstWith(w: Site, readAt: seq<Site>, evidence: Evidence) {
    exists j :: 0 <= j < |readAt| && Witnesses(w, readAt[j], evidence) && !OrderedWith(w, readAt[..j], true)
  }

  lemma ShownHere(writeAt: seq<Site>, i: nat, readAt: seq<Site>, evidence: Evidence)
    requires i < |writeAt| && !Ordered(writeAt[..i], readAt, true) && FirstWith(writeAt[i], readAt, evidence)
    ensures FirstShown(writeAt, readAt, evidence)
  {
    var j :| 0 <= j < |readAt| && Witnesses(writeAt[i], readAt[j], evidence) && !OrderedWith(writeAt[i], readAt[..j], true);
    assert IsFirst(writeAt, readAt, i, j, evidence);
  }

  ghost predicate Comparable(writeAt: seq<Site>, readAt: seq<Site>) {
    forall w, r :: w in writeAt && r in readAt ==> w.Valid() && r.Valid() && (w.flow.id == r.flow.id ==> w.flow == r.flow)
  }

  /** Compares every departure of the write with every departure of the read. */
  method CompareSites(writeAt: seq<Site>, readAt: seq<Site>) returns (risk: Option<Evidence>, anyOrder: bool)
    requires Comparable(writeAt, readAt)
    ensures risk.Some? <==> Ordered(writeAt, readAt, true)
    ensures risk.Some? ==> FirstShown(writeAt, readAt, risk.value)
    ensures anyOrder <==> Ordered(writeAt, readAt, true) || Ordered(writeAt, readAt, false)
  {
    risk, anyOrder := None, false;
    for i := 0 to |writeAt|
      invariant risk.Some? <==> Ordered(writeAt[..i], readAt, true)
      invariant risk.Some? ==> FirstShown(writeAt, readAt, risk.value)
      invariant anyOrder <==> Ordered(writeAt[..i], readAt, true) || Ordered(writeAt[..i], readAt, false)
    {
      assert writeAt[i] in writeAt;
      var first, either := CompareOne(writeAt[i], readAt);
      if risk.None? {
        if first.Some? { ShownHere(writeAt, i, readAt, first.value); }
        risk := first;
      }
      anyOrder := anyOrder || either;
      OrderedNext(writeAt, i, readAt, true);
      OrderedNext(writeAt, i, readAt, false);
    }
    assert writeAt[..|writeAt|] == writeAt;
  }

  lemma OrderedNext(writeAt: seq<Site>, i: nat, readAt: seq<Site>, writeFirst: bool)
    requires i < |writeAt|
    ensures Ordered(writeAt[..i + 1], readAt, writeFirst) <==>
            Ordered(writeAt[..i], readAt, writeFirst) || OrderedWith(writeAt[i], readAt, writeFirst)
  {
    assert writeAt[..i + 1] == writeAt[..i] + [writeAt[i]];
  }

  lemma OrderedWithNext(w: Site, readAt: seq<Site>, i: nat, writeFirst: bool)
    requires i < |readAt|
    ensures OrderedWith(w, readAt[..i + 1], writeFirst) <==>
            OrderedWith(w, readAt[..i], writeFirst) || InOrder(w, readAt[i], writeFirst)
  {
    assert readAt[..i + 1] == readAt[..i] + [readAt[i]];
  }

  method ComparePair(w: Site, r: Site) returns (risk: Option<Evidence>, ordered: bool)
    requires w.Valid() && r.Valid() && (w.flow.id == r.flow.id ==> w.flow == r.flow)
    ensures risk.Some? <==> InOrder(w, r, true)
    ensures risk.Some? ==> Witnesses(w, r, risk.value)
    ensures ordered <==> InOrder(w, r, true) || InOrder(w, r, false)
  {
    Antisymmetric(w, r);
    var order := FindOrder(w, r);
    if order.None? { return None, false; }
    return if order.value.writeFirst then Some(order.value.evidence) else None, true;
  }

  method CompareOne(w: Site, readAt: seq<Site>) returns (risk: Option<Evidence>, anyOrder: bool)
    requires Comparable([w], readAt)
    ensures risk.Some? <==> OrderedWith(w, readAt, true)
    ensures risk.Some? ==> FirstWith(w, readAt, risk.value)
    ensures anyOrder <==> OrderedWith(w, readAt, true) || OrderedWith(w, readAt, false)
  {
    risk, anyOrder := None, false;
    for i := 0 to |readAt|
      invariant risk.Some? <==> OrderedWith(w, readAt[..i], true)
      invariant risk.Some? ==> FirstWith(w, readAt, risk.value)
      invariant anyOrder <==> OrderedWith(w, readAt[..i], true) || OrderedWith(w, readAt[..i], false)
    {
      assert w in [w] && readAt[i] in readAt;
      var first, either := ComparePair(w, readAt[i]);
      if risk.None? { risk := first; }
      anyOrder := anyOrder || either;
      OrderedWithNext(w, readAt, i, true);
      OrderedWithNext(w, readAt, i, false);
    }
    assert readAt[..|readAt|] == readAt;
  }

  /** The verdict on a pair of accesses below one root. */
  method Judge(s: Scope, w: Access, r: Access) returns (v: Verdict)
    requires s.Valid()
    ensures IsVerdict(s, w, r, v)
  {
    if !Paired(s, w, r) { return NotPaired; }
    var forks := Forks(s, w, r);
    var writeSites := BranchSites(forks, WriteTarget(s, w, r));
    var readSites := BranchSites(forks, ReadTarget(s, w, r));
    var risk, anyOrder := CompareSites(writeSites, readSites);
    SitesDecide(s, w, r, writeSites, readSites);
    if risk.Some? { return Risk(risk.value); }
    return if anyOrder then ReadFirst else Unordered;
  }

  lemma SitesDecide(s: Scope, w: Access, r: Access, writeAt: seq<Site>, readAt: seq<Site>)
    requires Paired(s, w, r)
    requires forall x :: x in writeAt <==> x.flow in Forks(s, w, r) && LeavesAt(x, WriteTarget(s, w, r))
    requires forall x :: x in readAt <==> x.flow in Forks(s, w, r) && LeavesAt(x, ReadTarget(s, w, r))
    ensures Ordered(writeAt, readAt, true) <==> WriteMayComeFirst(s, w, r)
    ensures Ordered(writeAt, readAt, false) <==> ReadMayComeFirst(s, w, r)
  {
    forall ws, rs ensures Departs(s, w, r, ws, rs) <==> ws in writeAt && rs in readAt {}
  }

  /** The evidence shown is that of two departures of which the write comes first. */
  lemma RiskMeans(s: Scope, w: Access, r: Access, evidence: Evidence)
    requires RiskShown(s, w, r, evidence)
    ensures exists ws, rs :: Departs(s, w, r, ws, rs) && Witnesses(ws, rs, evidence)
  {
    var writeAt, readAt := SitesOf(Forks(s, w, r), WriteTarget(s, w, r)), SitesOf(Forks(s, w, r), ReadTarget(s, w, r));
    var i, j :| IsFirst(writeAt, readAt, i, j, evidence);
    assert writeAt[i] in writeAt && readAt[j] in readAt;
    assert Departs(s, w, r, writeAt[i], readAt[j]);
  }
}
