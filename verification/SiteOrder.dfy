/** Which of two branches leaves a handler first (application/flow_consistency.py). */
module SiteOrder {
  import opened Wrappers
  import Text

  /** The part of a step that is compared, and what identifies it. An empty text is absent. */
  datatype Step = Step(
    order: int, kind: string, name: string, path: string, startLine: int, endpointId: string,
    resource: string, resourceIdentity: string, key: string, keyIdentity: string, queryShape: string,
    ordered: bool, asynchronous: bool, synchronous: bool)

  datatype Flow = Flow(id: string, cycle: bool, steps: seq<Step>)

  /** A step at which a branch leaves the handler; the trigger, step 0, is none. */
  datatype Site = Site(flow: Flow, index: nat) {
    predicate Valid() { 0 < index < |flow.steps| }

    /** The internal calls up to the departure. */
    function Departure(): seq<Step>
      requires Valid()
    {
      flow.steps[1..index + 1]
    }
  }

  /** The two source lines that decide, the earlier one first. */
  datatype Evidence = Evidence(path: string, line: int, laterPath: string, laterLine: int)

  datatype Order = Order(writeFirst: bool, evidence: Evidence)

  // ----- _site_order

  predicate SameSite(a: Step, b: Step) {
    a.kind == b.kind && a.name == b.name && a.path == b.path && a.startLine == b.startLine
  }

  /** How many leading steps two departures share. */
  function Shared(a: seq<Step>, b: seq<Step>): (n: nat)
    ensures n <= |a| && n <= |b|
    ensures forall i :: 0 <= i < n ==> SameSite(a[i], b[i])
    ensures n < |a| && n < |b| ==> !SameSite(a[n], b[n])
  {
    if a == [] || b == [] || !SameSite(a[0], b[0]) then 0 else 1 + Shared(a[1..], b[1..])
  }

  function Lines(a: Step, b: Step): Evidence {
    if a.startLine <= b.startLine then Evidence(a.path, a.startLine, b.path, b.startLine)
    else Evidence(b.path, b.startLine, a.path, a.startLine)
  }

  function Compare(w: Step, r: Step): Option<Order> {
    if w.path != r.path || w.startLine == r.startLine then None
    else Some(Order(w.startLine < r.startLine, Lines(w, r)))
  }

  function OrderOf(w: Site, r: Site): Option<Order>
    requires w.Valid() && r.Valid() && (w.flow.id == r.flow.id ==> w.flow == r.flow)
  {
    if w.flow.id == r.flow.id then
      if w.index == r.index then None else
        var left, right := w.flow.steps[if w.index < r.index then w.index else r.index], w.flow.steps[if w.index < r.index then r.index else w.index];
        Some(Order(w.index < r.index, Evidence(left.path, left.startLine, right.path, right.startLine)))
    else
      var a, b := w.Departure(), r.Departure();
      var shared := Shared(a, b);
      if shared >= |a| || shared >= |b| then None else Compare(a[shared], b[shared])
  }

  method CountShared(a: seq<Step>, b: seq<Step>) returns (shared: nat)
    ensures shared == Shared(a, b)
  {
    shared := 0;
    while shared < |a| && shared < |b|
      invariant shared <= |a| && shared <= |b|
      invariant Shared(a, b) == shared + Shared(a[shared..], b[shared..])
    {
      if !SameSite(a[shared], b[shared]) { break; }
      assert a[shared..][1..] == a[shared + 1..] && b[shared..][1..] == b[shared + 1..];
      shared := shared + 1;
    }
  }

  method FindOrder(w: Site, r: Site) returns (order: Option<Order>)
    requires w.Valid() && r.Valid() && (w.flow.id == r.flow.id ==> w.flow == r.flow)
    ensures order == OrderOf(w, r)
  {
    if w.flow.id == r.flow.id {
      if w.index == r.index { return None; }
      var first, second := if w.index < r.index then w.index else r.index, if w.index < r.index then r.index else w.index;
      var left, right := w.flow.steps[first], w.flow.steps[second];
      return Some(Order(w.index < r.index, Evidence(left.path, left.startLine, right.path, right.startLine)));
    }
    var a, b := w.Departure(), r.Departure();
    var shared := CountShared(a, b);
    if shared >= |a| || shared >= |b| { return None; }
    return Compare(a[shared], b[shared]);
  }

  // ----- the verdict is antisymmetric

  lemma {:induction false} SharedSymmetric(a: seq<Step>, b: seq<Step>)
    ensures Shared(a, b) == Shared(b, a)
    decreases |a|
  {
    if a != [] && b != [] && SameSite(a[0], b[0]) { SharedSymmetric(a[1..], b[1..]); }
  }

  /** Swapping the sites negates the verdict and keeps the evidence. */
  lemma Antisymmetric(w: Site, r: Site)
    requires w.Valid() && r.Valid() && (w.flow.id == r.flow.id ==> w.flow == r.flow)
    ensures OrderOf(r, w) ==
      match OrderOf(w, r)
      case None => None
      case Some(order) => Some(Order(!order.writeFirst, order.evidence))
  {
    SharedSymmetric(w.Departure(), r.Departure());
  }

  // ----- the verdicts never run in a circle

  /** A total order of sites: by file, line, kind and name. */
  predicate StepLess(a: Step, b: Step) {
    if a.path != b.path then Text.Le(a.path, b.path)
    else if a.startLine != b.startLine then a.startLine < b.startLine
    else if a.kind != b.kind then Text.Le(a.kind, b.kind)
    else a.name != b.name && Text.Le(a.name, b.name)
  }

  /** Departures compare by their first different sites; a shorter one comes before its extensions. */
  predicate Earlier(a: seq<Step>, b: seq<Step>) {
    b != [] && (a == [] || (if SameSite(a[0], b[0]) then Earlier(a[1..], b[1..]) else StepLess(a[0], b[0])))
  }

  lemma StepLessTransitive(a: Step, b: Step, c: Step)
    requires StepLess(a, b) && StepLess(b, c)
    ensures StepLess(a, c) && !SameSite(a, c)
  {
    Text.LeOrders({a.path, b.path, c.path});
    Text.LeOrders({a.kind, b.kind, c.kind});
    Text.LeOrders({a.name, b.name, c.name});
  }

  lemma {:induction false} EarlierTransitive(a: seq<Step>, b: seq<Step>, c: seq<Step>)
    requires Earlier(a, b) && Earlier(b, c)
    ensures Earlier(a, c)
    decreases |a|
  {
    if a != [] {
      if SameSite(a[0], b[0]) && SameSite(b[0], c[0]) {
        EarlierTransitive(a[1..], b[1..], c[1..]);
      } else if !SameSite(a[0], b[0]) && !SameSite(b[0], c[0]) {
        StepLessTransitive(a[0], b[0], c[0]);
      }
    }
  }

  lemma {:induction false} EarlierIrreflexive(a: seq<Step>)
    ensures !Earlier(a, a)
  {
    if a != [] { EarlierIrreflexive(a[1..]); }
  }

  lemma {:induction false} PrefixIsEarlier(a: seq<Step>, b: seq<Step>)
    requires a < b
    ensures Earlier(a, b)
  {
    if a != [] {
      assert a[0] == b[0];
      PrefixIsEarlier(a[1..], b[1..]);
    }
  }

  lemma {:induction false} DivergenceDecides(a: seq<Step>, b: seq<Step>)
    requires Shared(a, b) < |a| && Shared(a, b) < |b|
    requires a[Shared(a, b)].path == b[Shared(a, b)].path && a[Shared(a, b)].startLine < b[Shared(a, b)].startLine
    ensures Earlier(a, b)
  {
    if SameSite(a[0], b[0]) { DivergenceDecides(a[1..], b[1..]); }
  }

  ghost predicate Before(w: Site, r: Site) {
    w.Valid() && r.Valid() && (w.flow.id == r.flow.id ==> w.flow == r.flow) &&
    OrderOf(w, r).Some? && OrderOf(w, r).value.writeFirst
  }

  /** Every verdict agrees with one strict total order of departures. */
  lemma BeforeIsEarlier(w: Site, r: Site)
    requires Before(w, r)
    ensures Earlier(w.Departure(), r.Departure())
  {
    if w.flow.id == r.flow.id {
      assert r.Departure()[..w.index] == w.Departure();
      PrefixIsEarlier(w.Departure(), r.Departure());
    } else {
      DivergenceDecides(w.Departure(), r.Departure());
    }
  }

  /** A chain of sites, each before the next. */
  ghost predicate Chain(sites: seq<Site>) {
    |sites| >= 2 && forall i, j :: 0 <= i && j == i + 1 < |sites| ==> Before(sites[i], sites[j])
  }

  /** However many branches are compared, the verdicts never lead back to their start. */
  lemma {:induction false} NoCircle(sites: seq<Site>)
    requires Chain(sites)
    ensures !Before(sites[|sites| - 1], sites[0])
  {
    var last := |sites| - 1;
    ChainIsEarlier(sites);
    if Before(sites[last], sites[0]) {
      BeforeIsEarlier(sites[last], sites[0]);
      EarlierTransitive(sites[0].Departure(), sites[last].Departure(), sites[0].Departure());
      EarlierIrreflexive(sites[0].Departure());
    }
  }

  lemma {:induction false} ChainIsEarlier(sites: seq<Site>)
    requires Chain(sites)
    ensures sites[0].Valid() && sites[|sites| - 1].Valid() && Earlier(sites[0].Departure(), sites[|sites| - 1].Departure())
    decreases |sites|
  {
    var n := |sites| - 1;
    assert Before(sites[n - 1], sites[n]);
    BeforeIsEarlier(sites[n - 1], sites[n]);
    if n > 1 {
      ChainIsEarlier(sites[..n]);
      EarlierTransitive(sites[0].Departure(), sites[n - 1].Departure(), sites[n].Departure());
    }
  }
}
