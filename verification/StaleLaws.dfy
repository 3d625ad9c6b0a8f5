/** Which accesses are judged and how, read off the flows and their paths
    (application/flow_consistency.py). */
module StaleLaws {
  import opened Wrappers
  import opened SiteOrder
  import opened StaleReads
  import opened StalePasses

  // ----- the order of two departures

  predicate Alike(a: Step, b: Step) { a.kind == b.kind && a.name == b.name && a.path == b.path && a.startLine == b.startLine }

  /** Up to step `k` both flows do the same, and there the first one does something else. */
  predicate PartAt(w: Site, r: Site, k: int) {
    && 0 < k <= w.index < |w.flow.steps| && k <= r.index < |r.flow.steps|
    && (forall j | 0 < j < k :: Alike(w.flow.steps[j], r.flow.steps[j]))
    && !Alike(w.flow.steps[k], r.flow.steps[k])
  }

  predicate Shows(a: Step, b: Step, ev: Evidence) {
    ev.path == a.path && ev.line == a.startLine && ev.laterPath == b.path && ev.laterLine == b.startLine
  }

  /** Where both leave one flow, the smaller step is first; otherwise the smaller line at the step
      where the flows part, if that is one file. */
  ghost predicate LeavesFirst(w: Site, r: Site, ev: Evidence) {
    if w.flow.id == r.flow.id then w.index < |w.flow.steps| && w.index < r.index < |r.flow.steps| && Shows(w.flow.steps[w.index], r.flow.steps[r.index], ev)
    else exists k :: LeavesFirstAt(w, r, k, ev)
  }

  predicate LeavesFirstAt(w: Site, r: Site, k: int, ev: Evidence) {
    && PartAt(w, r, k) && w.flow.steps[k].path == r.flow.steps[k].path && w.flow.steps[k].startLine < r.flow.steps[k].startLine
    && Shows(w.flow.steps[k], r.flow.steps[k], ev)
  }

  lemma {:induction false} SharedIs(a: seq<Step>, b: seq<Step>, n: nat)
    requires n < |a| && n < |b| && (forall j :: 0 <= j < n ==> SameSite(a[j], b[j])) && !SameSite(a[n], b[n])
    ensures Shared(a, b) == n
    decreases n
  {
    if n > 0 { SharedIs(a[1..], b[1..], n - 1); }
  }

  lemma PartIsShared(w: Site, r: Site, k: nat)
    requires w.Valid() && r.Valid() && PartAt(w, r, k)
    ensures Shared(w.Departure(), r.Departure()) == k - 1
  {
    var a, b := w.Departure(), r.Departure();
    forall j | 0 <= j < k - 1 ensures SameSite(a[j], b[j]) { assert Alike(w.flow.steps[j + 1], r.flow.steps[j + 1]); }
    assert a[k - 1] == w.flow.steps[k] && b[k - 1] == r.flow.steps[k];
    SharedIs(a, b, k - 1);
  }

  lemma SharedParts(w: Site, r: Site)
    requires w.Valid() && r.Valid() && Shared(w.Departure(), r.Departure()) < |w.Departure()| && Shared(w.Departure(), r.Departure()) < |r.Departure()|
    ensures PartAt(w, r, Shared(w.Departure(), r.Departure()) + 1)
  {
    var a, b := w.Departure(), r.Departure();
    var n := Shared(a, b);
    forall j | 0 < j < n + 1 ensures Alike(w.flow.steps[j], r.flow.steps[j]) { assert SameSite(a[j - 1], b[j - 1]); }
    assert !SameSite(a[n], b[n]);
  }

  /** Exactly when and with which lines one departure counts as first. */
  lemma OrderIff(w: Site, r: Site, ev: Evidence)
    requires w.Valid() && r.Valid() && (w.flow.id == r.flow.id ==> w.flow == r.flow)
    ensures OrderOf(w, r) == Some(Order(true, ev)) <==> LeavesFirst(w, r, ev)
  {
    if w.flow.id != r.flow.id {
      var a, b := w.Departure(), r.Departure();
      var n := Shared(a, b);
      if n < |a| && n < |b| {
        SharedParts(w, r);
        assert a[n] == w.flow.steps[n + 1] && b[n] == r.flow.steps[n + 1];
        assert LeavesFirstAt(w, r, n + 1, ev) <==> OrderOf(w, r) == Some(Order(true, ev));
      }
      if k :| LeavesFirstAt(w, r, k, ev) { PartIsShared(w, r, k); }
    }
  }

  // ----- where the two paths part

  /** Both paths have the same call and the same handler at hop `k`, or end with that call. */
  predicate SameHop(w: FlowPath, r: FlowPath, k: nat) {
    && 2 * k < |w| && 2 * k < |r| && w[2 * k] == r[2 * k]
    && (2 * k + 1 < |w| <==> 2 * k + 1 < |r|) && (2 * k + 1 < |w| ==> w[2 * k + 1] == r[2 * k + 1])
  }

  ghost predicate IsFork(w: FlowPath, r: FlowPath, h: nat) { !SameHop(w, r, h) && forall k: nat :: k < h ==> SameHop(w, r, k) }

  lemma HopIff(w: FlowPath, r: FlowPath, k: nat)
    ensures SameHop(w, r, k) <==> Slice(w, 2 * k, 2 * k + 2) != [] && Slice(w, 2 * k, 2 * k + 2) == Slice(r, 2 * k, 2 * k + 2)
  {
    var a, b := Slice(w, 2 * k, 2 * k + 2), Slice(r, 2 * k, 2 * k + 2);
    if 2 * k < |w| { assert a[0] == w[2 * k] && (2 * k + 1 < |w| <==> |a| == 2) && (|a| == 2 ==> a[1] == w[2 * k + 1]); }
    if 2 * k < |r| { assert b[0] == r[2 * k] && (2 * k + 1 < |r| <==> |b| == 2) && (|b| == 2 ==> b[1] == r[2 * k + 1]); }
    if SameHop(w, r, k) { assert a == b; }
  }

  lemma {:induction false} HopsFork(w: FlowPath, r: FlowPath, h: nat)
    requires forall k: nat :: k < h ==> SameHop(w, r, k)
    ensures IsFork(w, r, Hops(w, r, h))
    decreases |w| - h
  {
    HopIff(w, r, h);
    if SameHop(w, r, h) { HopsFork(w, r, h + 1); }
  }

  lemma {:induction false} OneFork(w: FlowPath, r: FlowPath, k: nat, h: nat)
    requires k <= h && IsFork(w, r, h)
    ensures Hops(w, r, k) == h
    decreases h - k
  {
    HopIff(w, r, k);
    if k < h {
      assert SameHop(w, r, k);
      OneFork(w, r, k + 1, h);
    }
  }

  /** One of the calls that a path makes from hop `h` on. */
  ghost predicate CallsAfter(path: FlowPath, h: nat, id: string) { exists k: nat :: h <= k && 2 * k < |path| && path[2 * k] == id }

  lemma {:induction false} OutputsAre(path: FlowPath, h: nat)
    ensures forall id :: id in Outputs(path, 2 * h) <==> CallsAfter(path, h, id)
    ensures 2 * h < |path| ==> Outputs(path, 2 * h) != [] && Outputs(path, 2 * h)[0] == path[2 * h]
    ensures 2 * h >= |path| ==> Outputs(path, 2 * h) == []
    decreases |path| - h
  {
    if 2 * h < |path| {
      OutputsAre(path, h + 1);
      assert 2 * h + 2 == 2 * (h + 1);
      forall id ensures id in Outputs(path, 2 * h) <==> CallsAfter(path, h, id) {
        if CallsAfter(path, h, id) {
          var k: nat :| h <= k && 2 * k < |path| && path[2 * k] == id;
          if k > h { assert CallsAfter(path, h + 1, id); }
        }
        if CallsAfter(path, h + 1, id) {
          var k: nat :| h + 1 <= k && 2 * k < |path| && path[2 * k] == id;
          assert CallsAfter(path, h, id);
        }
        if id == path[2 * h] { assert CallsAfter(path, h, id); }
      }
    }
  }

  // ----- the pairs that are judged

  predicate Touches(s: Scope, a: Access, kind: string) {
    && a.flow in s.flows && !a.flow.cycle && a.flow.id in s.paths && a.index < |a.flow.steps|
    && var step := a.flow.steps[a.index];
    && step.kind == kind && step.resourceIdentity != "" && !step.ordered
  }

  predicate SameRecord(w: Step, r: Step) {
    w.resourceIdentity == r.resourceIdentity && (w.keyIdentity == r.keyIdentity || w.keyIdentity == "" || r.keyIdentity == "")
  }

  /** After the hops that both share, the write's path crosses Kafka and the read's stays on REST. */
  ghost predicate Splits(s: Scope, wp: FlowPath, rp: FlowPath, h: nat) {
    && IsFork(wp, rp, h) && (exists id :: CallsAfter(wp, h, id) && id in s.systems && s.systems[id] == "kafka")
    && forall id :: CallsAfter(rp, h, id) ==> id in s.systems && s.systems[id] == "rest"
  }

  ghost predicate IsJudged(s: Scope, w: Access, r: Access) {
    && Touches(s, w, "data_write") && Touches(s, r, "data_read") && SameRecord(w.flow.steps[w.index], r.flow.steps[r.index])
    && exists h: nat :: Splits(s, s.paths[w.flow.id], s.paths[r.flow.id], h)
  }

  lemma SplitsIff(s: Scope, w: Access, r: Access)
    requires w.flow.id in s.paths && r.flow.id in s.paths
    ensures Diverges(s, w, r) <==> exists h: nat :: Splits(s, s.paths[w.flow.id], s.paths[r.flow.id], h)
  {
    var wp, rp := s.paths[w.flow.id], s.paths[r.flow.id];
    var n := Hops(wp, rp, 0);
    HopsFork(wp, rp, 0);
    OutputsAre(wp, n);
    OutputsAre(rp, n);
    assert Diverges(s, w, r) <==> Splits(s, wp, rp, n);
    if h: nat :| Splits(s, wp, rp, h) { OneFork(wp, rp, 0, h); }
  }

  lemma JudgedIff(s: Scope, w: Access, r: Access)
    ensures Paired(s, w, r) <==> IsJudged(s, w, r)
  {
    if w.flow.id in s.paths && r.flow.id in s.paths { SplitsIff(s, w, r); }
  }

  // ----- the verdict

  /** The site lies in a flow of the handler where the paths part. */
  ghost predicate InHandler(s: Scope, site: Site, wp: FlowPath, h: nat) {
    && site.flow in s.flows && !site.flow.cycle && site.flow.id in s.paths && 0 < site.index < |site.flow.steps|
    && s.paths[site.flow.id] == if 2 * h <= |wp| then wp[..2 * h] else wp
  }

  ghost predicate WriteLeaves(s: Scope, w: Access, h: nat, site: Site)
    requires w.flow.id in s.paths
  {
    var wp := s.paths[w.flow.id];
    InHandler(s, site, wp, h) && 2 * h < |wp| && site.flow.steps[site.index].endpointId == wp[2 * h]
  }

  /** The read leaves with the next call of its path, or is itself in the handler. */
  ghost predicate ReadLeaves(s: Scope, w: Access, r: Access, h: nat, site: Site)
    requires w.flow.id in s.paths && r.flow.id in s.paths
  {
    var rp := s.paths[r.flow.id];
    && InHandler(s, site, s.paths[w.flow.id], h)
    && if 2 * h < |rp| then site.flow.steps[site.index].endpointId == rp[2 * h] else site.flow.id == r.flow.id && site.index == r.index
  }

  ghost predicate Leave(s: Scope, w: Access, r: Access, ws: Site, rs: Site) {
    && IsJudged(s, w, r)
    && exists h: nat :: Splits(s, s.paths[w.flow.id], s.paths[r.flow.id], h) && WriteLeaves(s, w, h, ws) && ReadLeaves(s, w, r, h, rs)
  }

  lemma {:induction false} HandlerFlows(s: Scope, flows: seq<Flow>, prefix: FlowPath, f: Flow)
    ensures f in FlowsAt(s, flows, prefix) <==> f in flows && !f.cycle && f.id in s.paths && s.paths[f.id] == prefix
  {
    if flows != [] {
      HandlerFlows(s, flows[..|flows| - 1], prefix, f);
      assert flows == flows[..|flows| - 1] + [flows[|flows| - 1]];
    }
  }

  lemma PrefixIs(path: FlowPath, h: nat)
    ensures Slice(path, 0, 2 * h) == if 2 * h <= |path| then path[..2 * h] else path
  {
  }

  lemma LeavesIff(s: Scope, w: Access, r: Access, h: nat, site: Site)
    requires w.flow.id in s.paths && r.flow.id in s.paths && Splits(s, s.paths[w.flow.id], s.paths[r.flow.id], h)
    ensures Diverges(s, w, r)
    ensures WriteLeaves(s, w, h, site) <==> site.flow in Forks(s, w, r) && LeavesAt(site, WriteTarget(s, w, r))
    ensures ReadLeaves(s, w, r, h, site) <==> site.flow in Forks(s, w, r) && LeavesAt(site, ReadTarget(s, w, r))
  {
    var wp, rp := s.paths[w.flow.id], s.paths[r.flow.id];
    SplitsIff(s, w, r);
    OneFork(wp, rp, 0, h);
    OutputsAre(wp, h);
    OutputsAre(rp, h);
    PrefixIs(wp, h);
    HandlerFlows(s, s.flows, Slice(wp, 0, 2 * h), site.flow);
    var id :| CallsAfter(wp, h, id);
  }

  lemma LeaveIff(s: Scope, w: Access, r: Access, ws: Site, rs: Site)
    ensures Departs(s, w, r, ws, rs) <==> Leave(s, w, r, ws, rs)
  {
    JudgedIff(s, w, r);
    if IsJudged(s, w, r) {
      forall h: nat | Splits(s, s.paths[w.flow.id], s.paths[r.flow.id], h)
        ensures Departs(s, w, r, ws, rs) <==> WriteLeaves(s, w, h, ws) && ReadLeaves(s, w, r, h, rs)
      {
        LeavesIff(s, w, r, h, ws);
        LeavesIff(s, w, r, h, rs);
      }
    }
  }

  ghost predicate WriteFirst(s: Scope, w: Access, r: Access, ev: Evidence) {
    exists ws, rs :: Leave(s, w, r, ws, rs) && LeavesFirst(ws, rs, ev)
  }

  ghost predicate ReadFirstOf(s: Scope, w: Access, r: Access, ev: Evidence) {
    exists ws, rs :: Leave(s, w, r, ws, rs) && LeavesFirst(rs, ws, ev)
  }

  lemma LeftComparable(s: Scope, w: Access, r: Access, ws: Site, rs: Site)
    requires s.Valid() && Leave(s, w, r, ws, rs)
    ensures ws.Valid() && rs.Valid() && (ws.flow.id == rs.flow.id ==> ws.flow == rs.flow)
  {
  }

  lemma WriteFirstIff(s: Scope, w: Access, r: Access)
    requires s.Valid()
    ensures WriteMayComeFirst(s, w, r) <==> exists ev :: WriteFirst(s, w, r, ev)
  {
    if WriteMayComeFirst(s, w, r) {
      var ws, rs :| Departs(s, w, r, ws, rs) && Before(ws, rs);
      LeaveIff(s, w, r, ws, rs);
      OrderIff(ws, rs, OrderOf(ws, rs).value.evidence);
      assert WriteFirst(s, w, r, OrderOf(ws, rs).value.evidence);
    }
    if ev :| WriteFirst(s, w, r, ev) {
      var ws, rs :| Leave(s, w, r, ws, rs) && LeavesFirst(ws, rs, ev);
      LeftComparable(s, w, r, ws, rs);
      LeaveIff(s, w, r, ws, rs);
      OrderIff(ws, rs, ev);
      assert Before(ws, rs);
    }
  }

  lemma ReadFirstIff(s: Scope, w: Access, r: Access)
    requires s.Valid()
    ensures ReadMayComeFirst(s, w, r) <==> exists ev :: ReadFirstOf(s, w, r, ev)
  {
    if ReadMayComeFirst(s, w, r) {
      var ws, rs :| Departs(s, w, r, ws, rs) && Before(rs, ws);
      LeaveIff(s, w, r, ws, rs);
      OrderIff(rs, ws, OrderOf(rs, ws).value.evidence);
      assert ReadFirstOf(s, w, r, OrderOf(rs, ws).value.evidence);
    }
    if ev :| ReadFirstOf(s, w, r, ev) {
      var ws, rs :| Leave(s, w, r, ws, rs) && LeavesFirst(rs, ws, ev);
      LeftComparable(s, w, r, ws, rs);
      LeaveIff(s, w, r, ws, rs);
      OrderIff(rs, ws, ev);
      assert Before(rs, ws);
    }
  }

  /** The verdict on every pair. */
  lemma VerdictIff(s: Scope, w: Access, r: Access, v: Verdict)
    requires s.Valid() && IsVerdict(s, w, r, v)
    ensures v.NotPaired? <==> !IsJudged(s, w, r)
    ensures v.Risk? <==> exists ev :: WriteFirst(s, w, r, ev)
    ensures v.Risk? ==> WriteFirst(s, w, r, v.evidence)
    ensures v.ReadFirst? <==> (exists ev :: ReadFirstOf(s, w, r, ev)) && !exists ev :: WriteFirst(s, w, r, ev)
  {
    JudgedIff(s, w, r);
    WriteFirstIff(s, w, r);
    ReadFirstIff(s, w, r);
    if v.Risk? { RiskLeaves(s, w, r, v.evidence); }
  }

  lemma RiskLeaves(s: Scope, w: Access, r: Access, ev: Evidence)
    requires s.Valid() && RiskShown(s, w, r, ev)
    ensures WriteFirst(s, w, r, ev)
  {
    RiskMeans(s, w, r, ev);
    var ws, rs :| Departs(s, w, r, ws, rs) && Witnesses(ws, rs, ev);
    LeaveIff(s, w, r, ws, rs);
    OrderIff(ws, rs, ev);
    assert Leave(s, w, r, ws, rs) && LeavesFirst(ws, rs, ev);
  }

  // ----- the reports

  predicate IsTriple(t: Triple, w: Access, r: Access) {
    && w.index < |w.flow.steps| && r.index < |r.flow.steps|
    && t.writeFlow == w.flow.id && t.writeOrder == w.flow.steps[w.index].order
    && t.readFlow == r.flow.id && t.readOrder == r.flow.steps[r.index].order
  }

  /** The report names both accesses. It is a risk with its lines if the write may come first, and
      leaves the order open otherwise. */
  ghost predicate IsReport(s: Scope, w: Access, r: Access, d: Diagnostic) {
    && IsTriple(d.triple, w, r) && d.triple.root == s.root
    && match d.finding
       case StaleRisk(ev, proven) =>
         WriteFirst(s, w, r, ev) &&
         var key, key' := w.flow.steps[w.index].keyIdentity, r.flow.steps[r.index].keyIdentity;
         (proven <==> key == key' && key != "")
       case OrderOpen => (forall ev :: !WriteFirst(s, w, r, ev)) && forall ev :: !ReadFirstOf(s, w, r, ev)
       case ByLabels => false
  }

  lemma FindsIsReport(s: Scope, w: Access, r: Access, d: Diagnostic)
    requires s.Valid() && Finds(s, w, r, d)
    ensures IsJudged(s, w, r) && IsReport(s, w, r, d)
  {
    JudgedIff(s, w, r);
    WriteFirstIff(s, w, r);
    ReadFirstIff(s, w, r);
    if d.finding.StaleRisk? { RiskLeaves(s, w, r, d.finding.evidence); }
  }

  ghost predicate IsDismissed(s: Scope, w: Access, r: Access) {
    (exists ev :: ReadFirstOf(s, w, r, ev)) && forall ev :: !WriteFirst(s, w, r, ev)
  }

  /** Every judged pair is recorded, and reported unless it is dismissed. */
  lemma JudgedIsReported(s: Scope, w: Access, r: Access, diagnostics: seq<Diagnostic>, decided: set<Triple>)
    requires s.Valid() && ScopeJudged(s, diagnostics, decided) && IsJudged(s, w, r)
    ensures exists t :: t in decided && IsTriple(t, w, r) && t.root == s.root
    ensures IsDismissed(s, w, r) || exists d :: d in diagnostics && IsReport(s, w, r, d)
  {
    JudgedIff(s, w, r);
    assert Judged(s, w, r, diagnostics, decided);
    assert TripleOf(s.root, w, r) in decided && IsTriple(TripleOf(s.root, w, r), w, r);
    WriteFirstIff(s, w, r);
    ReadFirstIff(s, w, r);
    if !IsDismissed(s, w, r) {
      var d :| d in diagnostics && Finds(s, w, r, d);
      FindsIsReport(s, w, r, d);
    }
  }

  /** Nothing else is recorded or reported. */
  lemma ReportedIsJudged(scopes: seq<Scope>, diagnostics: seq<Diagnostic>, decided: set<Triple>)
    requires Sound(scopes, diagnostics, decided) && forall s :: s in scopes ==> s.Valid()
    ensures forall t :: t in decided ==> exists s, w, r :: s in scopes && IsJudged(s, w, r) && IsTriple(t, w, r) && t.root == s.root
    ensures forall d :: d in diagnostics ==> exists s, w, r :: s in scopes && IsJudged(s, w, r) && IsReport(s, w, r, d)
  {
    forall t | t in decided ensures exists s, w, r :: s in scopes && IsJudged(s, w, r) && IsTriple(t, w, r) && t.root == s.root {
      var s, w, r :| s in scopes && Paired(s, w, r) && t == TripleOf(s.root, w, r);
      JudgedIff(s, w, r);
      assert IsTriple(t, w, r);
    }
    forall d | d in diagnostics ensures exists s, w, r :: s in scopes && IsJudged(s, w, r) && IsReport(s, w, r, d) {
      var s, w, r :| s in scopes && Finds(s, w, r, d);
      FindsIsReport(s, w, r, d);
    }
  }

  // ----- the second pass

  /** What a step accesses, unless that is only known at run time. */
  predicate Names(step: Step, resource: string) {
    && resource != ""
    && (step.resource == resource || (step.resource == "" && step.name == resource && resource != "<dynamic>"))
  }

  predicate IsNamed(step: Step) { step.resource != "" || (step.name != "" && step.name != "<dynamic>") }

  /** The accesses are proven to touch different records: both name what they access, and their
      identities differ, or else those of their keys. */
  predicate AreApart(w: Step, r: Step) {
    && IsNamed(w) && IsNamed(r) && w.resourceIdentity != "" && r.resourceIdentity != ""
    && (w.resourceIdentity != r.resourceIdentity
        || (w.key != "" && r.key != "" && w.keyIdentity != "" && r.keyIdentity != "" && w.keyIdentity != r.keyIdentity))
  }

  predicate SameResource(w: Step, r: Step) { IsNamed(w) && IsNamed(r) && w.resourceIdentity == r.resourceIdentity != "" }

  /** What keeps a pair from being proven to touch one record. */
  predicate IsLimit(w: Step, r: Step, limitation: string) {
    || (limitation == "resource" && (!IsNamed(w) || !IsNamed(r)))
    || (limitation == "resource identity" && IsNamed(w) && IsNamed(r) && (w.resourceIdentity == "" || r.resourceIdentity == ""))
    || (SameResource(w, r) && w.key != "" && r.key != "" && IsKeyLimit(w, r, limitation))
    || (SameResource(w, r) && (w.key == "" || r.key == "") && IsQueryLimit(w, r, limitation))
  }

  predicate IsKeyLimit(w: Step, r: Step, limitation: string) {
    if w.keyIdentity == "" || r.keyIdentity == "" then limitation == if w.key == r.key then "key identity" else "key expressions"
    else limitation == "" && w.keyIdentity == r.keyIdentity
  }

  predicate IsQueryLimit(w: Step, r: Step, limitation: string) {
    if w.queryShape == "" || r.queryShape == "" then limitation == "key or query"
    else limitation == if (w.queryShape == "point" || w.queryShape == "upsert") && r.queryShape == "point" then "read key" else "query shape"
  }

  lemma LimitIff(w: Step, r: Step, limitation: string)
    ensures OverlapOf(w, r) == Possible(limitation) <==> IsLimit(w, r, limitation)
  {
    NamesIff(w, "resource");
    NamesIff(r, "resource");
  }

  /** The index leads from the write to the read. */
  ghost predicate IsFiled(w: Step, r: Step) {
    || !IsNamed(w) || !IsNamed(r) || w.resourceIdentity == "" || w.resourceIdentity == r.resourceIdentity
    || exists resource :: Names(w, resource) && Names(r, resource)
  }

  lemma NamesIff(step: Step, resource: string)
    requires resource != ""
    ensures Names(step, resource) <==> ResourceOf(step) == resource
    ensures IsNamed(step) <==> ResourceOf(step) != ""
  {
  }

  lemma ApartIff(w: Step, r: Step)
    ensures OverlapOf(w, r).Excluded? <==> AreApart(w, r)
  {
    NamesIff(w, "resource");
    NamesIff(r, "resource");
  }

  lemma FiledIff(w: Step, r: Step)
    ensures IsCandidate(w, r) <==> IsFiled(w, r)
  {
    NamesIff(w, "resource");
    NamesIff(r, "resource");
    if IsNamed(w) && IsNamed(r) {
      NamesIff(w, ResourceOf(w));
      NamesIff(r, ResourceOf(w));
      if ResourceOf(w) == ResourceOf(r) { assert Names(w, ResourceOf(w)) && Names(r, ResourceOf(w)); }
      if resource :| Names(w, resource) && Names(r, resource) {
        NamesIff(w, resource);
        NamesIff(r, resource);
      }
    }
  }

  ghost predicate Remains(w: Access, r: Access, roots: (string, string) -> set<string>, decided: set<Triple>, t: Triple) {
    && IsTriple(t, w, r) && t.root in roots(w.flow.id, r.flow.id) && t !in decided
    && IsFiled(w.flow.steps[w.index], r.flow.steps[r.index]) && !AreApart(w.flow.steps[w.index], r.flow.steps[r.index])
  }

  /** Exactly the filed pairs that the first pass did not judge and that are not proven apart. */
  lemma RemainsIff(ws: seq<Access>, rs: seq<Access>, roots: (string, string) -> set<string>, decided: set<Triple>, t: Triple)
    ensures LeftOver(ws, rs, roots, decided, t) <==> exists w, r :: w in ws && r in rs && Remains(w, r, roots, decided, t)
  {
    forall w: Access, r: Access | w.Valid() && r.Valid()
      ensures IsLeft(w, r, roots, decided, t) <==> Remains(w, r, roots, decided, t)
    {
      ApartIff(w.Step(), r.Step());
      FiledIff(w.Step(), r.Step());
    }
  }
}
