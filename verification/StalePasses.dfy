/** The two passes over pairs of accesses, and the hand-over between them
    (application/flow_consistency.py). */
module StalePasses {
  import opened Wrappers
  import opened Basics
  import opened SiteOrder
  import opened StaleReads

  /** A pair of accesses under one root, as the set `decided` records it. */
  datatype Triple = Triple(root: string, writeFlow: string, writeOrder: int, readFlow: string, readOrder: int)

  /** A risk is rated by whether both accesses are known to touch one record. */
  datatype Finding = StaleRisk(evidence: Evidence, keyProven: bool) | OrderOpen | ByLabels
  datatype Diagnostic = Diagnostic(triple: Triple, finding: Finding)

  function TripleOf(root: string, w: Access, r: Access): Triple
    requires w.Valid() && r.Valid()
  {
    Triple(root, w.flow.id, w.Step().order, r.flow.id, r.Step().order)
  }

  // ----- first pass: _call_graph_stale_reads

  predicate KeyProven(w: Access, r: Access)
    requires w.Valid() && r.Valid()
  {
    w.Step().keyIdentity != "" && w.Step().keyIdentity == r.Step().keyIdentity
  }

  /** What the first pass reports of a pair. */
  ghost predicate Finds(s: Scope, w: Access, r: Access, d: Diagnostic) {
    && Paired(s, w, r) && d.triple == TripleOf(s.root, w, r)
    && (if WriteMayComeFirst(s, w, r)
        then d.finding.StaleRisk? && RiskShown(s, w, r, d.finding.evidence) && d.finding.keyProven == KeyProven(w, r)
        else d.finding.OrderOpen? && !ReadMayComeFirst(s, w, r))
  }

  ghost predicate Dismissed(s: Scope, w: Access, r: Access) {
    ReadMayComeFirst(s, w, r) && !WriteMayComeFirst(s, w, r)
  }

  /** The pair was judged: recorded, and reported unless it was dismissed. */
  ghost predicate Judged(s: Scope, w: Access, r: Access, diagnostics: seq<Diagnostic>, decided: set<Triple>) {
    && TripleIn(s, w, r, decided)
    && (Paired(s, w, r) && !Dismissed(s, w, r) ==> exists d :: d in diagnostics && Finds(s, w, r, d))
  }

  ghost predicate TripleIn(s: Scope, w: Access, r: Access, decided: set<Triple>) {
    Paired(s, w, r) ==> TripleOf(s.root, w, r) in decided
  }

  /** Nothing is recorded or reported but judged pairs, none of them dismissed. */
  ghost predicate Sound(scopes: seq<Scope>, diagnostics: seq<Diagnostic>, decided: set<Triple>) {
    && (forall t :: t in decided ==> exists s, w, r :: s in scopes && Paired(s, w, r) && t == TripleOf(s.root, w, r))
    && (forall d :: d in diagnostics ==> d.triple in decided && exists s, w, r :: s in scopes && Finds(s, w, r, d))
  }

  method AccessesOf(s: Scope, kind: string) returns (accesses: seq<Access>)
    ensures forall a :: a in accesses <==> Accessed(s, a, kind)
  {
    accesses := [];
    for i := 0 to |s.flows|
      invariant forall a :: a in accesses <==> a.flow in s.flows[..i] && Accessed(s, a, kind)
    {
      var flow := s.flows[i];
      assert s.flows[..i + 1] == s.flows[..i] + [flow];
      var before := accesses;
      for j := 0 to |flow.steps|
        invariant forall a :: a in accesses <==> a in before || (a.flow == flow && a.index < j && Accessed(s, a, kind))
      {
        if Accessed(s, Access(flow, j), kind) { accesses := accesses + [Access(flow, j)]; }
      }
    }
    assert s.flows[..|s.flows|] == s.flows;
  }

  lemma SoundRecorded(scopes: seq<Scope>, s: Scope, w: Access, r: Access, diagnostics: seq<Diagnostic>, decided: set<Triple>)
    requires s in scopes && Paired(s, w, r) && Sound(scopes, diagnostics, decided)
    ensures Sound(scopes, diagnostics, decided + {TripleOf(s.root, w, r)})
  {
  }

  lemma SoundReported(scopes: seq<Scope>, s: Scope, w: Access, r: Access, d: Diagnostic, diagnostics: seq<Diagnostic>, decided: set<Triple>)
    requires s in scopes && Finds(s, w, r, d) && d.triple in decided && Sound(scopes, diagnostics, decided)
    ensures Sound(scopes, diagnostics + [d], decided) && Judged(s, w, r, diagnostics + [d], decided)
  {
    assert d in diagnostics + [d];
  }

  lemma VerdictFinds(s: Scope, w: Access, r: Access, v: Verdict, d: Diagnostic)
    requires IsVerdict(s, w, r, v) && (v.Risk? || v.Unordered?)
    requires Paired(s, w, r) && d == Diagnostic(TripleOf(s.root, w, r), FindingOf(v, w, r))
    ensures Finds(s, w, r, d)
  {
  }

  function FindingOf(v: Verdict, w: Access, r: Access): Finding
    requires w.Valid() && r.Valid()
  {
    if v.Risk? then StaleRisk(v.evidence, KeyProven(w, r)) else OrderOpen
  }

  /** One pair of the nested loops. */
  method JudgePair(scopes: seq<Scope>, s: Scope, w: Access, r: Access, diagnostics: seq<Diagnostic>, decided: set<Triple>)
    returns (diagnostics': seq<Diagnostic>, decided': set<Triple>)
    requires s in scopes && s.Valid() && Sound(scopes, diagnostics, decided)
    ensures Sound(scopes, diagnostics', decided') && Judged(s, w, r, diagnostics', decided')
    ensures diagnostics <= diagnostics' && decided <= decided'
  {
    diagnostics', decided' := diagnostics, decided;
    var v := Judge(s, w, r);
    if v.NotPaired? { return; }
    decided' := decided + {TripleOf(s.root, w, r)};
    SoundRecorded(scopes, s, w, r, diagnostics, decided);
    if v.ReadFirst? { return; }
    diagnostics' := ReportPair(scopes, s, w, r, v, diagnostics, decided');
  }

  method ReportPair(scopes: seq<Scope>, s: Scope, w: Access, r: Access, v: Verdict, diagnostics: seq<Diagnostic>, decided: set<Triple>)
    returns (diagnostics': seq<Diagnostic>)
    requires s in scopes && Sound(scopes, diagnostics, decided) && Paired(s, w, r) && TripleOf(s.root, w, r) in decided
    requires IsVerdict(s, w, r, v) && (v.Risk? || v.Unordered?)
    ensures Sound(scopes, diagnostics', decided) && Judged(s, w, r, diagnostics', decided) && diagnostics <= diagnostics'
  {
    var d := Diagnostic(TripleOf(s.root, w, r), FindingOf(v, w, r));
    VerdictFinds(s, w, r, v, d);
    SoundReported(scopes, s, w, r, d, diagnostics, decided);
    diagnostics' := diagnostics + [d];
  }

  ghost predicate AllJudged(s: Scope, ws: seq<Access>, rs: seq<Access>, diagnostics: seq<Diagnostic>, decided: set<Triple>) {
    forall w, r :: w in ws && r in rs ==> Judged(s, w, r, diagnostics, decided)
  }

  lemma JudgedStill(s: Scope, w: Access, r: Access, d: seq<Diagnostic>, t: set<Triple>, d': seq<Diagnostic>, t': set<Triple>)
    requires Judged(s, w, r, d, t) && d <= d' && t <= t'
    ensures Judged(s, w, r, d', t')
  {
    if e :| e in d && Finds(s, w, r, e) { assert e in d'; }
  }

  lemma AllStill(s: Scope, ws: seq<Access>, rs: seq<Access>, d: seq<Diagnostic>, t: set<Triple>, d': seq<Diagnostic>, t': set<Triple>)
    requires AllJudged(s, ws, rs, d, t) && d <= d' && t <= t'
    ensures AllJudged(s, ws, rs, d', t')
  {
    forall w, r | w in ws && r in rs ensures Judged(s, w, r, d', t') { JudgedStill(s, w, r, d, t, d', t'); }
  }

  method JudgeReads(scopes: seq<Scope>, s: Scope, w: Access, rs: seq<Access>, diagnostics: seq<Diagnostic>, decided: set<Triple>)
    returns (diagnostics': seq<Diagnostic>, decided': set<Triple>)
    requires s in scopes && s.Valid() && Sound(scopes, diagnostics, decided)
    ensures Sound(scopes, diagnostics', decided') && AllJudged(s, [w], rs, diagnostics', decided')
    ensures diagnostics <= diagnostics' && decided <= decided'
  {
    diagnostics', decided' := diagnostics, decided;
    for j := 0 to |rs|
      invariant Sound(scopes, diagnostics', decided') && AllJudged(s, [w], rs[..j], diagnostics', decided')
      invariant diagnostics <= diagnostics' && decided <= decided'
    {
      ghost var d, t := diagnostics', decided';
      diagnostics', decided' := JudgePair(scopes, s, w, rs[j], diagnostics', decided');
      AllStill(s, [w], rs[..j], d, t, diagnostics', decided');
      assert rs[..j + 1] == rs[..j] + [rs[j]];
    }
    assert rs[..|rs|] == rs;
  }

  method JudgeScope(scopes: seq<Scope>, s: Scope, diagnostics: seq<Diagnostic>, decided: set<Triple>)
    returns (diagnostics': seq<Diagnostic>, decided': set<Triple>)
    requires s in scopes && s.Valid() && Sound(scopes, diagnostics, decided)
    ensures Sound(scopes, diagnostics', decided') && ScopeJudged(s, diagnostics', decided')
    ensures diagnostics <= diagnostics' && decided <= decided'
  {
    diagnostics', decided' := diagnostics, decided;
    var ws := AccessesOf(s, "data_write");
    var rs := AccessesOf(s, "data_read");
    for i := 0 to |ws|
      invariant Sound(scopes, diagnostics', decided') && AllJudged(s, ws[..i], rs, diagnostics', decided')
      invariant diagnostics <= diagnostics' && decided <= decided'
    {
      ghost var d, t := diagnostics', decided';
      diagnostics', decided' := JudgeReads(scopes, s, ws[i], rs, diagnostics', decided');
      AllStill(s, ws[..i], rs, d, t, diagnostics', decided');
      assert ws[i] in [ws[i]] && ws[..i + 1] == ws[..i] + [ws[i]];
    }
    assert ws[..|ws|] == ws;
  }

  ghost predicate ScopeJudged(s: Scope, diagnostics: seq<Diagnostic>, decided: set<Triple>) {
    forall w, r :: Paired(s, w, r) ==> Judged(s, w, r, diagnostics, decided)
  }

  lemma ScopeStill(s: Scope, d: seq<Diagnostic>, t: set<Triple>, d': seq<Diagnostic>, t': set<Triple>)
    requires ScopeJudged(s, d, t) && d <= d' && t <= t'
    ensures ScopeJudged(s, d', t')
  {
    forall w, r | Paired(s, w, r) ensures Judged(s, w, r, d', t') { JudgedStill(s, w, r, d, t, d', t'); }
  }

  /** `_call_graph_stale_reads`: records every pair it judges, and reports it unless all of
      its ordered departures put the read first. */
  method CallGraphStaleReads(scopes: seq<Scope>) returns (diagnostics: seq<Diagnostic>, decided: set<Triple>)
    requires forall s :: s in scopes ==> s.Valid()
    ensures Sound(scopes, diagnostics, decided) && forall s :: s in scopes ==> ScopeJudged(s, diagnostics, decided)
  {
    diagnostics, decided := [], {};
    for i := 0 to |scopes|
      invariant Sound(scopes, diagnostics, decided) && forall s :: s in scopes[..i] ==> ScopeJudged(s, diagnostics, decided)
    {
      ghost var d, t := diagnostics, decided;
      diagnostics, decided := JudgeScope(scopes, scopes[i], diagnostics, decided);
      forall s | s in scopes[..i] ensures ScopeJudged(s, diagnostics, decided) { ScopeStill(s, d, t, diagnostics, decided); }
      assert scopes[..i + 1] == scopes[..i] + [scopes[i]];
    }
    assert scopes[..|scopes|] == scopes;
  }

  // ----- _overlap

  datatype Overlap = Excluded | Possible(limitation: string)

  function ResourceOf(s: Step): string {
    if s.resource != "" then s.resource else if s.name != "<dynamic>" then s.name else ""
  }

  /** Whether two accesses can touch the same record; an empty limitation means proven. */
  function OverlapOf(w: Step, r: Step): Overlap {
    if ResourceOf(w) == "" || ResourceOf(r) == "" then Possible("resource")
    else if w.resourceIdentity == "" || r.resourceIdentity == "" then Possible("resource identity")
    else if w.resourceIdentity != r.resourceIdentity then Excluded
    else if w.key != "" && r.key != "" then
      if w.keyIdentity != "" && r.keyIdentity != "" then (if w.keyIdentity == r.keyIdentity then Possible("") else Excluded)
      else if w.key == r.key then Possible("key identity") else Possible("key expressions")
    else if w.queryShape != "" && r.queryShape != "" then
      if w.queryShape in {"point", "upsert"} && r.queryShape == "point" then Possible("read key") else Possible("query shape")
    else Possible("key or query")
  }

  // ----- candidate_reads

  /** The reads filed with a write that names its resource: those without resource, with the
      same resource, or with the same identity. */
  predicate IsCandidate(w: Step, r: Step) {
    || ResourceOf(r) == "" || ResourceOf(w) == "" || w.resourceIdentity == ""
    || ResourceOf(r) == ResourceOf(w) || r.resourceIdentity == w.resourceIdentity
  }

  /** The index misses a read that the scan of all pairs would keep exactly when the write
      is identified and the read names another resource without a canonical identity. */
  lemma IndexMisses(w: Step, r: Step)
    ensures !OverlapOf(w, r).Excluded? && !IsCandidate(w, r) <==>
      ResourceOf(w) != "" && w.resourceIdentity != "" && ResourceOf(r) != "" && ResourceOf(r) != ResourceOf(w) && r.resourceIdentity == ""
  {
  }

  ghost predicate ValidAll(accesses: seq<Access>) { forall a :: a in accesses ==> a.Valid() }

  /** The three indexes over the synchronous reads. */
  datatype ReadIndex = ReadIndex(unknown: seq<Access>, byResource: map<string, seq<Access>>, byIdentity: map<string, seq<Access>>) {
    ghost predicate Files(accesses: seq<Access>)
      requires ValidAll(accesses)
    {
      && (forall a :: a in unknown <==> a in accesses && ResourceOf(a.Step()) == "")
      && (forall key, a :: a in Filed(byResource, key) <==> a in accesses && ResourceOf(a.Step()) == key && key != "")
      && (forall key, a :: a in Filed(byIdentity, key) <==> a in accesses && a.Step().resourceIdentity == key && key != "")
    }
  }

  function FiledIn(index: map<string, seq<Access>>, key: string, a: Access): map<string, seq<Access>> {
    if key == "" then index else index[key := Filed(index, key) + [a]]
  }

  function WithRead(index: ReadIndex, a: Access): ReadIndex
    requires a.Valid()
  {
    ReadIndex(if ResourceOf(a.Step()) == "" then index.unknown + [a] else index.unknown,
              FiledIn(index.byResource, ResourceOf(a.Step()), a), FiledIn(index.byIdentity, a.Step().resourceIdentity, a))
  }

  lemma FilesNext(index: ReadIndex, accesses: seq<Access>, a: Access)
    requires ValidAll(accesses) && a.Valid() && index.Files(accesses)
    ensures ValidAll(accesses + [a]) && WithRead(index, a).Files(accesses + [a])
  {
    var after := WithRead(index, a);
    forall key, x ensures x in Filed(after.byResource, key) <==>
      x in Filed(index.byResource, key) || (x == a && ResourceOf(a.Step()) == key && key != "") {}
    forall key, x ensures x in Filed(after.byIdentity, key) <==>
      x in Filed(index.byIdentity, key) || (x == a && a.Step().resourceIdentity == key && key != "") {}
  }

  method IndexReads(rs: seq<Access>) returns (index: ReadIndex)
    requires ValidAll(rs)
    ensures index.Files(rs)
  {
    index := ReadIndex([], map[], map[]);
    for i := 0 to |rs|
      invariant ValidAll(rs[..i]) && index.Files(rs[..i])
    {
      assert rs[i] in rs && rs[..i + 1] == rs[..i] + [rs[i]];
      FilesNext(index, rs[..i], rs[i]);
      index := WithRead(index, rs[i]);
    }
    assert rs[..|rs|] == rs;
  }

  method CandidateReads(w: Step, accesses: seq<Access>, index: ReadIndex) returns (candidates: seq<Access>)
    requires ValidAll(accesses) && index.Files(accesses)
    ensures forall a :: a in candidates <==> a in accesses && IsCandidate(w, a.Step())
  {
    var resource := ResourceOf(w);
    candidates := index.unknown;
    if resource == "" || w.resourceIdentity == "" {
      candidates := candidates + accesses;
    } else {
      candidates := candidates + Filed(index.byResource, resource) + Filed(index.byIdentity, w.resourceIdentity);
    }
  }

  // ----- second pass: branch labels

  /** A pair of labelled accesses under a common root, left over by the first pass. */
  ghost predicate LeftOver(ws: seq<Access>, rs: seq<Access>, roots: (string, string) -> set<string>, decided: set<Triple>, t: Triple) {
    exists w, r :: w in ws && r in rs && w.Valid() && r.Valid() && IsLeft(w, r, roots, decided, t)
  }

  ghost predicate IsLeft(w: Access, r: Access, roots: (string, string) -> set<string>, decided: set<Triple>, t: Triple)
    requires w.Valid() && r.Valid()
  {
    && t.root in roots(w.flow.id, r.flow.id) && t == TripleOf(t.root, w, r) && t !in decided
    && IsCandidate(w.Step(), r.Step()) && !OverlapOf(w.Step(), r.Step()).Excluded?
  }

  function LeftRoots(w: Access, r: Access, roots: (string, string) -> set<string>, decided: set<Triple>): set<Triple>
    requires w.Valid() && r.Valid()
  {
    set root | root in roots(w.flow.id, r.flow.id) && TripleOf(root, w, r) !in decided :: TripleOf(root, w, r)
  }

  method LabelPass(ws: seq<Access>, rs: seq<Access>, index: ReadIndex, roots: (string, string) -> set<string>, decided: set<Triple>)
    returns (left: set<Triple>)
    requires ValidAll(ws) && ValidAll(rs) && index.Files(rs)
    ensures forall t :: t in left <==> LeftOver(ws, rs, roots, decided, t)
  {
    left := {};
    for i := 0 to |ws|
      invariant forall t :: t in left <==> LeftOver(ws[..i], rs, roots, decided, t)
    {
      var w := ws[i];
      assert ws[..i + 1] == ws[..i] + [w];
      var candidates := CandidateReads(w.Step(), rs, index);
      var more := LabelCandidates(w, candidates, roots, decided);
      forall t ensures LeftOver(ws[..i + 1], rs, roots, decided, t) <==> LeftOver(ws[..i], rs, roots, decided, t) || t in more {
        LeftNext(ws, i, rs, candidates, roots, decided, t);
      }
      left := left + more;
    }
    assert ws[..|ws|] == ws;
  }

  ghost predicate LeftOf(w: Access, candidates: seq<Access>, roots: (string, string) -> set<string>, decided: set<Triple>, t: Triple)
    requires w.Valid()
  {
    exists r :: r in candidates && r.Valid() && IsLeft(w, r, roots, decided, t)
  }

  lemma LeftNext(ws: seq<Access>, i: nat, rs: seq<Access>, candidates: seq<Access>, roots: (string, string) -> set<string>, decided: set<Triple>, t: Triple)
    requires i < |ws| && ws[i].Valid() && ValidAll(rs)
    requires forall a :: a in candidates <==> a in rs && IsCandidate(ws[i].Step(), a.Step())
    ensures LeftOver(ws[..i + 1], rs, roots, decided, t) <==>
            LeftOver(ws[..i], rs, roots, decided, t) || LeftOf(ws[i], candidates, roots, decided, t)
  {
    assert ws[..i + 1] == ws[..i] + [ws[i]];
  }

  method LabelCandidates(w: Access, candidates: seq<Access>, roots: (string, string) -> set<string>, decided: set<Triple>) returns (left: set<Triple>)
    requires w.Valid() && ValidAll(candidates) && forall a :: a in candidates ==> IsCandidate(w.Step(), a.Step())
    ensures forall t :: t in left <==> LeftOf(w, candidates, roots, decided, t)
  {
    left := {};
    for i := 0 to |candidates|
      invariant forall t :: t in left <==> LeftOf(w, candidates[..i], roots, decided, t)
    {
      var r := candidates[i];
      assert r in candidates && candidates[..i + 1] == candidates[..i] + [r];
      if OverlapOf(w.Step(), r.Step()).Excluded? { continue; }
      assert forall t :: t in LeftRoots(w, r, roots, decided) <==> IsLeft(w, r, roots, decided, t);
      left := left + LeftRoots(w, r, roots, decided);
    }
    assert candidates[..|candidates|] == candidates;
  }

  /** Both passes: no triple is judged twice, and a labelled pair that the first pass left
      undecided is judged by the second. */
  method Diagnose(scopes: seq<Scope>, ws: seq<Access>, rs: seq<Access>, roots: (string, string) -> set<string>)
    returns (first: seq<Diagnostic>, decided: set<Triple>, second: set<Triple>)
    requires forall s :: s in scopes ==> s.Valid()
    requires ValidAll(ws) && ValidAll(rs)
    ensures Sound(scopes, first, decided) && forall s :: s in scopes ==> ScopeJudged(s, first, decided)
    ensures decided !! second && forall d :: d in first ==> d.triple !in second
    ensures forall t :: t in second <==> LeftOver(ws, rs, roots, decided, t)
  {
    first, decided := CallGraphStaleReads(scopes);
    var index := IndexReads(rs);
    second := LabelPass(ws, rs, index, roots, decided);
  }
}
