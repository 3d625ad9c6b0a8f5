/** What a run of the call-graph stage writes, commit by commit (indexing/call_graph_stage.py). */
module StageLaws {
  import opened Wrappers
  import opened Numerals
  import opened StageSpec
  import opened StageSafety
  import opened ResumeSafety

  // ----- what survives the start

  predicate NamesOnlyWhatRemains(p: Params, f: Flow) {
    && f.path in p.paths
    && forall i | 0 <= i < |f.steps| ::
      && (|f.steps[i].path| >= 5 && f.steps[i].path[|f.steps[i].path| - 5..] == ".java" ==> f.steps[i].path in p.paths)
      && (f.steps[i].endpointId.Some? ==> f.steps[i].endpointId.value in p.endpointIds)
  }

  lemma SurvivesMeans(p: Params, f: Flow)
    ensures Survives(p, f) <==> NamesOnlyWhatRemains(p, f)
  {
    if NamesOnlyWhatRemains(p, f) {
      forall s | s in f.steps ensures StepSurvives(p, s) {
        var i :| 0 <= i < |f.steps| && f.steps[i] == s;
      }
    }
    if Survives(p, f) {
      forall i | 0 <= i < |f.steps| ensures StepSurvives(p, f.steps[i]) { assert f.steps[i] in f.steps; }
    }
  }

  lemma {:induction false} SurvivingAppend(p: Params, a: seq<Flow>, b: seq<Flow>)
    ensures Surviving(p, a + b) == Surviving(p, a) + Surviving(p, b)
  {
    if b == [] {
      assert a + b == a;
    } else {
      var n := |b| - 1;
      assert (a + b)[..|a + b| - 1] == a + b[..n] && (a + b)[|a + b| - 1] == b[n];
      SurvivingAppend(p, a, b[..n]);
    }
  }

  /** The table keeps, in their order, exactly the flows that name only what remains. */
  lemma TableKept(p: Params, s: Snapshot, i: nat)
    requires i < |s.flows|
    ensures Start(p, s).flows == Surviving(p, s.flows[..i]) +
      (if NamesOnlyWhatRemains(p, s.flows[i]) then [s.flows[i]] else []) + Surviving(p, s.flows[i + 1..])
  {
    var here := [s.flows[i]];
    SurvivesMeans(p, s.flows[i]);
    assert s.flows == (s.flows[..i] + here) + s.flows[i + 1..] && here[..0] == [];
    SurvivingAppend(p, s.flows[..i] + here, s.flows[i + 1..]);
    SurvivingAppend(p, s.flows[..i], here);
  }

  /** The resumption finds its own methods and an offset among them. */
  predicate Fits(p: Params) {
    p.resume.Some? && p.resume.value.methodsSignature == Some(p.methodsSignature) && 0 <= p.resume.value.entries <= p.inputMethods
  }

  lemma MarkedMeta(p: Params, s: Snapshot, key: Meta)
    ensures MetaOf(Marked(p, s), key) == match key
      case FlowSignature => None
      case SnapshotStatus => Some("partial")
      case _ => MetaOf(s, key)
  {
  }

  lemma ResetMeta(p: Params, s: Snapshot, key: Meta)
    ensures MetaOf(GraphReset(p, s), key) == match key
      case InputOutputStatus => None
      case InputOutputCount => None
      case GraphStatus => if p.refreshView then MetaOf(s, key) else None
      case EdgeCount => if p.refreshView then MetaOf(s, key) else None
      case _ => MetaOf(s, key)
  {
  }

  lemma NotedMeta(p: Params, s: Snapshot, key: Meta)
    ensures MetaOf(JoinOpened(p, JoinNoted(p, s)), key) == match key
      case JoinMethods => if Fits(p) then MetaOf(s, key) else Some(p.methodsSignature)
      case JoinCompleted => if Fits(p) then MetaOf(s, key) else Some("0")
      case JoinSignature => if p.resume.None? then Some(p.joinSignature) else MetaOf(s, key)
      case SnapshotStatus => if p.resume.None? then Some("partial") else MetaOf(s, key)
      case _ => MetaOf(s, key)
  {
  }

  /** What the tables say when the engine starts: a fresh run starts a join, a resumption keeps
      its offset exactly if it fits, and the counts of the previous graph are gone unless only
      a view is refreshed. */
  lemma StartMeans(p: Params, s: Snapshot, key: Meta)
    ensures MetaOf(Start(p, s), key) == match key
      case FlowSignature => None
      case SnapshotStatus => Some("partial")
      case JoinSignature => if p.resume.None? then Some(p.joinSignature) else MetaOf(s, key)
      case JoinCompleted => if Fits(p) then MetaOf(s, key) else Some("0")
      case JoinMethods => if Fits(p) then MetaOf(s, key) else Some(p.methodsSignature)
      case GraphStatus => if p.refreshView then MetaOf(s, key) else None
      case EdgeCount => if p.refreshView then MetaOf(s, key) else None
      case InputOutputStatus => None
      case InputOutputCount => None
      case OtherMeta(_) => MetaOf(s, key)
  {
    MarkedMeta(p, s, key);
    ResetMeta(p, Marked(p, s), key);
    NotedMeta(p, GraphReset(p, Marked(p, s)), key);
  }

  // ----- what the signals write

  /** The last graph among the signals is the one at `d`. */
  predicate LastGraph(signals: seq<Signal>, d: nat) {
    d < |signals| && signals[d].GraphBuilt? && forall i | d < i < |signals| :: !signals[i].GraphBuilt?
  }

  function Complete(timedOut: bool): string { if timedOut then "partial" else "complete" }

  lemma {:induction false} PlayedGraph(t: Trace, signals: seq<Signal>, timedOut: bool, d: nat)
    requires LastGraph(signals, d)
    ensures MetaOf(Played(t, signals, timedOut).work, GraphStatus) == Some(Complete(timedOut))
    ensures MetaOf(Played(t, signals, timedOut).work, EdgeCount) == Some(Decimal(signals[d].edges))
  {
    var n := |signals| - 1;
    if d < n {
      assert !signals[n].GraphBuilt?;
      PlayedGraph(t, signals[..n], timedOut, d);
    }
  }

  /** The snapshot notes a graph. */
  predicate Notes(c: Snapshot, status: string, edges: nat) {
    MetaOf(c, GraphStatus) == Some(status) && MetaOf(c, EdgeCount) == Some(Decimal(edges))
  }

  lemma RunNotes(p: Params, s: Snapshot, script: Script, i: nat, status: string, edges: nat)
    requires Joins(p, script) && i < |AllPlayed(Trace(Start(p, s), []), script.engine.value).commits|
    requires Notes(AllPlayed(Trace(Start(p, s), []), script.engine.value).commits[i], status, edges)
    ensures i < |Run(p, s, script).0.commits| && Notes(Run(p, s, script).0.commits[i], status, edges)
  {
    RunStarts(p, s, script, i);
  }

  lemma AttemptGraph(t: Trace, e: Engine, k: nat, d: nat)
    requires t.commits == [] && 0 < k <= |e.attempt| && LastGraph(e.attempt[..k], d)
    ensures k <= |AllPlayed(t, e).commits| && Notes(AllPlayed(t, e).commits[k - 1], "complete", e.attempt[d].edges)
  {
    PlayedAt(t, e.attempt, false, k - 1);
    PlayedAppends(Played(t, e.attempt, false), e.retry, true);
    PlayedGraph(t, e.attempt[..k], false, d);
  }

  /** During the attempt, a checkpoint that follows a graph notes its edges as complete. */
  lemma AttemptNotesGraph(p: Params, s: Snapshot, script: Script, e: Engine, k: nat, d: nat)
    requires Joins(p, script) && script.engine == Some(e) && 0 < k <= |e.attempt| && LastGraph(e.attempt[..k], d)
    ensures k <= |Run(p, s, script).0.commits| && Notes(Run(p, s, script).0.commits[k - 1], "complete", e.attempt[d].edges)
  {
    AttemptGraph(Trace(Start(p, s), []), e, k, d);
    RunNotes(p, s, script, k - 1, "complete", e.attempt[d].edges);
  }

  lemma RetryGraph(t: Trace, e: Engine, k: nat, d: nat)
    requires t.commits == [] && e.ending == Deadline(false) && 0 < k <= |e.retry| && LastGraph(e.retry[..k], d)
    ensures |e.attempt| + k <= |AllPlayed(t, e).commits|
    ensures Notes(AllPlayed(t, e).commits[|e.attempt| + k - 1], "partial", e.retry[d].edges)
  {
    RetryCommit(t, e, k);
    PlayedGraph(Played(t, e.attempt, false), e.retry[..k], true, d);
  }

  /** After the deadline it notes them as partial. */
  lemma RetryNotesGraph(p: Params, s: Snapshot, script: Script, e: Engine, k: nat, d: nat)
    requires Joins(p, script) && script.engine == Some(e) && e.ending == Deadline(false) && 0 < k <= |e.retry| && LastGraph(e.retry[..k], d)
    ensures |e.attempt| + k <= |Run(p, s, script).0.commits|
    ensures Notes(Run(p, s, script).0.commits[|e.attempt| + k - 1], "partial", e.retry[d].edges)
  {
    RetryGraph(Trace(Start(p, s), []), e, k, d);
    RunNotes(p, s, script, |e.attempt| + k - 1, "partial", e.retry[d].edges);
  }

  lemma RetryCommit(t: Trace, e: Engine, k: nat)
    requires t.commits == [] && e.ending == Deadline(false) && 0 < k <= |e.retry|
    ensures |e.attempt| + k <= |AllPlayed(t, e).commits|
    ensures AllPlayed(t, e).commits[|e.attempt| + k - 1] == Played(Played(t, e.attempt, false), e.retry[..k], true).work
  {
    PlayedAppends(t, e.attempt, false);
    PlayedAt(Played(t, e.attempt, false), e.retry, true, k - 1);
  }

  // ----- the end of the join

  /** Neither the attempt nor a second join breaks. */
  predicate Closes(e: Engine) { !e.ending.Broken? && !(e.ending == Deadline(false) && e.retryBroken) }

  lemma JoinedEnds(p: Params, t: Trace, e: Engine)
    ensures Joined(p, t, e).1 == if Closes(e) then Returned(e.ending.Deadline?) else Raised
    ensures |Joined(p, t, e).0.commits| == |AllPlayed(t, e).commits| + (if Closes(e) then 1 else 0)
    ensures Closes(e) ==> Last(Joined(p, t, e).0.commits) == JoinClosed(p, AllPlayed(t, e).work, e, e.ending.Deadline?)
  {
  }

  function Last(commits: seq<Snapshot>): Snapshot
    requires commits != []
  {
    commits[|commits| - 1]
  }

  /** A run that closes its join commits once more after all signals: exactly the joined flows,
      the offset behind the last method, and whether and how many chains were found; a run that
      breaks commits no more and raises. */
  lemma JoinCloses(p: Params, s: Snapshot, script: Script)
    requires Joins(p, script)
    ensures var e, (t, outcome) := script.engine.value, Run(p, s, script);
      if Closes(e) then
        && outcome == Returned(e.ending.Deadline?) && |t.commits| == |SignalsOf(e)| + 1
        && Last(t.commits).flows == e.joinedFlows
        && MetaOf(Last(t.commits), JoinCompleted) == Some(Decimal(p.inputMethods))
        && MetaOf(Last(t.commits), InputOutputStatus) == Some(if e.ending.Deadline? then "partial" else "complete")
        && MetaOf(Last(t.commits), InputOutputCount) == Some(Decimal(e.joinedCount))
      else outcome == Raised && |t.commits| == |SignalsOf(e)|
  {
    var e, t := script.engine.value, Trace(Start(p, s), []);
    JoinedEnds(p, t, e);
    PlayedAppends(t, e.attempt, false);
    PlayedAppends(Played(t, e.attempt, false), e.retry, true);
  }

  /** Without methods or an engine nothing is committed, and the run is complete. */
  lemma NoJoin(p: Params, s: Snapshot, script: Script)
    requires script.engine.None? || !(p.hasMethods || p.refreshView)
    ensures Run(p, s, script).0.commits == [] && Run(p, s, script).1 == Returned(false)
  {
  }

  // ----- the end of the run

  lemma ClosingMeta(p: Params, s: Snapshot, flows: seq<Flow>, timedOut: bool, key: Meta)
    ensures Closing(p, s, flows, timedOut).flows == flows
    ensures MetaOf(Closing(p, s, flows, timedOut), key) == match key
      case FlowSignature => if timedOut then None else Some(p.flowSignature)
      case SnapshotStatus => Some(if timedOut then "partial" else "complete")
      case JoinSignature => None
      case JoinCompleted => None
      case _ => MetaOf(s, key)
  {
  }

  ghost predicate MeetsDeadline(p: Params, script: Script) { Joins(p, script) ==> !script.engine.value.ending.Deadline? }

  /** A run that returns leaves exactly the final flows and no checkpoint to resume from. It is
      complete, with the signature of its inputs, exactly if the engine met its deadline. */
  lemma RunEnds(p: Params, s: Snapshot, script: Script)
    requires Run(p, s, script).1.Returned?
    ensures Run(p, s, script).0.work.flows == script.finalFlows
    ensures MetaOf(Run(p, s, script).0.work, FlowSignature) == if MeetsDeadline(p, script) then Some(p.flowSignature) else None
    ensures MetaOf(Run(p, s, script).0.work, SnapshotStatus) == Some(if MeetsDeadline(p, script) then "complete" else "partial")
    ensures MetaOf(Run(p, s, script).0.work, JoinSignature).None? && MetaOf(Run(p, s, script).0.work, JoinCompleted).None?
  {
    if Joins(p, script) { JoinCloses(p, s, script); } else { NoJoin(p, s, script); }
    var start := Trace(Opening(p, s), []);
    var t := if Joins(p, script) then Joined(p, Trace(Start(p, s), []), script.engine.value).0 else start;
    forall key ensures MetaOf(Run(p, s, script).0.work, key) == MetaOf(Closing(p, t.work, script.finalFlows, !MeetsDeadline(p, script)), key) {}
    forall key { ClosingMeta(p, t.work, script.finalFlows, !MeetsDeadline(p, script), key); }
  }

  // ----- what the next pass finds

  /** The offset noted, or none. */
  function OffsetText(s: Snapshot): string {
    match MetaOf(s, JoinCompleted)
    case Some(text) => (if text == "" then "0" else text)
    case None => "0"
  }

  /** A pass resumes exactly from a partial snapshot with a join of the same inputs and a readable
      offset; it then has that offset and the methods noted. Otherwise it says what is amiss. */
  lemma DecideIff(s: Snapshot, joinSignature: string, parse: string -> Option<int>, r: Resume)
    ensures var partial, join, offset := MetaOf(s, SnapshotStatus) == Some("partial"), MetaOf(s, JoinSignature), parse(OffsetText(s));
      && (Decide(s, joinSignature, parse) == Resumes(r) <==>
          partial && join == Some(joinSignature) && offset == Some(r.entries) && r.methodsSignature == MetaOf(s, JoinMethods))
      && (Decide(s, joinSignature, parse) == BadOffset <==> partial && join == Some(joinSignature) && offset.None?)
      && (Decide(s, joinSignature, parse) == OtherInputs <==> partial && join.Some? && join.value != joinSignature)
      && (Decide(s, joinSignature, parse) == EngineTimedOut <==> partial && join.None?)
      && (Decide(s, joinSignature, parse) == NothingPartial <==> !partial)
  {
    assert r == Resume(r.entries, r.methodsSignature);
  }

  /** A pass skips the stage exactly if the flows are signed for the same inputs and not partial. */
  lemma RunsAgainIff(s: Snapshot, flowSignature: string)
    ensures !RunsAgain(s, flowSignature) <==>
      FlowSignature in s.meta && s.meta[FlowSignature] == flowSignature && !(SnapshotStatus in s.meta && s.meta[SnapshotStatus] == "partial")
  {
  }
}
