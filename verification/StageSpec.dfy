/** The call-graph stage of an index pass as a trace: the working snapshot it leaves and
    every snapshot it commits on the way (indexing/call_graph_stage.py). */
module StageSpec {
  import opened Wrappers
  import opened Numerals

  // ----- the store

  datatype Meta =
    | FlowSignature | SnapshotStatus
    | JoinSignature | JoinCompleted | JoinMethods
    | GraphStatus | EdgeCount | InputOutputStatus | InputOutputCount
    | OtherMeta(name: string)

  datatype FlowStep = FlowStep(path: string, endpointId: Option<string>)
  datatype Flow = Flow(id: string, path: string, steps: seq<FlowStep>)

  /** The part of the store that the stage's guarantees are about. */
  datatype Snapshot = Snapshot(meta: map<Meta, string>, flows: seq<Flow>) {
    function Set(key: Meta, value: string): Snapshot { this.(meta := meta[key := value]) }

    function Drop(key: Meta): Snapshot { this.(meta := meta - {key}) }

    function With(flows: seq<Flow>): Snapshot { this.(flows := flows) }
  }

  // ----- what the stage is given

  datatype Resume = Resume(entries: int, methodsSignature: Option<string>)

  datatype Params = Params(
    paths: set<string>, endpointIds: set<string>,
    flowSignature: string, joinSignature: string, methodsSignature: string,
    inputMethods: nat, hasMethods: bool, refreshView: bool, resume: Option<Resume>)

  /** A checkpoint that the engine's join asks for. */
  datatype Signal =
    | GraphBuilt(edges: nat)
    | JoinStep(flows: seq<Flow>, completed: nat)
    | ProjectDone(flows: seq<Flow>)

  /** How the attempt under the deadline ends; a deadline may strike after the join. */
  datatype Ending = Finished | Deadline(joined: bool) | Broken

  /** What the engine and the materializers do in one run, step by step. */
  datatype Engine = Engine(
    attempt: seq<Signal>, ending: Ending, retry: seq<Signal>, retryBroken: bool,
    joinedFlows: seq<Flow>, joinedCount: nat)

  datatype Script = Script(engine: Option<Engine>, finalFlows: seq<Flow>)

  datatype Outcome = Returned(timedOut: bool) | Raised

  datatype Trace = Trace(work: Snapshot, commits: seq<Snapshot>)

  // ----- _mark_flow_snapshot_in_progress

  predicate IsJava(path: string) { |path| >= 5 && path[|path| - 5..] == ".java" }

  predicate StepSurvives(p: Params, s: FlowStep) {
    && (!IsJava(s.path) || s.path in p.paths)
    && (s.endpointId.None? || s.endpointId.value in p.endpointIds)
  }

  /** Neither the flow's file nor anything it names was deleted. */
  predicate Survives(p: Params, f: Flow) {
    f.path in p.paths && forall s | s in f.steps :: StepSurvives(p, s)
  }

  function Surviving(p: Params, flows: seq<Flow>): seq<Flow> {
    if flows == [] then [] else
      Surviving(p, flows[..|flows| - 1]) + (if Survives(p, flows[|flows| - 1]) then [flows[|flows| - 1]] else [])
  }

  /** Dropping nothing leaves the table as it is, so the test on the lengths is no loss. */
  lemma {:induction false} SurvivingAll(p: Params, flows: seq<Flow>)
    ensures |Surviving(p, flows)| <= |flows|
    ensures |Surviving(p, flows)| == |flows| ==> Surviving(p, flows) == flows
  {
    if flows != [] {
      var n := |flows| - 1;
      SurvivingAll(p, flows[..n]);
      assert flows == flows[..n] + [flows[n]];
    }
  }

  function Marked(p: Params, s: Snapshot): Snapshot {
    s.Drop(FlowSignature).Set(SnapshotStatus, "partial").With(Surviving(p, s.flows))
  }

  // ----- before the engine

  function GraphReset(p: Params, s: Snapshot): Snapshot {
    (if p.refreshView then s else s.Drop(GraphStatus).Drop(EdgeCount)).Drop(InputOutputStatus).Drop(InputOutputCount)
  }

  predicate CheckpointMatches(p: Params, r: Resume) {
    r.methodsSignature == Some(p.methodsSignature) && 0 <= r.entries <= p.inputMethods
  }

  function JoinNoted(p: Params, s: Snapshot): Snapshot {
    if p.resume.None? then s.Set(JoinMethods, p.methodsSignature)
    else if CheckpointMatches(p, p.resume.value) then s
    else s.Set(JoinCompleted, "0").Set(JoinMethods, p.methodsSignature)
  }

  function Opening(p: Params, s: Snapshot): Snapshot { JoinNoted(p, GraphReset(p, Marked(p, s))) }

  predicate Joins(p: Params, script: Script) { (p.hasMethods || p.refreshView) && script.engine.Some? }

  function JoinOpened(p: Params, s: Snapshot): Snapshot {
    if p.resume.Some? then s
    else s.Drop(JoinCompleted).Set(JoinSignature, p.joinSignature).Set(JoinCompleted, "0").Set(SnapshotStatus, "partial")
  }

  // ----- the checkpoints

  function Partial(timedOut: bool): string { if timedOut then "partial" else "complete" }

  function Signalled(s: Snapshot, signal: Signal, timedOut: bool): Snapshot {
    match signal
    case GraphBuilt(edges) => s.Set(GraphStatus, Partial(timedOut)).Set(EdgeCount, Decimal(edges))
    case JoinStep(flows, completed) =>
      s.With(flows).Drop(FlowSignature).Set(SnapshotStatus, "partial").Set(JoinCompleted, Decimal(completed))
    case ProjectDone(flows) => s.With(flows).Drop(FlowSignature).Set(SnapshotStatus, "partial")
  }

  function Commit(t: Trace, s: Snapshot): Trace { Trace(s, t.commits + [s]) }

  function Played(t: Trace, signals: seq<Signal>, timedOut: bool): Trace {
    if signals == [] then t else
      var before := Played(t, signals[..|signals| - 1], timedOut);
      Commit(before, Signalled(before.work, signals[|signals| - 1], timedOut))
  }

  function JoinClosed(p: Params, s: Snapshot, e: Engine, timedOut: bool): Snapshot {
    s.With(e.joinedFlows).Drop(FlowSignature).Set(InputOutputStatus, Partial(timedOut))
      .Set(InputOutputCount, Decimal(e.joinedCount)).Set(JoinCompleted, Decimal(p.inputMethods))
  }

  /** The engine's part: the trace so far, and whether it timed out or raised. */
  function Joined(p: Params, t: Trace, e: Engine): (Trace, Outcome) {
    var t1 := Played(t, e.attempt, false);
    if e.ending.Broken? then (t1, Raised) else
      var timedOut := e.ending.Deadline?;
      var retried := timedOut && !e.ending.joined;
      var t2 := if retried then Played(t1, e.retry, true) else t1;
      if retried && e.retryBroken then (t2, Raised)
      else (Commit(t2, JoinClosed(p, t2.work, e, timedOut)), Returned(timedOut))
  }

  function Closing(p: Params, s: Snapshot, flows: seq<Flow>, timedOut: bool): Snapshot {
    (if timedOut then s.With(flows).Drop(FlowSignature).Set(SnapshotStatus, "partial")
     else s.With(flows).Set(FlowSignature, p.flowSignature).Set(SnapshotStatus, "complete"))
      .Drop(JoinSignature).Drop(JoinCompleted)
  }

  /** One run of the stage on the working snapshot `s`. */
  function Run(p: Params, s: Snapshot, script: Script): (Trace, Outcome) {
    var start := Trace(Opening(p, s), []);
    var (t, outcome) :=
      if Joins(p, script) then Joined(p, Trace(JoinOpened(p, start.work), []), script.engine.value)
      else (start, Returned(false));
    if outcome.Raised? then (t, Raised)
    else (Trace(Closing(p, t.work, script.finalFlows, outcome.timedOut), t.commits), outcome)
  }
}
