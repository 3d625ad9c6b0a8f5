/** What every run of the call-graph stage guarantees, wherever it stops: at a crash after
    any checkpoint, at an error, or at its end (indexing/call_graph_stage.py, and the
    checks of indexing/service.py on what an earlier run left). */
module StageSafety {
  import opened Wrappers
  import opened Numerals
  import opened StageSpec

  /** The flow snapshot is marked as not current. */
  ghost predicate InProgress(s: Snapshot) {
    FlowSignature !in s.meta && SnapshotStatus in s.meta && s.meta[SnapshotStatus] == "partial"
  }

  function MetaOf(s: Snapshot, key: Meta): Option<string> {
    if key in s.meta then Some(s.meta[key]) else None
  }

  // ----- what the next run decides

  datatype ResumeDecision = NothingPartial | EngineTimedOut | OtherInputs | BadOffset | Resumes(resume: Resume)

  /** The checks on a request to resume the join, for unchanged files; `parse` is `int`. */
  function Decide(s: Snapshot, joinSignature: string, parse: string -> Option<int>): ResumeDecision {
    if MetaOf(s, SnapshotStatus) != Some("partial") then NothingPartial
    else if JoinSignature !in s.meta then EngineTimedOut
    else if s.meta[JoinSignature] != joinSignature then OtherInputs
    else
      var offset := if JoinCompleted in s.meta && s.meta[JoinCompleted] != "" then s.meta[JoinCompleted] else "0";
      if parse(offset).None? then BadOffset else Resumes(Resume(parse(offset).value, MetaOf(s, JoinMethods)))
  }

  /** Whether an index pass without changes and without request runs the stage. */
  predicate RunsAgain(s: Snapshot, flowSignature: string) {
    MetaOf(s, FlowSignature) != Some(flowSignature) || MetaOf(s, SnapshotStatus) == Some("partial")
  }

  ghost predicate ReadsNumerals(parse: string -> Option<int>) {
    forall n: nat :: parse(Decimal(n)) == Some(n)
  }

  /** A resumption that the checks accepted. */
  ghost predicate ResumeChecked(p: Params, s: Snapshot, parse: string -> Option<int>) {
    p.resume.Some? ==> Decide(s, p.joinSignature, parse) == Resumes(p.resume.value)
  }

  // ----- every snapshot of the stage

  /** Where a flow of a checkpoint may come from. */
  ghost predicate FromRun(p: Params, s0: Snapshot, e: Engine, f: Flow) {
    (f in s0.flows && Survives(p, f)) || SuppliedBy(e, f)
  }

  ghost predicate SuppliedBy(e: Engine, f: Flow) {
    || f in e.joinedFlows
    || (exists signal :: signal in e.attempt && CarriedBy(signal, f))
    || (exists signal :: signal in e.retry && CarriedBy(signal, f))
  }

  predicate CarriedBy(signal: Signal, f: Flow) {
    match signal
    case GraphBuilt(_) => false
    case JoinStep(flows, _) => f in flows
    case ProjectDone(flows) => f in flows
  }

  ghost predicate FlowsFromRun(p: Params, s0: Snapshot, e: Engine, s: Snapshot) {
    forall f :: f in s.flows ==> FromRun(p, s0, e, f)
  }

  /** A checkpoint that a later run may resume from. */
  ghost predicate Resumable(p: Params, s: Snapshot, parse: string -> Option<int>) {
    && MetaOf(s, JoinSignature) == Some(p.joinSignature) && MetaOf(s, JoinMethods) == Some(p.methodsSignature)
    && (JoinCompleted in s.meta && s.meta[JoinCompleted] != "" ==> parse(s.meta[JoinCompleted]).Some?)
  }

  ghost predicate Guarded(p: Params, s0: Snapshot, e: Engine, s: Snapshot) {
    InProgress(s) && FlowsFromRun(p, s0, e, s)
  }

  ghost predicate AllGuarded(p: Params, s0: Snapshot, e: Engine, t: Trace) {
    Guarded(p, s0, e, t.work) && forall c :: c in t.commits ==> Guarded(p, s0, e, c)
  }

  lemma {:induction false} SurvivingMeans(p: Params, flows: seq<Flow>)
    ensures forall f :: f in Surviving(p, flows) <==> f in flows && Survives(p, f)
  {
    if flows != [] {
      var n := |flows| - 1;
      SurvivingMeans(p, flows[..n]);
      assert flows == flows[..n] + [flows[n]];
    }
  }

  lemma OpeningGuarded(p: Params, s0: Snapshot, e: Engine)
    ensures Guarded(p, s0, e, Opening(p, s0)) && Guarded(p, s0, e, JoinOpened(p, Opening(p, s0)))
  {
    SurvivingMeans(p, s0.flows);
  }

  lemma SignalGuarded(p: Params, s0: Snapshot, e: Engine, s: Snapshot, signal: Signal, timedOut: bool)
    requires Guarded(p, s0, e, s) && (signal in e.attempt || signal in e.retry)
    ensures Guarded(p, s0, e, Signalled(s, signal, timedOut))
  {
    var after := Signalled(s, signal, timedOut);
    forall f | f in after.flows ensures FromRun(p, s0, e, f) {
      if !signal.GraphBuilt? { assert CarriedBy(signal, f); }
    }
  }

  lemma {:induction false} PlayedGuarded(p: Params, s0: Snapshot, e: Engine, t: Trace, signals: seq<Signal>, timedOut: bool)
    requires AllGuarded(p, s0, e, t)
    requires forall signal :: signal in signals ==> signal in e.attempt || signal in e.retry
    ensures AllGuarded(p, s0, e, Played(t, signals, timedOut))
  {
    if signals != [] {
      var n := |signals| - 1;
      PlayedGuarded(p, s0, e, t, signals[..n], timedOut);
      var before := Played(t, signals[..n], timedOut);
      SignalGuarded(p, s0, e, before.work, signals[n], timedOut);
    }
  }

  lemma JoinedGuarded(p: Params, s0: Snapshot, e: Engine, t: Trace)
    requires AllGuarded(p, s0, e, t)
    ensures AllGuarded(p, s0, e, Joined(p, t, e).0)
  {
    var t1 := Played(t, e.attempt, false);
    PlayedGuarded(p, s0, e, t, e.attempt, false);
    PlayedGuarded(p, s0, e, t1, e.retry, true);
  }

  /** Every checkpoint is marked as partial and carries no flow signature, and each of its
      flows either survived the deleted files and endpoints or was built in this run. */
  lemma CheckpointsPartial(p: Params, s: Snapshot, script: Script)
    ensures var commits := Run(p, s, script).0.commits;
      forall c :: c in commits ==> InProgress(c) && script.engine.Some? && FlowsFromRun(p, s, script.engine.value, c)
  {
    if Joins(p, script) {
      var e := script.engine.value;
      OpeningGuarded(p, s, e);
      JoinedGuarded(p, s, e, Trace(JoinOpened(p, Opening(p, s)), []));
    }
  }

  // ----- resuming

  ghost predicate AllResumable(p: Params, t: Trace, parse: string -> Option<int>) {
    Resumable(p, t.work, parse) && forall c :: c in t.commits ==> Resumable(p, c, parse)
  }

  lemma OpeningResumable(p: Params, s: Snapshot, parse: string -> Option<int>)
    requires ReadsNumerals(parse) && ResumeChecked(p, s, parse)
    ensures Resumable(p, JoinOpened(p, Opening(p, s)), parse)
  {
    assert Decimal(0) == "0";
  }

  lemma {:induction false} PlayedResumable(p: Params, t: Trace, signals: seq<Signal>, timedOut: bool, parse: string -> Option<int>)
    requires ReadsNumerals(parse) && AllResumable(p, t, parse)
    ensures AllResumable(p, Played(t, signals, timedOut), parse)
  {
    if signals != [] {
      PlayedResumable(p, t, signals[..|signals| - 1], timedOut, parse);
    }
  }

  lemma JoinedResumable(p: Params, t: Trace, e: Engine, parse: string -> Option<int>)
    requires ReadsNumerals(parse) && AllResumable(p, t, parse)
    ensures AllResumable(p, Joined(p, t, e).0, parse)
  {
    PlayedResumable(p, t, e.attempt, false, parse);
    PlayedResumable(p, Played(t, e.attempt, false), e.retry, true, parse);
  }

  /** After a crash that follows any checkpoint, a resumption with the same inputs is accepted
      and finds the signature of the current methods. */
  lemma CheckpointsResume(p: Params, s: Snapshot, script: Script, parse: string -> Option<int>)
    requires ReadsNumerals(parse) && ResumeChecked(p, s, parse)
    ensures forall c :: c in Run(p, s, script).0.commits ==>
      Decide(c, p.joinSignature, parse).Resumes? &&
      Decide(c, p.joinSignature, parse).resume.methodsSignature == Some(p.methodsSignature)
  {
    CheckpointsPartial(p, s, script);
    assert Decimal(0) == "0";
    if Joins(p, script) {
      OpeningResumable(p, s, parse);
      JoinedResumable(p, Trace(JoinOpened(p, Opening(p, s)), []), script.engine.value, parse);
    }
  }

  // ----- crashes

  /** What is on disk after `k` checkpoints. */
  function DurableAfter(s0: Snapshot, commits: seq<Snapshot>, k: nat): Snapshot
    requires k <= |commits|
  {
    if k == 0 then s0 else commits[k - 1]
  }

  /** A crash leaves what was on disk before, or a snapshot that the next pass redoes. */
  lemma CrashIsNoticed(p: Params, s0: Snapshot, s: Snapshot, script: Script, k: nat)
    requires k <= |Run(p, s, script).0.commits|
    ensures var left := DurableAfter(s0, Run(p, s, script).0.commits, k);
      left == s0 || (InProgress(left) && forall signature :: RunsAgain(left, signature))
  {
    CheckpointsPartial(p, s, script);
    if k > 0 { assert Run(p, s, script).0.commits[k - 1] in Run(p, s, script).0.commits; }
  }

  // ----- the end of a run

  /** A run that returns leaves a signature exactly when the engine was not timed out, and
      in no case a join checkpoint: the next pass redoes a timed-out run and no other, and
      refuses to resume either. */
  lemma ReturnMeans(p: Params, s: Snapshot, script: Script, parse: string -> Option<int>)
    requires Run(p, s, script).1.Returned?
    ensures var (t, outcome) := Run(p, s, script);
      && (MetaOf(t.work, FlowSignature) == if outcome.timedOut then None else Some(p.flowSignature))
      && MetaOf(t.work, SnapshotStatus) == Some(if outcome.timedOut then "partial" else "complete")
      && JoinSignature !in t.work.meta && JoinCompleted !in t.work.meta
      && t.work.flows == script.finalFlows
      && (RunsAgain(t.work, p.flowSignature) <==> outcome.timedOut)
      && Decide(t.work, p.joinSignature, parse) == (if outcome.timedOut then EngineTimedOut else NothingPartial)
  {
    assert "partial"[0] != "complete"[0];
  }

  /** A signature present at any point of the run, committed or not, means it is over,
      complete and was not timed out. */
  lemma SignatureMeansComplete(p: Params, s: Snapshot, script: Script, parse: string -> Option<int>)
    ensures var (t, outcome) := Run(p, s, script);
      && (forall c :: c in t.commits ==> FlowSignature !in c.meta)
      && (FlowSignature in t.work.meta ==> outcome == Returned(false) && MetaOf(t.work, SnapshotStatus) == Some("complete"))
  {
    CheckpointsPartial(p, s, script);
    var (t, outcome) := Run(p, s, script);
    if outcome.Returned? {
      ReturnMeans(p, s, script, parse);
    } else {
      var e := script.engine.value;
      OpeningGuarded(p, s, e);
      JoinedGuarded(p, s, e, Trace(JoinOpened(p, Opening(p, s)), []));
    }
  }

  // ----- a checkpoint that should not be trusted

  /** The checkpoints written before the deadline, or before the attempt ends otherwise. */
  function CommitsOfAttempt(p: Params, s: Snapshot, e: Engine): seq<Snapshot> {
    Played(Trace(JoinOpened(p, Opening(p, s)), []), e.attempt, false).commits
  }

  lemma {:induction false} PlayedAppends(t: Trace, signals: seq<Signal>, timedOut: bool)
    ensures t.commits <= Played(t, signals, timedOut).commits
    ensures |Played(t, signals, timedOut).commits| == |t.commits| + |signals|
  {
    if signals != [] { PlayedAppends(t, signals[..|signals| - 1], timedOut); }
  }

  /** A timed-out run removes the join checkpoint when it returns, so that no resumption
      trusts flows from an incomplete set of calls; but a crash before that leaves a
      checkpoint which the checks accept. It is from after the deadline exactly when more
      checkpoints were written than the attempt asked for. */
  lemma CrashAfterDeadline(p: Params, s0: Snapshot, s: Snapshot, script: Script, k: nat, parse: string -> Option<int>)
    requires ReadsNumerals(parse) && ResumeChecked(p, s, parse) && Joins(p, script)
    requires script.engine.value.ending == Deadline(false) && 0 < k <= |Run(p, s, script).0.commits|
    ensures Decide(DurableAfter(s0, Run(p, s, script).0.commits, k), p.joinSignature, parse).Resumes?
    ensures CommitsOfAttempt(p, s, script.engine.value) <= Run(p, s, script).0.commits
    ensures k > |CommitsOfAttempt(p, s, script.engine.value)| <==> k > |script.engine.value.attempt|
  {
    var e, start := script.engine.value, Trace(JoinOpened(p, Opening(p, s)), []);
    CheckpointsResume(p, s, script, parse);
    PlayedAppends(start, e.attempt, false);
    PlayedAppends(Played(start, e.attempt, false), e.retry, true);
    assert Run(p, s, script).0.commits[k - 1] in Run(p, s, script).0.commits;
  }

  /** A process that died after `k` checkpoints, the last one from after the deadline, left
      one that a later run resumes from. */
  ghost predicate TrustsIncompleteCalls(p: Params, s: Snapshot, script: Script, k: nat, parse: string -> Option<int>) {
    && Joins(p, script) && script.engine.value.ending == Deadline(false)
    && |script.engine.value.attempt| < k <= |Run(p, s, script).0.commits|
    && Decide(DurableAfter(s, Run(p, s, script).0.commits, k), p.joinSignature, parse).Resumes?
  }

  /** Some crash leaves such a checkpoint exactly when the deadline struck before the join
      and the second join reached a checkpoint or its end. */
  lemma WhenIncompleteCallsAreTrusted(p: Params, s: Snapshot, script: Script, parse: string -> Option<int>)
    requires ReadsNumerals(parse) && ResumeChecked(p, s, parse) && Joins(p, script)
    ensures (exists k :: TrustsIncompleteCalls(p, s, script, k, parse)) <==>
      script.engine.value.ending == Deadline(false) && (script.engine.value.retry != [] || !script.engine.value.retryBroken)
  {
    var e, start := script.engine.value, Trace(JoinOpened(p, Opening(p, s)), []);
    PlayedAppends(start, e.attempt, false);
    PlayedAppends(Played(start, e.attempt, false), e.retry, true);
    if e.ending == Deadline(false) && (e.retry != [] || !e.retryBroken) {
      FirstUntrusted(p, s, script, parse);
    }
  }

  lemma FirstUntrusted(p: Params, s: Snapshot, script: Script, parse: string -> Option<int>)
    requires ReadsNumerals(parse) && ResumeChecked(p, s, parse) && Joins(p, script)
    requires script.engine.value.ending == Deadline(false) && (script.engine.value.retry != [] || !script.engine.value.retryBroken)
    ensures TrustsIncompleteCalls(p, s, script, |script.engine.value.attempt| + 1, parse)
  {
    var e, start := script.engine.value, Trace(JoinOpened(p, Opening(p, s)), []);
    PlayedAppends(start, e.attempt, false);
    PlayedAppends(Played(start, e.attempt, false), e.retry, true);
    CrashAfterDeadline(p, s, s, script, |e.attempt| + 1, parse);
  }

  /** The smallest such runs: the deadline strikes before any call is known, the second
      join checkpoints its first method, and the process dies. */
  lemma DeadlineCheckpointSurvives(p: Params, s: Snapshot, flows: seq<Flow>, parse: string -> Option<int>)
    requires ReadsNumerals(parse) && p.resume.None? && p.hasMethods
    ensures var e := Engine([], Deadline(false), [JoinStep(flows, 1)], true, [], 0);
      TrustsIncompleteCalls(p, s, Script(Some(e), []), 1, parse)
  {
    FirstUntrusted(p, s, Script(Some(Engine([], Deadline(false), [JoinStep(flows, 1)], true, [], 0)), []), parse);
  }
}
