/** Whether a checkpoint that a later run resumes from has the flows that its offset stands for
    (indexing/call_graph_stage.py: publish_join_checkpoint notes an offset with the flows joined
    so far, publish_call_graph_progress stores a part of the flows and leaves the offset). */
module ResumeSafety {
  import opened Wrappers
  import opened Numerals
  import opened StageSpec
  import opened StageSafety

  /** All signals of a run before the join is closed. */
  function SignalsOf(e: Engine): seq<Signal> {
    if e.ending == Deadline(false) then e.attempt + e.retry else e.attempt
  }

  // ----- what a list of signals stores

  /** The flows of the last signal that has any. */
  function LastFlows(before: seq<Flow>, signals: seq<Signal>): seq<Flow> {
    if signals == [] then before else
      match signals[|signals| - 1]
      case GraphBuilt(_) => LastFlows(before, signals[..|signals| - 1])
      case JoinStep(flows, _) => flows
      case ProjectDone(flows) => flows
  }

  /** The flows that were joined when the offset was noted. */
  function JoinedAtOffset(before: seq<Flow>, signals: seq<Signal>): seq<Flow> {
    if signals == [] then before else
      match signals[|signals| - 1]
      case JoinStep(flows, _) => flows
      case _ => JoinedAtOffset(before, signals[..|signals| - 1])
  }

  function OffsetNoted(before: Option<string>, signals: seq<Signal>): Option<string> {
    if signals == [] then before else
      match signals[|signals| - 1]
      case JoinStep(_, completed) => Some(Decimal(completed))
      case _ => OffsetNoted(before, signals[..|signals| - 1])
  }

  /** No later signal has flows than the project's at `d`. */
  predicate EndsWithProject(signals: seq<Signal>, d: nat) {
    d < |signals| && signals[d].ProjectDone? && forall j | d < j < |signals| :: signals[j].GraphBuilt?
  }

  /** The last flows stored are those of a project, and differ from the joined ones. */
  ghost predicate Overwritten(before: seq<Flow>, signals: seq<Signal>) {
    exists d: nat :: EndsWithProject(signals, d) && signals[d].flows != JoinedAtOffset(before, signals)
  }

  lemma {:induction false} ProjectIsLast(before: seq<Flow>, signals: seq<Signal>, d: nat)
    requires EndsWithProject(signals, d)
    ensures LastFlows(before, signals) == signals[d].flows
  {
    var n := |signals| - 1;
    if d < n {
      assert signals[n].GraphBuilt?;
      ProjectIsLast(before, signals[..n], d);
    }
  }

  lemma {:induction false} OverwrittenMeans(before: seq<Flow>, signals: seq<Signal>)
    ensures LastFlows(before, signals) != JoinedAtOffset(before, signals) <==> Overwritten(before, signals)
  {
    if signals != [] {
      var n := |signals| - 1;
      match signals[n]
      case JoinStep(_, _) =>
      case ProjectDone(_) => assert EndsWithProject(signals, n);
      case GraphBuilt(_) =>
        OverwrittenMeans(before, signals[..n]);
        if d: nat :| EndsWithProject(signals[..n], d) && signals[..n][d].flows != JoinedAtOffset(before, signals[..n]) {
          assert EndsWithProject(signals, d);
        }
    }
    if d: nat :| EndsWithProject(signals, d) && signals[d].flows != JoinedAtOffset(before, signals) {
      ProjectIsLast(before, signals, d);
    }
  }

  // ----- the checkpoints

  lemma {:induction false} PlayedStores(t: Trace, signals: seq<Signal>, timedOut: bool)
    ensures Played(t, signals, timedOut).work.flows == LastFlows(t.work.flows, signals)
    ensures MetaOf(Played(t, signals, timedOut).work, JoinCompleted) == OffsetNoted(MetaOf(t.work, JoinCompleted), signals)
  {
    if signals != [] { PlayedStores(t, signals[..|signals| - 1], timedOut); }
  }

  lemma {:induction false} PlayedAt(t: Trace, signals: seq<Signal>, timedOut: bool, k: nat)
    requires k < |signals|
    ensures |Played(t, signals, timedOut).commits| == |t.commits| + |signals|
    ensures Played(t, signals, timedOut).commits[|t.commits| + k] == Played(t, signals[..k + 1], timedOut).work
  {
    var n := |signals| - 1;
    PlayedAppends(t, signals, timedOut);
    PlayedAppends(t, signals[..n], timedOut);
    if k < n {
      PlayedAt(t, signals[..n], timedOut, k);
      assert signals[..n][..k + 1] == signals[..k + 1];
    } else {
      assert signals[..k + 1] == signals;
    }
  }

  lemma {:induction false} StoresAppend(before: seq<Flow>, offset: Option<string>, a: seq<Signal>, b: seq<Signal>)
    ensures LastFlows(before, a + b) == LastFlows(LastFlows(before, a), b)
    ensures OffsetNoted(offset, a + b) == OffsetNoted(OffsetNoted(offset, a), b)
  {
    if b == [] {
      assert a + b == a;
    } else {
      var n := |b| - 1;
      assert (a + b)[..|a + b| - 1] == a + b[..n] && (a + b)[|a + b| - 1] == b[n];
      StoresAppend(before, offset, a, b[..n]);
    }
  }

  /** The snapshot that the signals start from. */
  function Start(p: Params, s: Snapshot): Snapshot { JoinOpened(p, Opening(p, s)) }

  /** Everything the signals of a run do. */
  function AllPlayed(t: Trace, e: Engine): Trace {
    var t1 := Played(t, e.attempt, false);
    if e.ending == Deadline(false) then Played(t1, e.retry, true) else t1
  }

  lemma JoinedStarts(p: Params, t: Trace, e: Engine)
    ensures AllPlayed(t, e).commits <= Joined(p, t, e).0.commits
  {
  }

  /** The commits of a run start with those of its signals, in the same places. */
  lemma RunStarts(p: Params, s: Snapshot, script: Script, k: nat)
    requires Joins(p, script) && k < |AllPlayed(Trace(Start(p, s), []), script.engine.value).commits|
    ensures k < |Run(p, s, script).0.commits|
    ensures Run(p, s, script).0.commits[k] == AllPlayed(Trace(Start(p, s), []), script.engine.value).commits[k]
  {
    JoinedStarts(p, Trace(Start(p, s), []), script.engine.value);
  }

  /** The snapshot `c` is what the signals store on top of `start`. */
  ghost predicate Stores(start: Snapshot, signals: seq<Signal>, c: Snapshot) {
    && c.flows == LastFlows(start.flows, signals)
    && MetaOf(c, JoinCompleted) == OffsetNoted(MetaOf(start, JoinCompleted), signals)
  }

  lemma AttemptStores(start: Snapshot, signals: seq<Signal>, k: nat)
    requires k < |signals|
    ensures |Played(Trace(start, []), signals, false).commits| == |signals|
    ensures Stores(start, signals[..k + 1], Played(Trace(start, []), signals, false).commits[k])
  {
    PlayedAt(Trace(start, []), signals, false, k);
    PlayedStores(Trace(start, []), signals[..k + 1], false);
  }

  lemma RetryStores(t: Trace, start: Snapshot, attempt: seq<Signal>, retry: seq<Signal>, k: nat)
    requires Stores(start, attempt, t.work) && k < |retry|
    ensures |Played(t, retry, true).commits| == |t.commits| + |retry|
    ensures Stores(start, attempt + retry[..k + 1], Played(t, retry, true).commits[|t.commits| + k])
  {
    PlayedAt(t, retry, true, k);
    PlayedStores(t, retry[..k + 1], true);
    StoresAppend(start.flows, MetaOf(start, JoinCompleted), attempt, retry[..k + 1]);
  }

  lemma AllStores(start: Snapshot, e: Engine, k: nat)
    requires k < |SignalsOf(e)|
    ensures |AllPlayed(Trace(start, []), e).commits| == |SignalsOf(e)|
    ensures Stores(start, SignalsOf(e)[..k + 1], AllPlayed(Trace(start, []), e).commits[k])
  {
    var t := Trace(start, []);
    var t1 := Played(t, e.attempt, false);
    PlayedAppends(t, e.attempt, false);
    PlayedAppends(t1, e.retry, true);
    if k < |e.attempt| {
      AttemptStores(start, e.attempt, k);
      assert SignalsOf(e)[..k + 1] == e.attempt[..k + 1];
    } else {
      PlayedStores(t, e.attempt, false);
      RetryStores(t1, start, e.attempt, e.retry, k - |e.attempt|);
      assert SignalsOf(e)[..k + 1] == e.attempt + e.retry[..k - |e.attempt| + 1];
    }
  }

  /** The `k`-th checkpoint has the offset and the flows of the first `k` signals. */
  lemma CheckpointStores(p: Params, s: Snapshot, script: Script, k: nat)
    requires Joins(p, script) && 0 < k <= |SignalsOf(script.engine.value)|
    ensures k <= |Run(p, s, script).0.commits|
    ensures Stores(Start(p, s), SignalsOf(script.engine.value)[..k], Run(p, s, script).0.commits[k - 1])
  {
    AllStores(Start(p, s), script.engine.value, k - 1);
    RunStarts(p, s, script, k - 1);
  }

  /** A checkpoint lacks the flows of its offset, or has others, exactly if the last flows
      stored before the crash are those of a project and differ from the joined ones. */
  lemma OffsetKeptIff(p: Params, s: Snapshot, script: Script, k: nat)
    requires Joins(p, script) && 0 < k <= |SignalsOf(script.engine.value)|
    ensures k <= |Run(p, s, script).0.commits|
    ensures var signals := SignalsOf(script.engine.value)[..k];
      Run(p, s, script).0.commits[k - 1].flows == JoinedAtOffset(Start(p, s).flows, signals) <==>
      !Overwritten(Start(p, s).flows, signals)
  {
    CheckpointStores(p, s, script, k);
    OverwrittenMeans(Start(p, s).flows, SignalsOf(script.engine.value)[..k]);
  }

  /** What a project's checkpoint stores of the joined flows: those that `keep` takes. */
  function Filtered(flows: seq<Flow>, keep: Flow -> bool): seq<Flow> {
    if flows == [] then [] else
      Filtered(flows[..|flows| - 1], keep) + (if keep(flows[|flows| - 1]) then [flows[|flows| - 1]] else [])
  }

  lemma {:induction false} FilteredAll(flows: seq<Flow>, keep: Flow -> bool)
    ensures |Filtered(flows, keep)| <= |flows|
    ensures Filtered(flows, keep) == flows <==> forall f :: f in flows ==> keep(f)
  {
    if flows != [] {
      var n := |flows| - 1;
      FilteredAll(flows[..n], keep);
      assert flows == flows[..n] + [flows[n]];
    }
  }

  /** The join step at `j` is the last one of the signals. */
  predicate LastJoin(signals: seq<Signal>, j: nat) {
    j < |signals| && signals[j].JoinStep? && forall i | j < i < |signals| :: !signals[i].JoinStep?
  }

  lemma {:induction false} LastJoinNotes(before: seq<Flow>, offset: Option<string>, signals: seq<Signal>, j: nat)
    requires LastJoin(signals, j)
    ensures JoinedAtOffset(before, signals) == signals[j].flows
    ensures OffsetNoted(offset, signals) == Some(Decimal(signals[j].completed))
  {
    var n := |signals| - 1;
    if j < n {
      assert !signals[n].JoinStep?;
      LastJoinNotes(before, offset, signals[..n], j);
    }
  }

  /** Wherever the project stands in an attempt and however the attempt goes on: a crash after
      its checkpoint leaves an offset that a resumption trusts, and the flows of that offset
      exactly if the project's filter took them all. No deadline is needed. */
  lemma ProjectMayLoseFlows(p: Params, s: Snapshot, e: Engine, finalFlows: seq<Flow>, j: nat, d: nat, keep: Flow -> bool, parse: string -> Option<int>)
    requires p.hasMethods && p.resume.None? && ReadsNumerals(parse)
    requires d < |e.attempt| && LastJoin(e.attempt[..d + 1], j) && e.attempt[j].completed <= p.inputMethods
    requires e.attempt[d] == ProjectDone(Filtered(e.attempt[j].flows, keep))
    ensures d < |Run(p, s, Script(Some(e), finalFlows)).0.commits|
    ensures var left, resume := Run(p, s, Script(Some(e), finalFlows)).0.commits[d], Resume(e.attempt[j].completed, Some(p.methodsSignature));
      && Decide(left, p.joinSignature, parse) == Resumes(resume) && CheckpointMatches(p, resume)
      && (left.flows == e.attempt[j].flows <==> forall f :: f in e.attempt[j].flows ==> keep(f))
  {
    var script, signals := Script(Some(e), finalFlows), e.attempt[..d + 1];
    assert SignalsOf(e)[..d + 1] == signals;
    CheckpointStores(p, s, script, d + 1);
    ProjectStores(Start(p, s), signals, j, keep, Run(p, s, script).0.commits[d]);
    LeftResumes(p, s, script, d, e.attempt[j].completed, parse);
  }

  lemma ProjectStores(start: Snapshot, signals: seq<Signal>, j: nat, keep: Flow -> bool, c: Snapshot)
    requires Stores(start, signals, c) && LastJoin(signals, j)
    requires signals[|signals| - 1] == ProjectDone(Filtered(signals[j].flows, keep))
    ensures MetaOf(c, JoinCompleted) == Some(Decimal(signals[j].completed))
    ensures c.flows == signals[j].flows <==> forall f :: f in signals[j].flows ==> keep(f)
  {
    LastJoinNotes(start.flows, MetaOf(start, JoinCompleted), signals, j);
    FilteredAll(signals[j].flows, keep);
  }

  /** A checkpoint with a noted offset is resumed from that offset. */
  lemma LeftResumes(p: Params, s: Snapshot, script: Script, d: nat, completed: nat, parse: string -> Option<int>)
    requires ReadsNumerals(parse) && p.resume.None? && d < |Run(p, s, script).0.commits|
    requires MetaOf(Run(p, s, script).0.commits[d], JoinCompleted) == Some(Decimal(completed))
    ensures Decide(Run(p, s, script).0.commits[d], p.joinSignature, parse) == Resumes(Resume(completed, Some(p.methodsSignature)))
  {
    assert Run(p, s, script).0.commits[d] in Run(p, s, script).0.commits;
    CheckpointsResume(p, s, script, parse);
  }
}
