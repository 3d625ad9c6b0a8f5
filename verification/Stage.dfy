/** The call-graph stage as it runs on the store: uncommitted changes, and checkpoints that
    make them durable (indexing/call_graph_stage.py). */
module Stage {
  import opened Wrappers
  import opened Numerals
  import opened StageSpec

  /** Working tables and their last committed state. */
  class Store {
    var meta: map<Meta, string>
    var flows: seq<Flow>
    var durable: Snapshot
    ghost var log: seq<Snapshot>

    ghost function View(): Snapshot
      reads this
    {
      Snapshot(meta, flows)
    }

    constructor (start: Snapshot)
      ensures View() == start && durable == start && log == []
    {
      meta, flows, durable, log := start.meta, start.flows, start, [];
    }

    method SetMeta(key: Meta, value: string)
      modifies this`meta
      ensures View() == old(View()).Set(key, value)
    {
      meta := meta[key := value];
    }

    method DeleteMeta(key: Meta)
      modifies this`meta
      ensures View() == old(View()).Drop(key)
    {
      meta := meta - {key};
    }

    method ReplaceCodeFlows(newFlows: seq<Flow>)
      modifies this`flows
      ensures View() == old(View()).With(newFlows)
    {
      flows := newFlows;
    }

    method CommitCheckpoint()
      modifies this`durable, this`log
      ensures durable == View() && log == old(log) + [View()]
    {
      durable := Snapshot(meta, flows);
      log := log + [durable];
    }
  }

  /** What is on disk is the last checkpoint since `start`, or what was there before. */
  ghost predicate OnDisk(store: Store, before: Snapshot, start: nat)
    reads store
  {
    && start <= |store.log|
    && store.durable == if |store.log| == start then before else store.log[|store.log| - 1]
  }

  method MarkFlowSnapshotInProgress(store: Store, p: Params)
    modifies store`meta, store`flows
    ensures store.View() == Marked(p, old(store.View()))
  {
    store.DeleteMeta(FlowSignature);
    store.SetMeta(SnapshotStatus, "partial");
    var surviving: seq<Flow> := [];
    for i := 0 to |store.flows|
      invariant store.View() == old(store.View()).Drop(FlowSignature).Set(SnapshotStatus, "partial")
      invariant surviving == Surviving(p, store.flows[..i])
    {
      assert store.flows[..i + 1][..i] == store.flows[..i];
      if Survives(p, store.flows[i]) {
        surviving := surviving + [store.flows[i]];
      }
    }
    assert store.flows[..|store.flows|] == store.flows;
    SurvivingAll(p, store.flows);
    if |surviving| != |store.flows| {
      store.ReplaceCodeFlows(surviving);
    }
  }

  method OpenStage(store: Store, p: Params)
    modifies store`meta, store`flows
    ensures store.View() == Opening(p, old(store.View()))
  {
    MarkFlowSnapshotInProgress(store, p);
    if !p.refreshView {
      store.DeleteMeta(GraphStatus);
      store.DeleteMeta(EdgeCount);
    }
    store.DeleteMeta(InputOutputStatus);
    store.DeleteMeta(InputOutputCount);
    if p.resume.Some? {
      if !CheckpointMatches(p, p.resume.value) {
        store.SetMeta(JoinCompleted, "0");
        store.SetMeta(JoinMethods, p.methodsSignature);
      }
    } else {
      store.SetMeta(JoinMethods, p.methodsSignature);
    }
  }

  /** persist_call_graph, publish_join_checkpoint and publish_call_graph_progress. */
  method Checkpoint(store: Store, signal: Signal, timedOut: bool)
    modifies store
    ensures store.View() == Signalled(old(store.View()), signal, timedOut)
    ensures store.log == old(store.log) + [store.View()] && store.durable == store.View()
  {
    match signal
    case GraphBuilt(edges) =>
      store.SetMeta(GraphStatus, if timedOut then "partial" else "complete");
      store.SetMeta(EdgeCount, Decimal(edges));
      store.CommitCheckpoint();
    case JoinStep(flows, completed) =>
      store.ReplaceCodeFlows(flows);
      store.DeleteMeta(FlowSignature);
      store.SetMeta(SnapshotStatus, "partial");
      store.SetMeta(JoinCompleted, Decimal(completed));
      store.CommitCheckpoint();
    case ProjectDone(flows) =>
      store.ReplaceCodeFlows(flows);
      store.DeleteMeta(FlowSignature);
      store.SetMeta(SnapshotStatus, "partial");
      store.CommitCheckpoint();
  }

  method Checkpoints(store: Store, signals: seq<Signal>, timedOut: bool, ghost t: Trace, ghost disk: Snapshot, ghost start: seq<Snapshot>)
    requires store.View() == t.work && store.log == start + t.commits && OnDisk(store, disk, |start|)
    modifies store
    ensures store.View() == Played(t, signals, timedOut).work
    ensures store.log == start + Played(t, signals, timedOut).commits && OnDisk(store, disk, |start|)
  {
    for i := 0 to |signals|
      invariant store.View() == Played(t, signals[..i], timedOut).work
      invariant store.log == start + Played(t, signals[..i], timedOut).commits && OnDisk(store, disk, |start|)
    {
      assert signals[..i + 1][..i] == signals[..i];
      Checkpoint(store, signals[i], timedOut);
    }
    assert signals[..|signals|] == signals;
  }

  /** The checkpoint of the joined flows. */
  method CloseJoin(store: Store, p: Params, e: Engine, timedOut: bool)
    modifies store
    ensures store.View() == JoinClosed(p, old(store.View()), e, timedOut)
    ensures store.log == old(store.log) + [store.View()] && store.durable == store.View()
  {
    store.ReplaceCodeFlows(e.joinedFlows);
    store.DeleteMeta(FlowSignature);
    store.SetMeta(InputOutputStatus, if timedOut then "partial" else "complete");
    store.SetMeta(InputOutputCount, Decimal(e.joinedCount));
    store.SetMeta(JoinCompleted, Decimal(p.inputMethods));
    store.CommitCheckpoint();
  }

  /** The engine's attempt, the second join after a deadline, and their common end. */
  method JoinCalls(store: Store, p: Params, e: Engine, ghost t: Trace, ghost disk: Snapshot, ghost start: seq<Snapshot>)
    returns (outcome: Outcome)
    requires store.View() == t.work && store.log == start + t.commits && OnDisk(store, disk, |start|)
    modifies store
    ensures start <= store.log && OnDisk(store, disk, |start|)
    ensures (Trace(store.View(), store.log[|start|..]), outcome) == Joined(p, t, e)
  {
    Checkpoints(store, e.attempt, false, t, disk, start);
    ghost var t1 := Played(t, e.attempt, false);
    if e.ending.Broken? {
      assert store.log[|start|..] == t1.commits;
      return Raised;
    }
    var timedOut := e.ending.Deadline?;
    ghost var t2 := t1;
    if timedOut && !e.ending.joined {
      Checkpoints(store, e.retry, true, t1, disk, start);
      t2 := Played(t1, e.retry, true);
      if e.retryBroken {
        assert store.log[|start|..] == t2.commits;
        return Raised;
      }
    }
    CloseJoin(store, p, e, timedOut);
    assert store.log[|start|..] == t2.commits + [store.View()];
    return Returned(timedOut);
  }

  method CloseStage(store: Store, p: Params, flows: seq<Flow>, timedOut: bool)
    modifies store`meta, store`flows
    ensures store.View() == Closing(p, old(store.View()), flows, timedOut)
  {
    store.ReplaceCodeFlows(flows);
    if timedOut {
      store.DeleteMeta(FlowSignature);
      store.SetMeta(SnapshotStatus, "partial");
      store.DeleteMeta(JoinSignature);
      store.DeleteMeta(JoinCompleted);
    } else {
      store.SetMeta(FlowSignature, p.flowSignature);
      store.SetMeta(SnapshotStatus, "complete");
      store.DeleteMeta(JoinSignature);
      store.DeleteMeta(JoinCompleted);
    }
  }

  /** One run: the working tables, the checkpoints and the disk are those of the trace. */
  method RunCallGraphStage(store: Store, p: Params, script: Script) returns (outcome: Outcome)
    modifies store
    ensures old(store.log) <= store.log
    ensures (Trace(store.View(), store.log[|old(store.log)|..]), outcome) == Run(p, old(store.View()), script)
    ensures OnDisk(store, old(store.durable), |old(store.log)|)
  {
    ghost var start := store.log;
    ghost var disk := store.durable;
    OpenStage(store, p);
    outcome := Returned(false);
    assert start + [] == start && start[|start|..] == [];
    if (p.hasMethods || p.refreshView) && script.engine.Some? {
      if p.resume.None? {
        store.DeleteMeta(JoinCompleted);
        store.SetMeta(JoinSignature, p.joinSignature);
        store.SetMeta(JoinCompleted, "0");
        store.SetMeta(SnapshotStatus, "partial");
      }
      outcome := JoinCalls(store, p, script.engine.value, Trace(store.View(), []), disk, start);
      if outcome.Raised? { return; }
    }
    CloseStage(store, p, script.finalFlows, outcome.timedOut);
  }
}
