/** The services affected by one service: a breadth-first search with a visited set, cut
    off by depth and by number (application/architecture.py). */
module ImpactSearch {
  import opened Digraph
  import opened TrailSpec
  import opened Basics

  const IMPACT_MAX_DEPTH: nat := 32
  const IMPACT_LIMIT: nat := 100

  ghost function Ends(ts: seq<Trail>): set<Node> { set t | t in ts :: End(t) }

  /** A path through adjacency entries that no other walk to its end undercuts. */
  ghost predicate IsShortest(adj: Adjacency, source: Node, t: Trail) {
    Connects(adj, source, End(t), t) && IsDistance(GraphOf(adj), source, End(t), |t.steps|)
  }

  ghost predicate AllShortest(adj: Adjacency, source: Node, ts: seq<Trail>) {
    forall t :: t in ts ==> IsShortest(adj, source, t)
  }

  /** Each path reports another service, never the source. */
  ghost predicate Reports(source: Node, paths: seq<Trail>, reached: set<Node>) {
    && reached == {source} + Ends(paths) && source !in Ends(paths)
    && forall i, j :: 0 <= i < j < |paths| ==> End(paths[i]) != End(paths[j])
  }

  /** Everything within `k` steps is reached, and nothing beyond `k + 1`. */
  ghost predicate Within(adj: Adjacency, source: Node, reached: set<Node>, k: nat) {
    && BallReached(adj, source, reached, k)
    && (forall v :: v in reached ==> exists n: nat :: n <= k + 1 && IsDistance(GraphOf(adj), source, v, n))
  }

  ghost predicate ClosedBut(adj: Adjacency, reached: set<Node>, open: set<Node>) {
    forall v :: v in reached && v !in open ==> Succ(GraphOf(adj), v) <= reached
  }

  /** The search while nothing was cut off: `rest` waits on level `k`, `next` on the
      level below. */
  datatype State = State(k: nat, rest: seq<Trail>, next: seq<Trail>, reached: set<Node>, paths: seq<Trail>)

  /** Every reached service that does not wait, except `open`, has its targets reached. */
  ghost predicate Exploring(adj: Adjacency, source: Node, s: State, open: set<Node>) {
    && AllShortest(adj, source, s.paths) && Reports(source, s.paths, s.reached)
    && AllShortest(adj, source, s.rest) && AllShortest(adj, source, s.next)
    && Deep(s.rest, s.k) && Deep(s.next, s.k + 1)
    && Within(adj, source, s.reached, s.k)
    && ClosedBut(adj, s.reached, Ends(s.rest) + Ends(s.next) + open)
    && s.k <= IMPACT_MAX_DEPTH && (s.k == IMPACT_MAX_DEPTH ==> s.next == []) && Shallow(s.paths)
  }

  ghost predicate Missing(adj: Adjacency, source: Node, reached: set<Node>) {
    exists v :: Reach(GraphOf(adj), source, v) && v !in reached
  }

  ghost predicate Shallow(paths: seq<Trail>) { forall t :: t in paths ==> |t.steps| <= IMPACT_MAX_DEPTH }

  /** Below the limit on their number, all services within the bound on the depth are reached. */
  ghost predicate Exhaustive(adj: Adjacency, source: Node, paths: seq<Trail>, reached: set<Node>) {
    |paths| < IMPACT_LIMIT ==> BallReached(adj, source, reached, IMPACT_MAX_DEPTH)
  }

  ghost predicate BallReached(adj: Adjacency, source: Node, reached: set<Node>, k: nat) {
    forall v, m: nat :: m <= k && ReachIn(GraphOf(adj), source, v, m) ==> v in reached
  }

  /** What the caller learns from the reported paths and the flag: one shortest path per
      service, the flag exactly when a reachable service is missing, and no missing
      service nearer than a reported one; nothing is missing within the bounds. */
  ghost predicate Answers(adj: Adjacency, source: Node, paths: seq<Trail>, truncated: bool) {
    var reached := {source} + Ends(paths);
    && AllShortest(adj, source, paths) && Reports(source, paths, reached)
    && (truncated <==> Missing(adj, source, reached))
    && NearestFirst(adj, source, paths, reached)
    && Shallow(paths) && Exhaustive(adj, source, paths, reached)
  }

  ghost predicate NearestFirst(adj: Adjacency, source: Node, paths: seq<Trail>, reached: set<Node>) {
    forall t, v, n: nat :: t in paths && v !in reached && IsDistance(GraphOf(adj), source, v, n) ==> |t.steps| <= n
  }

  // ----- one lemma per step

  lemma Starts(adj: Adjacency, source: Node)
    ensures Exploring(adj, source, State(0, [Trail(source, [])], [], {source}, []), {})
  {
    var g, t := GraphOf(adj), Trail(source, []);
    ReachSelf(g, source);
    assert IsDistance(g, source, source, 0);
    forall v | ReachIn(g, source, v, 0) ensures v == source {
      var p :| IsWalk(g, p, source, v) && |p| == 1;
    }
    assert IsShortest(adj, source, t);
    assert End(t) == source;
  }

  lemma NewTarget(adj: Adjacency, source: Node, k: nat, reached: set<Node>, t: Trail, e: Entry)
    requires IsShortest(adj, source, t) && |t.steps| == k && Within(adj, source, reached, k)
    requires e in Entries(adj, End(t)) && e.node !in reached
    ensures IsShortest(adj, source, Then(t, e)) && Within(adj, source, reached + {e.node}, k)
  {
    var g, u := GraphOf(adj), Then(t, e);
    assert Init(u) == t && Last(u) == e && End(u) == e.node;
    Product(Weight(adj, t), multiset(Entries(adj, End(t)))[e]);
    ReachInLast(g, source, e.node, k);
    assert e.node in Succ(g, End(t));
    forall m: nat | ReachIn(g, source, e.node, m) ensures k + 1 <= m {}
    assert IsDistance(g, source, e.node, k + 1);
  }

  lemma EndsAppend(ts: seq<Trail>, u: Trail)
    ensures Ends(ts + [u]) == Ends(ts) + {End(u)}
  {
    assert forall t :: t in ts + [u] <==> t in ts || t == u;
  }

  lemma EndsFirst(ts: seq<Trail>)
    requires ts != []
    ensures Ends(ts) == Ends(ts[1..]) + {End(ts[0])}
  {
    assert ts == [ts[0]] + ts[1..];
    assert forall t :: t in ts <==> t in ts[1..] || t == ts[0];
  }

  lemma ReportsAppend(source: Node, paths: seq<Trail>, reached: set<Node>, u: Trail)
    requires Reports(source, paths, reached) && End(u) !in reached
    ensures Reports(source, paths + [u], reached + {End(u)})
  {
    EndsAppend(paths, u);
    assert forall i :: 0 <= i < |paths| ==> paths[i] in paths && End(paths[i]) in Ends(paths);
  }

  function Reported(s: State, t: Trail, e: Entry): State {
    var u := Then(t, e);
    s.(next := s.next + [u], reached := s.reached + {e.node}, paths := s.paths + [u])
  }

  lemma ListsAppend(adj: Adjacency, source: Node, ts: seq<Trail>, u: Trail)
    requires AllShortest(adj, source, ts) && IsShortest(adj, source, u)
    ensures AllShortest(adj, source, ts + [u])
    ensures forall n: nat :: Deep(ts, n) && |u.steps| == n ==> Deep(ts + [u], n)
    ensures Shallow(ts) && |u.steps| <= IMPACT_MAX_DEPTH ==> Shallow(ts + [u])
  {
    assert forall t :: t in ts + [u] <==> t in ts || t == u;
  }

  /** A service reported anew waits, so nothing else is left open. */
  lemma OpenAppend(adj: Adjacency, s: State, t: Trail, e: Entry)
    requires ClosedBut(adj, s.reached, Ends(s.rest) + Ends(s.next) + {End(t)})
    ensures ClosedBut(adj, s.reached + {e.node}, Ends(s.rest) + Ends(s.next + [Then(t, e)]) + {End(t)})
  {
    EndsAppend(s.next, Then(t, e));
    assert End(Then(t, e)) == e.node;
  }

  /** Reporting a target that was not reached yet. */
  lemma ReportKeeps(adj: Adjacency, source: Node, s: State, t: Trail, e: Entry)
    requires Exploring(adj, source, s, {End(t)}) && s.k < IMPACT_MAX_DEPTH
    requires IsShortest(adj, source, t) && |t.steps| == s.k
    requires e in Entries(adj, End(t)) && e.node !in s.reached
    ensures Exploring(adj, source, Reported(s, t, e), {End(t)})
  {
    NewTarget(adj, source, s.k, s.reached, t, e);
    ReportsAppend(source, s.paths, s.reached, Then(t, e));
    ListsAppend(adj, source, s.paths, Then(t, e));
    ListsAppend(adj, source, s.next, Then(t, e));
    OpenAppend(adj, s, t, e);
  }

  /** The services on the way to a reached service are reached too. */
  lemma PathReached(adj: Adjacency, source: Node, reached: set<Node>, k: nat, t: Trail)
    requires IsShortest(adj, source, t) && |t.steps| == k && Within(adj, source, reached, k)
    ensures forall n :: n in Nodes(t) ==> n in reached
  {
    var p := Nodes(t);
    ConnectsIsWalk(adj, source, End(t), t);
    forall i | 0 <= i < |p| ensures p[i] in reached { PrefixReached(GraphOf(adj), source, End(t), p, i); }
  }

  lemma PrefixReached(g: Graph<Node>, u: Node, v: Node, p: seq<Node>, i: nat)
    requires IsWalk(g, p, u, v) && i < |p|
    ensures ReachIn(g, u, p[i], i)
  {
    assert IsWalk(g, p[..i + 1], u, p[i]);
  }

  /** The result of treating the adjacency entries of `t` in turn. */
  datatype Spread = Spread(state: State, cut: bool)

  function SpreadOver(s: State, t: Trail, entries: seq<Entry>): Spread {
    if entries == [] then Spread(s, false) else
      var before, e := SpreadOver(s, t, entries[..|entries| - 1]), entries[|entries| - 1];
      if before.cut || e.node in Nodes(t) || e.node in before.state.reached then before
      else if |before.state.paths| >= IMPACT_LIMIT then before.(cut := true)
      else before.(state := Reported(before.state, t, e))
  }

  /** Until the limit is met, every target ends up reached; then one is missing. */
  lemma {:induction false} SpreadKeeps(adj: Adjacency, source: Node, s: State, t: Trail, entries: seq<Entry>)
    requires Exploring(adj, source, s, {End(t)}) && s.k < IMPACT_MAX_DEPTH
    requires IsShortest(adj, source, t) && |t.steps| == s.k
    requires forall e :: e in entries ==> e in Entries(adj, End(t))
    ensures var r := SpreadOver(s, t, entries);
      && Exploring(adj, source, r.state, {End(t)}) && r.state.k == s.k
      && (if r.cut then Missing(adj, source, r.state.reached) else forall e :: e in entries ==> e.node in r.state.reached)
  {
    if entries != [] {
      var front, e := entries[..|entries| - 1], entries[|entries| - 1];
      assert entries == front + [e];
      SpreadKeeps(adj, source, s, t, front);
      var before := SpreadOver(s, t, front);
      PathReached(adj, source, before.state.reached, s.k, t);
      if !before.cut && e.node !in before.state.reached {
        if |before.state.paths| >= IMPACT_LIMIT {
          TargetMissing(adj, source, before.state.reached, t, e);
        } else {
          ReportKeeps(adj, source, before.state, t, e);
        }
      }
    }
  }

  lemma {:induction false} SpreadShape(s: State, t: Trail, entries: seq<Entry>)
    ensures var r := SpreadOver(s, t, entries);
      && (r.cut ==> |r.state.paths| >= IMPACT_LIMIT)
      && (|s.paths| <= IMPACT_LIMIT ==> |r.state.paths| <= IMPACT_LIMIT)
      && (|s.paths| >= IMPACT_LIMIT ==> r.state == s)
      && r.state.k == s.k && r.state.rest == s.rest && s.next <= r.state.next
      && s.reached <= r.state.reached && (r.state.reached == s.reached ==> r.state == s)
  {
    if entries != [] { SpreadShape(s, t, entries[..|entries| - 1]); }
  }

  /** When level `k` is exhausted, everything within `k + 1` steps is reached. */
  lemma LevelComplete(adj: Adjacency, source: Node, s: State)
    requires Exploring(adj, source, s, {}) && s.rest == [] && s.next != []
    ensures Exploring(adj, source, s.(k := s.k + 1, rest := s.next, next := []), {})
  {
    var g, k := GraphOf(adj), s.k;
    forall v, m: nat | m <= k + 1 && ReachIn(g, source, v, m) ensures v in s.reached {
      if m == k + 1 {
        ReachInLast(g, source, v, k);
        var w :| ReachIn(g, source, w, k) && v in Succ(g, w);
        assert w !in Ends(s.next);
      }
    }
    assert Ends([]) == {};
  }

  /** A reached service with a target that is not reached makes the result incomplete. */
  lemma TargetMissing(adj: Adjacency, source: Node, reached: set<Node>, t: Trail, e: Entry)
    requires IsShortest(adj, source, t) && e in Entries(adj, End(t)) && e.node !in reached
    ensures Missing(adj, source, reached)
  {
    var g := GraphOf(adj);
    var p :| IsWalk(g, p, source, End(t)) && |p| == |t.steps| + 1;
    ReachEdge(g, End(t), e.node);
    ReachTransitive(g, source, End(t), e.node);
  }

  /** With an empty queue and nothing cut off, everything reachable is reached. */
  lemma NothingMissing(adj: Adjacency, source: Node, s: State)
    requires Exploring(adj, source, s, {}) && s.rest == [] && s.next == []
    ensures !Missing(adj, source, s.reached)
  {
    assert Ends([]) == {};
    forall v | Reach(GraphOf(adj), source, v) ensures v in s.reached {
      var p :| IsWalk(GraphOf(adj), p, source, v);
      ReachStaysInside(GraphOf(adj), s.reached, p, source, v);
    }
  }

  lemma WithinIsNearest(adj: Adjacency, source: Node, s: State)
    requires AllShortest(adj, source, s.paths) && Reports(source, s.paths, s.reached) && Within(adj, source, s.reached, s.k)
    ensures NearestFirst(adj, source, s.paths, s.reached)
  {
    var g := GraphOf(adj);
    forall t, v, n: nat | t in s.paths && v !in s.reached && IsDistance(g, source, v, n) ensures |t.steps| <= n {
      assert End(t) in s.reached;
      var d: nat :| d <= s.k + 1 && IsDistance(g, source, End(t), d);
      assert d == |t.steps|;
    }
  }

  // ----- the iterations of the search

  function Ready(s: State): State {
    if s.rest == [] then s.(k := s.k + 1, rest := s.next, next := []) else s
  }

  /** The first path of the queue is continued, or left at the depth cut-off. */
  function Treated(adj: Adjacency, s: State): Spread
    requires s.rest != []
  {
    var t := s.rest[0];
    var s := s.(rest := s.rest[1..]);
    if |t.steps| >= IMPACT_MAX_DEPTH
    then Spread(s, exists e | e in Entries(adj, End(t)) :: e.node !in Nodes(t) && e.node !in s.reached)
    else SpreadOver(s, t, Entries(adj, End(t)))
  }

  /** At the depth cut-off, everything within the bound is reached. */
  lemma TreatDeepest(adj: Adjacency, source: Node, s: State)
    requires Exploring(adj, source, s, {}) && s.rest != [] && |s.rest[0].steps| >= IMPACT_MAX_DEPTH
    ensures var r := Treated(adj, s);
      && (if r.cut then Answers(adj, source, r.state.paths, true) else Exploring(adj, source, r.state, {}))
      && (r.cut ==> Stuck(r.state.paths, r.state.rest + r.state.next))
  {
    var t, s1 := s.rest[0], s.(rest := s.rest[1..]);
    assert t in s.rest;
    EndsFirst(s.rest);
    assert Exploring(adj, source, s1, {End(t)});
    PathReached(adj, source, s.reached, s.k, t);
    if e :| e in Entries(adj, End(t)) && e.node !in Nodes(t) && e.node !in s.reached {
      TargetMissing(adj, source, s.reached, t, e);
      WithinIsNearest(adj, source, s1);
    } else {
      assert Succ(GraphOf(adj), End(t)) <= s.reached;
    }
  }

  lemma TreatKeeps(adj: Adjacency, source: Node, s: State)
    requires Exploring(adj, source, s, {}) && s.rest != []
    ensures var r := Treated(adj, s);
      && (if r.cut then Answers(adj, source, r.state.paths, true) else Exploring(adj, source, r.state, {}))
      && (r.cut ==> Stuck(r.state.paths, r.state.rest + r.state.next))
  {
    var t, s1 := s.rest[0], s.(rest := s.rest[1..]);
    var entries := Entries(adj, End(t));
    if |t.steps| >= IMPACT_MAX_DEPTH {
      TreatDeepest(adj, source, s);
    } else {
      assert t in s.rest;
      EndsFirst(s.rest);
      assert Exploring(adj, source, s1, {End(t)});
      SpreadKeeps(adj, source, s1, t, entries);
      SpreadShape(s1, t, entries);
      var r := SpreadOver(s1, t, entries);
      if r.cut {
        WithinIsNearest(adj, source, r.state);
      } else {
        assert Succ(GraphOf(adj), End(t)) <= r.state.reached;
      }
    }
  }

  /** After a cut-off no queued path can be continued. */
  predicate Stuck(paths: seq<Trail>, queue: seq<Trail>) {
    |paths| >= IMPACT_LIMIT || forall t | t in queue :: |t.steps| >= IMPACT_MAX_DEPTH
  }

  /** Every node that occurs in the adjacency, and the source. */
  function Universe(adj: Adjacency, source: Node): set<Node> {
    {source} + set n, e | n in adj && e in adj[n] :: e.node
  }

  lemma {:induction false} SpreadInUniverse(adj: Adjacency, source: Node, s: State, t: Trail, entries: seq<Entry>)
    requires s.reached <= Universe(adj, source) && forall e :: e in entries ==> e.node in Universe(adj, source)
    ensures SpreadOver(s, t, entries).state.reached <= Universe(adj, source)
  {
    if entries != [] { SpreadInUniverse(adj, source, s, t, entries[..|entries| - 1]); }
  }

  /** An iteration either reaches a new node or shortens the queue. */
  lemma Decreases(adj: Adjacency, source: Node, s: State)
    requires s.rest != [] && s.reached <= Universe(adj, source)
    ensures var r := Treated(adj, s).state;
      && r.reached <= Universe(adj, source)
      && (|Universe(adj, source) - r.reached| < |Universe(adj, source) - s.reached|
          || (r.reached == s.reached && |r.rest + r.next| < |s.rest + s.next|))
    ensures |s.paths| <= IMPACT_LIMIT ==> |Treated(adj, s).state.paths| <= IMPACT_LIMIT
  {
    var t, s1 := s.rest[0], s.(rest := s.rest[1..]);
    var entries := Entries(adj, End(t));
    SpreadShape(s1, t, entries);
    forall e | e in entries ensures e.node in Universe(adj, source) { assert End(t) in adj; }
    SpreadInUniverse(adj, source, s1, t, entries);
    Smaller(Universe(adj, source), s.reached, Treated(adj, s).state.reached);
  }

  lemma Smaller(u: set<Node>, a: set<Node>, b: set<Node>)
    requires a <= b <= u
    ensures a == b || |u - b| < |u - a|
  {
    if a != b {
      var x :| x in b && x !in a;
      SubsetSize(u - b, u - a - {x});
    }
  }

  lemma StuckStays(adj: Adjacency, s: State)
    requires s.rest != [] && Stuck(s.paths, s.rest + s.next)
    ensures var r := Treated(adj, s).state; r.paths == s.paths && Stuck(r.paths, r.rest + r.next)
  {
    var t, s1 := s.rest[0], s.(rest := s.rest[1..]);
    assert t in s.rest + s.next;
    assert forall u :: u in s1.rest + s1.next ==> u in s.rest + s.next;
    SpreadShape(s1, t, Entries(adj, End(t)));
  }

  // ----- the program

  /** The body of the search loop. */
  method TreatFirst(adj: Adjacency, queue: seq<Trail>, reached: set<Node>, paths: seq<Trail>, truncated: bool, ghost s: State)
    returns (queue': seq<Trail>, reached': set<Node>, paths': seq<Trail>, truncated': bool)
    requires s.rest != [] && queue == s.rest + s.next && reached == s.reached && paths == s.paths
    ensures var r := Treated(adj, s);
      && queue' == r.state.rest + r.state.next && reached' == r.state.reached && paths' == r.state.paths
      && (truncated' <==> truncated || r.cut)
  {
    queue', reached', paths', truncated' := queue, reached, paths, truncated;
    var t := queue'[0];
    queue' := queue'[1..];
    ghost var s1 := s.(rest := s.rest[1..]);
    assert queue' == s1.rest + s1.next;
    var entries := Entries(adj, End(t));
    if |t.steps| >= IMPACT_MAX_DEPTH {
      if exists e | e in entries :: e.node !in Nodes(t) && e.node !in reached' {
        truncated' := true;
      }
      return;
    }
    ghost var r := Spread(s1, false);
    var i := 0;
    while i < |entries|
      invariant 0 <= i <= |entries| && r == SpreadOver(s1, t, entries[..i]) && !r.cut && r.state.rest == s1.rest
      invariant queue' == r.state.rest + r.state.next && reached' == r.state.reached && paths' == r.state.paths
      invariant truncated' == truncated
    {
      var e := entries[i];
      assert entries[..i + 1][..i] == entries[..i];
      i := i + 1;
      r := SpreadOver(s1, t, entries[..i]);
      if e.node in Nodes(t) || e.node in reached' {
        continue;
      }
      if |paths'| >= IMPACT_LIMIT {
        truncated' := true;
        CutStays(s1, t, entries, i);
        break;
      }
      reached' := reached' + {e.node};
      paths' := paths' + [Then(t, e)];
      queue' := queue' + [Then(t, e)];
    }
    assert entries[..|entries|] == entries;
  }

  /** `break`: after the cut the remaining entries change nothing. */
  lemma {:induction false} CutStays(s: State, t: Trail, entries: seq<Entry>, i: nat)
    requires i <= |entries| && SpreadOver(s, t, entries[..i]).cut
    ensures SpreadOver(s, t, entries) == SpreadOver(s, t, entries[..i])
  {
    if i < |entries| {
      assert entries[..|entries| - 1][..i] == entries[..i];
      CutStays(s, t, entries[..|entries| - 1], i);
    } else {
      assert entries[..i] == entries;
    }
  }

  /** How many services are not reached yet. */
  ghost function Left(adj: Adjacency, source: Node, s: State): nat { |Universe(adj, source) - s.reached| }

  /** What holds between two iterations; after a cut nothing more is reported. */
  ghost predicate Running(adj: Adjacency, source: Node, s: State, truncated: bool) {
    && |s.paths| <= IMPACT_LIMIT && s.reached <= Universe(adj, source)
    && if truncated then Answers(adj, source, s.paths, true) && Stuck(s.paths, s.rest + s.next) else Exploring(adj, source, s, {})
  }

  lemma ReadyRuns(adj: Adjacency, source: Node, s: State, truncated: bool)
    requires Running(adj, source, s, truncated) && s.rest == [] && s.next != []
    ensures Running(adj, source, Ready(s), truncated) && Ready(s).rest + Ready(s).next == s.rest + s.next
    ensures Ready(s).rest != [] && Ready(s).reached == s.reached && Ready(s).paths == s.paths && Left(adj, source, Ready(s)) == Left(adj, source, s)
  {
    if !truncated { LevelComplete(adj, source, s); }
    assert Ready(s).rest + Ready(s).next == s.next == s.rest + s.next;
  }

  /** One iteration reports a new service or shortens the queue. */
  lemma TreatedRuns(adj: Adjacency, source: Node, s: State, truncated: bool)
    requires Running(adj, source, s, truncated) && s.rest != []
    ensures var r := Treated(adj, s);
      && Running(adj, source, r.state, truncated || r.cut)
      && (Left(adj, source, r.state) < Left(adj, source, s)
          || (Left(adj, source, r.state) == Left(adj, source, s) && |r.state.rest + r.state.next| < |s.rest + s.next|))
  {
    if truncated { StuckStays(adj, s); } else { TreatKeeps(adj, source, s); }
    Decreases(adj, source, s);
  }

  lemma Finished(adj: Adjacency, source: Node, s: State, truncated: bool)
    requires Running(adj, source, s, truncated) && s.rest == [] && s.next == []
    ensures Answers(adj, source, s.paths, truncated)
  {
    if !truncated {
      NothingMissing(adj, source, s);
      WithinIsNearest(adj, source, s);
    }
  }

  /** `_microservice_impact_paths`. */
  method ImpactPaths(adj: Adjacency, source: Node) returns (paths: seq<Trail>, truncated: bool)
    ensures Answers(adj, source, paths, truncated) && |paths| <= IMPACT_LIMIT
  {
    var queue := [Trail(source, [])];
    var reached := {source};
    paths, truncated := [], false;
    ghost var s := State(0, queue, [], reached, paths);
    Starts(adj, source);
    while |queue| > 0
      invariant queue == s.rest + s.next && reached == s.reached && paths == s.paths
      invariant Running(adj, source, s, truncated)
      decreases Left(adj, source, s), |queue|
    {
      if s.rest == [] {
        ReadyRuns(adj, source, s, truncated);
        s := Ready(s);
      }
      TreatedRuns(adj, source, s, truncated);
      queue, reached, paths, truncated := TreatFirst(adj, queue, reached, paths, truncated, s);
      s := Treated(adj, s).state;
    }
    Finished(adj, source, s, truncated);
  }
}
