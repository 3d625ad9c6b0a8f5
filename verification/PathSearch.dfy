/** Bounded shortest paths between two services (application/architecture.py). */
module PathSearch {
  import opened Wrappers
  import opened Basics
  import opened Digraph
  import opened TrailSpec

  /** A query and its bounds. */
  datatype Query = Query(adj: Adjacency, source: Node, target: Node, maxDepth: int, limit: int)

  /** The result once the paths of `done` have been offered: the first `limit` that
      reach the target, and whether there are more. */
  ghost predicate Collected(target: Node, done: seq<Trail>, limit: int, paths: seq<Trail>, truncated: bool) {
    && paths == Take(Hits(target, done), AtLeastZero(limit))
    && (truncated <==> |Hits(target, done)| > AtLeastZero(limit))
  }

  /** The search with its queue split in two: the rest of level `k`, of which `done` was
      treated, and the paths that this treatment has added. */
  datatype Search = Search(k: nat, done: seq<Trail>, rest: seq<Trail>, next: seq<Trail>,
                           shortest: Option<nat>, paths: seq<Trail>, truncated: bool)

  ghost predicate OnLevel(q: Query, s: Search) {
    && NoHitsBelow(q.adj, q.source, q.target, s.k)
    && Level(q.adj, q.source, q.target, s.k) == s.done + s.rest
    && Collected(q.target, s.done, q.limit, s.paths, s.truncated)
  }

  /** No hit yet. */
  ghost predicate Seeking(q: Query, s: Search) {
    && OnLevel(q, s)
    && Hits(q.target, s.done) == []
    && s.next == if s.k < AtLeastZero(q.maxDepth) then Expand(q.adj, q.target, s.done) else []
  }

  /** The target was found on level `d`: its hits are being collected, or that level is
      exhausted and nothing can change any more. */
  ghost predicate Finishing(q: Query, s: Search, d: nat) {
    if s.k == d then OnLevel(q, s) && Hits(q.target, s.done) != [] else
      && s.k == d + 1 && s.next == []
      && NoHitsBelow(q.adj, q.source, q.target, d)
      && Collected(q.target, Level(q.adj, q.source, q.target, d), q.limit, s.paths, s.truncated)
      && Hits(q.target, Level(q.adj, q.source, q.target, d)) != []
  }

  ghost predicate Inv(q: Query, s: Search) {
    && s.k <= AtLeastZero(q.maxDepth) + 1 && Deep(s.rest, s.k) && Deep(s.next, s.k + 1)
    && match s.shortest
       case None => s.k <= AtLeastZero(q.maxDepth) && Seeking(q, s)
       case Some(d) => d <= AtLeastZero(q.maxDepth) && Finishing(q, s, d)
  }

  function Rolled(s: Search): Search { s.(k := s.k + 1, done := [], rest := s.next, next := []) }

  /** Treating the first path of the queue. */
  function Treated(q: Query, s: Search): Search
    requires s.rest != []
  {
    var t := s.rest[0];
    var s := s.(rest := s.rest[1..], done := s.done + [t]);
    if End(t) == q.target then
      var d := if s.shortest.None? then s.k else s.shortest.value;
      var s := s.(shortest := Some(d));
      if s.k != d then s
      else if |s.paths| >= q.limit then s.(truncated := true)
      else s.(paths := s.paths + [t])
    else if s.k >= q.maxDepth || (s.shortest.Some? && s.k >= s.shortest.value) then s
    else s.(next := s.next + Continue(t, Entries(q.adj, End(t))))
  }

  lemma TreatOne(adj: Adjacency, target: Node, done: seq<Trail>, t: Trail)
    ensures Hits(target, done + [t]) == Hits(target, done) + (if End(t) == target then [t] else [])
    ensures Expand(adj, target, done + [t]) ==
            Expand(adj, target, done) + (if End(t) == target then [] else Continue(t, Entries(adj, End(t))))
  {
    assert (done + [t])[..|done|] == done;
  }

  /** Moving to the next level. */
  lemma RollKeeps(q: Query, s: Search)
    requires Inv(q, s) && s.rest == [] && s.next != []
    ensures Inv(q, Rolled(s))
  {
    assert s.done + [] == s.done;
    if s.shortest.None? { RollSeeking(q, s); }
  }

  lemma RollSeeking(q: Query, s: Search)
    requires Seeking(q, s) && s.rest == [] && s.next != []
    ensures s.k < AtLeastZero(q.maxDepth) && Seeking(q, Rolled(s))
  {
    assert s.done + [] == s.done && [] + s.next == s.next;
    assert Hits(q.target, []) == [] && Expand(q.adj, q.target, []) == [];
    NoHitsNext(q.adj, q.source, q.target, s.k, s.k + 1);
    LevelNext(q.adj, q.source, q.target, s.k, s.k + 1);
  }

  lemma Shift(s: Search)
    requires s.rest != [] && Deep(s.rest, s.k)
    ensures s.done + s.rest == (s.done + [s.rest[0]]) + s.rest[1..]
    ensures |s.rest[0].steps| == s.k && Deep(s.rest[1..], s.k)
  {
    assert s.rest[0] in s.rest;
  }

  lemma MissOnLevel(q: Query, s: Search)
    requires OnLevel(q, s) && s.rest != [] && Deep(s.rest, s.k) && End(s.rest[0]) != q.target
    ensures OnLevel(q, Treated(q, s)) && Hits(q.target, Treated(q, s).done) == Hits(q.target, s.done)
  {
    Shift(s);
    TreatOne(q.adj, q.target, s.done, s.rest[0]);
  }

  lemma MissSeeks(q: Query, s: Search)
    requires Seeking(q, s) && s.shortest.None? && s.rest != [] && Deep(s.rest, s.k) && End(s.rest[0]) != q.target
    ensures Seeking(q, Treated(q, s))
  {
    MissOnLevel(q, s);
    TreatOne(q.adj, q.target, s.done, s.rest[0]);
    assert |s.rest[0].steps| == s.k by { Shift(s); }
  }

  /** A path that does not end at the target only adds continuations. */
  lemma MissKeeps(q: Query, s: Search)
    requires Inv(q, s) && s.rest != [] && End(s.rest[0]) != q.target
    ensures Inv(q, Treated(q, s))
  {
    var t := s.rest[0];
    Shift(s);
    ContinueDepth(t, Entries(q.adj, End(t)));
    if s.shortest.None? {
      MissSeeks(q, s);
    } else if s.k == s.shortest.value {
      MissOnLevel(q, s);
    }
  }

  /** A path to the target is kept when it is as short as the first one found. */
  lemma HitKeeps(q: Query, s: Search)
    requires Inv(q, s) && s.rest != [] && End(s.rest[0]) == q.target
    ensures Inv(q, Treated(q, s))
  {
    Shift(s);
    TreatOne(q.adj, q.target, s.done, s.rest[0]);
  }

  /** The path at the head of the queue, on its level. */
  lemma Prepare(q: Query, s: Search) returns (s': Search)
    requires Inv(q, s) && s.rest + s.next != []
    ensures Inv(q, s') && s'.rest != [] && s'.rest + s'.next == s.rest + s.next
    ensures s'.shortest == s.shortest && s'.paths == s.paths && s'.truncated == s.truncated
    ensures s' == s || (s'.k > s.k && s.k < AtLeastZero(q.maxDepth) + 2)
  {
    s' := s;
    if s.rest == [] {
      RollKeeps(q, s);
      s' := Rolled(s);
    }
  }

  lemma TreatKeeps(q: Query, s: Search)
    requires Inv(q, s) && s.rest != []
    ensures Inv(q, Treated(q, s)) && Deep(s.rest, s.k)
    ensures Treated(q, s).k == s.k && |Treated(q, s).rest| < |s.rest|
  {
    if End(s.rest[0]) == q.target { HitKeeps(q, s); } else { MissKeeps(q, s); }
  }

  /** One iteration: the queue's head is treated on its level, and the search advances. */
  lemma Advance(q: Query, s: Search) returns (ready: Search, after: Search)
    requires Inv(q, s) && s.rest + s.next != []
    ensures ready.rest != [] && Deep(ready.rest, ready.k) && ready.rest + ready.next == s.rest + s.next
    ensures ready.shortest == s.shortest && ready.paths == s.paths && ready.truncated == s.truncated
    ensures after == Treated(q, ready) && Inv(q, after)
    ensures Remaining(q, after) < Remaining(q, s) || (Remaining(q, after) == Remaining(q, s) && |after.rest| < |s.rest|)
  {
    ready := Prepare(q, s);
    TreatKeeps(q, ready);
    after := Treated(q, ready);
  }

  function Remaining(q: Query, s: Search): nat {
    if s.k > AtLeastZero(q.maxDepth) + 2 then 0 else AtLeastZero(q.maxDepth) + 2 - s.k
  }

  /** What an exhausted queue means when the target was found. */
  lemma FinishedMeans(q: Query, s: Search, d: nat)
    requires Finishing(q, s, d) && s.rest == []
    ensures IsDistance(GraphOf(q.adj), q.source, q.target, d)
    ensures Collected(q.target, Level(q.adj, q.source, q.target, d), q.limit, s.paths, s.truncated)
  {
    assert s.done + [] == s.done;
    FirstLevel(q.adj, q.source, q.target, d);
  }

  /** Without a hit, an exhausted queue means that no deeper level has a hit either. */
  lemma SoughtMeans(q: Query, s: Search)
    requires Seeking(q, s) && s.rest == [] && s.next == [] && s.k <= AtLeastZero(q.maxDepth)
    ensures s.paths == [] && !s.truncated
    ensures forall d: nat :: d <= AtLeastZero(q.maxDepth) ==> !ReachIn(GraphOf(q.adj), q.source, q.target, d)
  {
    var n, beyond := s.k + 1, AtLeastZero(q.maxDepth) + 1;
    assert s.done + [] == s.done;
    NoHitsNext(q.adj, q.source, q.target, s.k, n);
    if n != beyond {
      LevelNext(q.adj, q.source, q.target, s.k, n);
      NoHitsLater(q.adj, q.source, q.target, n, beyond);
    }
    NotReachableBelow(q.adj, q.source, q.target, beyond);
  }

  /** What the caller learns: a target within the bound yields the first `limit` shortest
      paths and a flag that tells whether there are more; any other target yields none. */
  ghost predicate Answers(q: Query, paths: seq<Trail>, truncated: bool) {
    && (forall d: nat :: d <= AtLeastZero(q.maxDepth) && IsDistance(GraphOf(q.adj), q.source, q.target, d) ==>
          Collected(q.target, Level(q.adj, q.source, q.target, d), q.limit, paths, truncated))
    && ((forall d: nat :: d <= AtLeastZero(q.maxDepth) ==> !ReachIn(GraphOf(q.adj), q.source, q.target, d)) ==>
          paths == [] && !truncated)
  }

  lemma ResultMeans(q: Query, s: Search)
    requires Inv(q, s) && s.rest == [] && s.next == []
    ensures Answers(q, s.paths, s.truncated)
  {
    var g := GraphOf(q.adj);
    if s.shortest.Some? {
      var n := s.shortest.value;
      FinishedMeans(q, s, n);
      forall d: nat | IsDistance(g, q.source, q.target, d) ensures d == n {}
      assert n <= AtLeastZero(q.maxDepth) && ReachIn(g, q.source, q.target, n);
    } else {
      SoughtMeans(q, s);
    }
  }

  /** How many choices of adjacency entries make `t` a shortest path; zero for any other path. */
  ghost function ShortestCount(q: Query, t: Trail): nat {
    if Connects(q.adj, q.source, q.target, t) && IsDistance(GraphOf(q.adj), q.source, q.target, |t.steps|)
    then Weight(q.adj, t) else 0
  }

  /** How often the search must list `t`: a shortest path within the bound once per choice of
      adjacency entries. */
  ghost function Due(q: Query, t: Trail): nat {
    if |t.steps| <= AtLeastZero(q.maxDepth) then ShortestCount(q, t) else 0
  }

  lemma {:induction false} HitsAreDue(q: Query, n: nat, t: Trail)
    requires IsDistance(GraphOf(q.adj), q.source, q.target, n) && n <= AtLeastZero(q.maxDepth)
    ensures multiset(Hits(q.target, Level(q.adj, q.source, q.target, n)))[t] == Due(q, t)
  {
    HitsAreShortest(q.adj, q.source, q.target, n, t);
    assert IsDistance(GraphOf(q.adj), q.source, q.target, |t.steps|) <==> |t.steps| == n;
  }

  lemma NothingDue(q: Query, t: Trail)
    requires forall d: nat :: d <= AtLeastZero(q.maxDepth) ==> !ReachIn(GraphOf(q.adj), q.source, q.target, d)
    ensures Due(q, t) == 0
  {
    if |t.steps| <= AtLeastZero(q.maxDepth) { assert !ReachIn(GraphOf(q.adj), q.source, q.target, |t.steps|); }
  }

  /** A first part that is not the whole misses an occurrence. */
  lemma TakeMisses<T>(s: seq<T>, n: nat)
    ensures forall t :: multiset(Take(s, n))[t] <= multiset(s)[t]
    ensures |s| > n <==> exists t :: multiset(Take(s, n))[t] < multiset(s)[t]
  {
    if |s| > n {
      assert s == s[..n] + s[n..];
      assert multiset(s)[s[n]] == multiset(s[..n])[s[n]] + multiset(s[n..])[s[n]];
    }
  }

  /** Every path listed is a shortest one within the bound, and is listed no more often than it
      is due; the flag is set exactly when some path is listed less often. For a positive limit
      the list is empty exactly when the target is out of reach within the bound. */
  lemma AnswersMean(q: Query, paths: seq<Trail>, truncated: bool)
    requires Answers(q, paths, truncated)
    ensures q.limit >= 1 ==>
      (paths == [] <==> forall d: nat :: d <= AtLeastZero(q.maxDepth) ==> !ReachIn(GraphOf(q.adj), q.source, q.target, d))
    ensures forall t :: multiset(paths)[t] <= Due(q, t)
    ensures truncated <==> exists t :: multiset(paths)[t] < Due(q, t)
  {
    var g := GraphOf(q.adj);
    if d: nat :| d <= AtLeastZero(q.maxDepth) && ReachIn(g, q.source, q.target, d) {
      var n := Nearest(g, q.source, q.target, d);
      var hits := Hits(q.target, Level(q.adj, q.source, q.target, n));
      DistanceIsHit(q.adj, q.source, q.target, n);
      assert Collected(q.target, Level(q.adj, q.source, q.target, n), q.limit, paths, truncated);
      TakeMisses(hits, AtLeastZero(q.limit));
      forall t ensures multiset(hits)[t] == Due(q, t) { HitsAreDue(q, n, t); }
    } else {
      forall t ensures Due(q, t) == 0 { NothingDue(q, t); }
    }
  }

  lemma Nearest(g: Graph<Node>, u: Node, v: Node, d: nat) returns (n: nat)
    requires ReachIn(g, u, v, d)
    ensures n <= d && IsDistance(g, u, v, n)
  {
    n := d;
    if m: nat :| ReachIn(g, u, v, m) && m < n { n := Nearest(g, u, v, m); }
  }

  // ----- the program

  method Continuations(adj: Adjacency, t: Trail) returns (r: seq<Trail>)
    ensures r == Continue(t, Entries(adj, End(t)))
  {
    r := [];
    var entries := Entries(adj, End(t));
    for i := 0 to |entries|
      invariant r == Continue(t, entries[..i])
    {
      assert entries[..i + 1][..i] == entries[..i];
      if entries[i].node in Nodes(t) {
        continue;
      }
      r := r + [Then(t, entries[i])];
    }
    assert entries[..|entries|] == entries;
  }

  /** `find_microservice_paths`, on any adjacency: when the target is within the bound,
      the first `limit` shortest paths; the flag tells that there are more. */
  method FindPaths(q: Query) returns (paths: seq<Trail>, truncated: bool)
    ensures Answers(q, paths, truncated)
  {
    var queue := [Trail(q.source, [])];
    var shortest: Option<nat> := None;
    paths, truncated := [], false;
    ghost var s := Search(0, [], queue, [], None, [], false);
    while |queue| > 0
      invariant Inv(q, s) && queue == s.rest + s.next
      invariant shortest == s.shortest && paths == s.paths && truncated == s.truncated
      decreases Remaining(q, s), |s.rest|
    {
      ghost var ready, after := Advance(q, s);
      queue, shortest, paths, truncated := TreatFirst(q, queue, shortest, paths, truncated, ready);
      s := after;
    }
    ResultMeans(q, s);
  }

  lemma HeadOf(s: Search, queue: seq<Trail>)
    requires s.rest != [] && Deep(s.rest, s.k) && queue == s.rest + s.next
    ensures queue[0] == s.rest[0] && queue[1..] == s.rest[1..] + s.next && |queue[0].steps| == s.k
  {
    assert queue[0] in s.rest;
  }

  /** The body of the search loop. */
  method TreatFirst(q: Query, queue: seq<Trail>, shortest: Option<nat>, paths: seq<Trail>, truncated: bool, ghost s: Search)
    returns (queue': seq<Trail>, shortest': Option<nat>, paths': seq<Trail>, truncated': bool)
    requires s.rest != [] && Deep(s.rest, s.k) && queue == s.rest + s.next
    requires shortest == s.shortest && paths == s.paths && truncated == s.truncated
    ensures var u := Treated(q, s);
      queue' == u.rest + u.next && shortest' == u.shortest && paths' == u.paths && truncated' == u.truncated
  {
    queue', shortest', paths', truncated' := queue, shortest, paths, truncated;
    var t := queue'[0];
    queue' := queue'[1..];
    HeadOf(s, queue);
    var depth := |t.steps|;
    if End(t) == q.target {
      if shortest'.None? { shortest' := Some(depth); }
      if depth != shortest'.value { return; }
      if |paths'| >= q.limit {
        truncated' := true;
        return;
      }
      paths' := paths' + [t];
      return;
    }
    if depth >= q.maxDepth || (shortest'.Some? && depth >= shortest'.value) { return; }
    var more := Continuations(q.adj, t);
    queue' := queue' + more;
    assert queue' == s.rest[1..] + (s.next + more);
  }
}
