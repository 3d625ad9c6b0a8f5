/** Paths of a topology counted by adjacency entries, and the levels of a breadth-first
    search that keeps no visited set (application/architecture.py). */
module TrailSpec {
  import opened Basics
  import opened Digraph

  datatype Node = Node(kind: string, name: string)
  datatype Relation = Relation(kind: string, caption: string)
  datatype Entry = Entry(node: Node, relation: Relation)
  type Adjacency = map<Node, seq<Entry>>

  /** A path: its first node and the adjacency entry taken at each step. */
  datatype Trail = Trail(start: Node, steps: seq<Entry>)

  function Entries(adj: Adjacency, n: Node): seq<Entry> {
    if n in adj then adj[n] else []
  }

  function Nodes(t: Trail): (p: seq<Node>)
    ensures |p| == |t.steps| + 1 && p[0] == t.start
    ensures forall i :: 0 <= i < |t.steps| ==> p[i + 1] == t.steps[i].node
  {
    [t.start] + seq(|t.steps|, i requires 0 <= i < |t.steps| => t.steps[i].node)
  }

  function End(t: Trail): Node {
    if t.steps == [] then t.start else t.steps[|t.steps| - 1].node
  }

  function Then(t: Trail, e: Entry): Trail { Trail(t.start, t.steps + [e]) }

  // ----- the levels of the search

  /** The continuations of one path through adjacency entries to new nodes. */
  function Continue(t: Trail, entries: seq<Entry>): seq<Trail> {
    if entries == [] then [] else
      var e := entries[|entries| - 1];
      Continue(t, entries[..|entries| - 1]) + (if e.node in Nodes(t) then [] else [Then(t, e)])
  }

  /** The paths added to the queue by treating `ts`: a path to the target is not continued. */
  function Expand(adj: Adjacency, target: Node, ts: seq<Trail>): seq<Trail> {
    if ts == [] then [] else
      var t := ts[|ts| - 1];
      Expand(adj, target, ts[..|ts| - 1]) + (if End(t) == target then [] else Continue(t, Entries(adj, End(t))))
  }

  /** The paths the search queues with `n` relations, in queue order. */
  function Level(adj: Adjacency, source: Node, target: Node, n: nat): seq<Trail> {
    if n == 0 then [Trail(source, [])] else Expand(adj, target, Level(adj, source, target, n - 1))
  }

  /** The paths of a level that reach the target. */
  function Hits(target: Node, ts: seq<Trail>): seq<Trail> {
    if ts == [] then [] else
      var t := ts[|ts| - 1];
      Hits(target, ts[..|ts| - 1]) + (if End(t) == target then [t] else [])
  }

  ghost predicate Deep(ts: seq<Trail>, n: nat) { forall t :: t in ts ==> |t.steps| == n }

  lemma {:induction false} ContinueDepth(t: Trail, entries: seq<Entry>)
    ensures Deep(Continue(t, entries), |t.steps| + 1)
  {
    if entries != [] { ContinueDepth(t, entries[..|entries| - 1]); }
  }

  lemma {:induction false} ExpandDepth(adj: Adjacency, target: Node, ts: seq<Trail>, n: nat)
    requires Deep(ts, n)
    ensures Deep(Expand(adj, target, ts), n + 1)
  {
    if ts != [] {
      var t := ts[|ts| - 1];
      assert t in ts;
      ExpandDepth(adj, target, ts[..|ts| - 1], n);
      ContinueDepth(t, Entries(adj, End(t)));
    }
  }

  lemma {:induction false} LevelDepth(adj: Adjacency, source: Node, target: Node, n: nat)
    ensures Deep(Level(adj, source, target, n), n)
  {
    if n != 0 {
      LevelDepth(adj, source, target, n - 1);
      ExpandDepth(adj, target, Level(adj, source, target, n - 1), n - 1);
    }
  }

  lemma LevelNext(adj: Adjacency, source: Node, target: Node, n: nat, m: nat)
    requires m == n + 1
    ensures Level(adj, source, target, m) == Expand(adj, target, Level(adj, source, target, n))
  {
  }

  // ----- what the levels contain

  function Init(t: Trail): Trail
    requires t.steps != []
  {
    Trail(t.start, t.steps[..|t.steps| - 1])
  }

  function Last(t: Trail): Entry
    requires t.steps != []
  {
    t.steps[|t.steps| - 1]
  }

  /** In how many ways a path follows adjacency entries, parallel duplicates counted. */
  function Weight(adj: Adjacency, t: Trail): nat
    decreases |t.steps|
  {
    if t.steps == [] then 1 else
      Weight(adj, Init(t)) * multiset(Entries(adj, End(Init(t))))[Last(t)]
  }

  /** Starts at the source, repeats no node, and meets the target at most at its end. */
  predicate Simple(source: Node, target: Node, t: Trail) {
    t.start == source && Distinct(Nodes(t)) && target !in Nodes(t)[..|t.steps|]
  }

  lemma ThenCount(t: Trail, e: Entry, u: Trail)
    requires u.steps != []
    ensures Then(t, e) == u <==> Init(u) == t && Last(u) == e
  {
    assert Init(Then(t, e)) == t && Last(Then(t, e)) == e;
    assert u == Then(Init(u), Last(u));
  }

  lemma {:induction false} ContinueCount(t: Trail, entries: seq<Entry>, u: Trail)
    requires u.steps != []
    ensures multiset(Continue(t, entries))[u] ==
            if Init(u) == t && End(u) !in Nodes(t) then multiset(entries)[Last(u)] else 0
  {
    if entries != [] {
      var e := entries[|entries| - 1];
      var front := entries[..|entries| - 1];
      ContinueCount(t, front, u);
      assert entries == front + [e];
      ThenCount(t, e, u);
    }
  }

  /** In how many ways the search takes the last step of a path. */
  function LastSteps(adj: Adjacency, target: Node, u: Trail): nat
    requires u.steps != []
  {
    if End(Init(u)) != target && End(u) !in Nodes(Init(u))
    then multiset(Entries(adj, End(Init(u))))[Last(u)] else 0
  }

  lemma {:induction false} ExpandCount(adj: Adjacency, target: Node, ts: seq<Trail>, u: Trail)
    requires u.steps != []
    ensures multiset(Expand(adj, target, ts))[u] == multiset(ts)[Init(u)] * LastSteps(adj, target, u)
  {
    if ts != [] {
      var t, front := ts[|ts| - 1], ts[..|ts| - 1];
      ExpandCount(adj, target, front, u);
      ExpandCountLast(adj, target, ts, u);
      OneMore(multiset(front)[Init(u)], LastSteps(adj, target, u));
    }
  }

  lemma ExpandCountLast(adj: Adjacency, target: Node, ts: seq<Trail>, u: Trail)
    requires u.steps != [] && ts != []
    ensures var t, front := ts[|ts| - 1], ts[..|ts| - 1];
      && multiset(ts)[Init(u)] == multiset(front)[Init(u)] + (if t == Init(u) then 1 else 0)
      && multiset(Expand(adj, target, ts))[u] ==
         multiset(Expand(adj, target, front))[u] + (if t == Init(u) then LastSteps(adj, target, u) else 0)
  {
    var t, front := ts[|ts| - 1], ts[..|ts| - 1];
    assert ts == front + [t];
    ContinueCount(t, Entries(adj, End(t)), u);
  }

  lemma OneMore(a: nat, m: nat)
    ensures (a + 1) * m == a * m + m
  {
  }

  lemma Product(a: nat, b: nat)
    ensures a * b > 0 <==> a > 0 && b > 0
    ensures a * b == 0 <==> a == 0 || b == 0
  {
  }

  lemma SimpleInit(source: Node, target: Node, t: Trail)
    requires t.steps != []
    ensures Simple(source, target, t) <==>
            Simple(source, target, Init(t)) && End(Init(t)) != target && End(t) !in Nodes(Init(t))
  {
    var n, p, q := |t.steps|, Nodes(t), Nodes(Init(t));
    assert p == q + [End(t)];
    assert p[..n] == q == q[..n - 1] + [End(Init(t))];
  }

  /** In how many ways a simple path follows adjacency entries. */
  function SimpleWeight(adj: Adjacency, source: Node, target: Node, t: Trail): nat {
    if Simple(source, target, t) then Weight(adj, t) else 0
  }

  lemma SimpleWeightNext(adj: Adjacency, source: Node, target: Node, t: Trail)
    requires t.steps != []
    ensures SimpleWeight(adj, source, target, t) == SimpleWeight(adj, source, target, Init(t)) * LastSteps(adj, target, t)
  {
    var a, b := SimpleWeight(adj, source, target, Init(t)), LastSteps(adj, target, t);
    SimpleInit(source, target, t);
    if Simple(source, target, t) {
      assert a == Weight(adj, Init(t)) && b == multiset(Entries(adj, End(Init(t))))[Last(t)];
    } else {
      assert a == 0 || b == 0;
      Product(a, b);
    }
  }

  /** Level `n` holds exactly the simple paths of length `n`, each as often as there
      are choices of adjacency entries along it. */
  lemma {:induction false} LevelExact(adj: Adjacency, source: Node, target: Node, n: nat, t: Trail)
    requires |t.steps| == n
    ensures multiset(Level(adj, source, target, n))[t] == SimpleWeight(adj, source, target, t)
  {
    if n == 0 {
      assert Nodes(t)[..0] == [] && (t.start == source ==> t == Trail(source, []));
    } else {
      LevelExact(adj, source, target, n - 1, Init(t));
      ExpandCount(adj, target, Level(adj, source, target, n - 1), t);
      SimpleWeightNext(adj, source, target, t);
    }
  }

  // ----- paths of the graph

  /** The nodes one step away, relations forgotten. */
  function GraphOf(adj: Adjacency): Graph<Node> {
    map n | n in adj :: set e | e in adj[n] :: e.node
  }

  /** A path through adjacency entries from the source to the target. */
  ghost predicate Connects(adj: Adjacency, source: Node, target: Node, t: Trail) {
    t.start == source && End(t) == target && Weight(adj, t) > 0
  }

  /** The last step of a connected path is an edge, and the rest is connected. */
  lemma LastIsEdge(adj: Adjacency, source: Node, target: Node, t: Trail)
    requires Connects(adj, source, target, t) && t.steps != []
    ensures Connects(adj, source, End(Init(t)), Init(t)) && target in Succ(GraphOf(adj), End(Init(t)))
  {
    var u := Init(t);
    Product(Weight(adj, u), multiset(Entries(adj, End(u)))[Last(t)]);
    assert Last(t) in Entries(adj, End(u));
  }

  lemma {:induction false} ConnectsIsWalk(adj: Adjacency, source: Node, target: Node, t: Trail)
    requires Connects(adj, source, target, t)
    ensures IsWalk(GraphOf(adj), Nodes(t), source, target)
    decreases |t.steps|
  {
    if t.steps != [] {
      var u, step := Init(t), [End(Init(t)), target];
      LastIsEdge(adj, source, target, t);
      ConnectsIsWalk(adj, source, End(u), u);
      assert IsWalk(GraphOf(adj), step, End(u), target);
      WalkJoin(GraphOf(adj), Nodes(u), step, source, End(u), target);
      assert Nodes(t) == Nodes(u) + step[1..];
    }
  }

  lemma {:induction false} WalkIsConnected(adj: Adjacency, p: seq<Node>, source: Node, target: Node) returns (t: Trail)
    requires IsWalk(GraphOf(adj), p, source, target)
    ensures Connects(adj, source, target, t) && |t.steps| == |p| - 1
    decreases |p|
  {
    if |p| == 1 {
      t := Trail(source, []);
    } else {
      var n := |p| - 1;
      var u := WalkIsConnected(adj, p[..n], source, p[n - 1]);
      assert p[n] in Succ(GraphOf(adj), p[n - 1]);
      var e :| e in adj[p[n - 1]] && e.node == p[n];
      t := Then(u, e);
      assert Init(t) == u && Last(t) == e;
      Product(Weight(adj, u), multiset(Entries(adj, End(u)))[e]);
    }
  }

  /** Cutting the loop out of a walk that meets a node twice. */
  lemma CutLoop(g: Graph<Node>, p: seq<Node>, u: Node, v: Node, i: nat, j: nat)
    requires IsWalk(g, p, u, v) && i < j < |p| && p[i] == p[j]
    ensures IsWalk(g, p[..i] + p[j..], u, v)
  {
    var q := p[..i] + p[j..];
    forall a, b | 0 <= a && b == a + 1 < |q| ensures q[b] in Succ(g, q[a]) {
      if b < i {
        assert q[a] == p[a] && q[b] == p[b];
      } else {
        assert q[b] == p[j + (b - i)];
        assert a == i - 1 ==> q[a] == p[a] && p[a + 1] in Succ(g, p[a]);
        assert a >= i ==> q[a] == p[j + (a - i)];
      }
    }
  }

  lemma NoLoop(g: Graph<Node>, p: seq<Node>, u: Node, v: Node, i: nat, j: nat)
    requires IsWalk(g, p, u, v) && IsDistance(g, u, v, |p| - 1) && i < j < |p|
    ensures p[i] != p[j]
  {
    if p[i] == p[j] {
      CutLoop(g, p, u, v, i, j);
      assert ReachIn(g, u, v, |p[..i] + p[j..]| - 1);
    }
  }

  /** A shortest path is simple. */
  lemma ShortestIsSimple(adj: Adjacency, source: Node, target: Node, d: nat, t: Trail)
    requires IsDistance(GraphOf(adj), source, target, d)
    requires Connects(adj, source, target, t) && |t.steps| == d
    ensures Simple(source, target, t)
  {
    var g, p := GraphOf(adj), Nodes(t);
    ConnectsIsWalk(adj, source, target, t);
    forall i, j | 0 <= i < j < |p| ensures p[i] != p[j] { NoLoop(g, p, source, target, i, j); }
    assert p[|p| - 1] == target;
  }

  lemma {:induction false} HitsCount(target: Node, ts: seq<Trail>, t: Trail)
    ensures multiset(Hits(target, ts))[t] == if End(t) == target then multiset(ts)[t] else 0
  {
    if ts != [] {
      HitsCount(target, ts[..|ts| - 1], t);
      assert ts == ts[..|ts| - 1] + [ts[|ts| - 1]];
    }
  }

  lemma HitIsReachable(adj: Adjacency, source: Node, target: Node, n: nat)
    requires Hits(target, Level(adj, source, target, n)) != []
    ensures ReachIn(GraphOf(adj), source, target, n)
  {
    var level := Level(adj, source, target, n);
    var t := Hits(target, level)[0];
    assert multiset(Hits(target, level))[t] > 0;
    HitsCount(target, level, t);
    LevelDepth(adj, source, target, n);
    assert t in level;
    LevelExact(adj, source, target, n, t);
    ConnectsIsWalk(adj, source, target, t);
  }

  lemma DistanceIsHit(adj: Adjacency, source: Node, target: Node, n: nat)
    requires IsDistance(GraphOf(adj), source, target, n)
    ensures Hits(target, Level(adj, source, target, n)) != []
  {
    var p :| IsWalk(GraphOf(adj), p, source, target) && |p| == n + 1;
    var t := WalkIsConnected(adj, p, source, target);
    ShortestIsSimple(adj, source, target, n, t);
    LevelExact(adj, source, target, n, t);
    HitsCount(target, Level(adj, source, target, n), t);
  }

  /** No level above `n` holds a path to the target. */
  ghost predicate NoHitsBelow(adj: Adjacency, source: Node, target: Node, n: nat) {
    n != 0 ==> NoHitsBelow(adj, source, target, n - 1) && Hits(target, Level(adj, source, target, n - 1)) == []
  }

  lemma NoHitsNext(adj: Adjacency, source: Node, target: Node, n: nat, m: nat)
    requires m == n + 1 && NoHitsBelow(adj, source, target, n) && Hits(target, Level(adj, source, target, n)) == []
    ensures NoHitsBelow(adj, source, target, m)
  {
  }

  /** After an empty level there are no more hits. */
  lemma NoHitsLater(adj: Adjacency, source: Node, target: Node, n: nat, last: nat)
    requires n <= last && NoHitsBelow(adj, source, target, n) && Level(adj, source, target, n) == []
    ensures NoHitsBelow(adj, source, target, last)
  {
    var i := n;
    while i != last
      invariant n <= i <= last
      invariant NoHitsBelow(adj, source, target, i) && Level(adj, source, target, i) == []
    {
      var next := i + 1;
      NoHitsNext(adj, source, target, i, next);
      LevelNext(adj, source, target, i, next);
      i := next;
    }
  }

  lemma {:induction false} NotReachableBelow(adj: Adjacency, source: Node, target: Node, n: nat)
    requires NoHitsBelow(adj, source, target, n)
    ensures forall k: nat :: k < n ==> !ReachIn(GraphOf(adj), source, target, k)
  {
    if n != 0 {
      NotReachableBelow(adj, source, target, n - 1);
      if ReachIn(GraphOf(adj), source, target, n - 1) { DistanceIsHit(adj, source, target, n - 1); }
    }
  }

  /** The target first appears on the level of its distance. */
  lemma FirstLevel(adj: Adjacency, source: Node, target: Node, n: nat)
    requires NoHitsBelow(adj, source, target, n)
    ensures Hits(target, Level(adj, source, target, n)) != [] <==> IsDistance(GraphOf(adj), source, target, n)
  {
    NotReachableBelow(adj, source, target, n);
    if Hits(target, Level(adj, source, target, n)) != [] { HitIsReachable(adj, source, target, n); }
    if IsDistance(GraphOf(adj), source, target, n) { DistanceIsHit(adj, source, target, n); }
  }

  /** At the distance of the target, the level's hits are exactly the shortest paths,
      each once per choice of adjacency entries. */
  lemma HitsAreShortest(adj: Adjacency, source: Node, target: Node, d: nat, t: Trail)
    requires IsDistance(GraphOf(adj), source, target, d)
    ensures multiset(Hits(target, Level(adj, source, target, d)))[t] ==
            if Connects(adj, source, target, t) && |t.steps| == d then Weight(adj, t) else 0
  {
    var level := Level(adj, source, target, d);
    HitsCount(target, level, t);
    LevelDepth(adj, source, target, d);
    if |t.steps| == d {
      LevelExact(adj, source, target, d, t);
      if Connects(adj, source, target, t) { ShortestIsSimple(adj, source, target, d, t); }
    } else {
      assert t !in level;
    }
  }
}
