/** Directed graphs as successor sets, with walks, reachability and distance. */
module Digraph {

  type Graph<N> = map<N, set<N>>

  function Succ<N>(g: Graph<N>, u: N): set<N> {
    if u in g then g[u] else {}
  }

  /** Every edge end is a node. */
  ghost predicate Closed<N>(g: Graph<N>) {
    forall u :: u in g ==> g[u] <= g.Keys
  }

  ghost predicate IsWalk<N>(g: Graph<N>, p: seq<N>, u: N, v: N) {
    |p| >= 1 && p[0] == u && p[|p| - 1] == v &&
    forall i, j :: 0 <= i && j == i + 1 < |p| ==> p[j] in Succ(g, p[i])
  }

  ghost predicate Reach<N(!new)>(g: Graph<N>, u: N, v: N) {
    exists p :: IsWalk(g, p, u, v)
  }

  /** Some walk from `u` to `v` has exactly `n` edges. */
  ghost predicate ReachIn<N(!new)>(g: Graph<N>, u: N, v: N, n: nat) {
    exists p :: IsWalk(g, p, u, v) && |p| == n + 1
  }

  /** `n` is the length of a shortest walk from `u` to `v`. */
  ghost predicate IsDistance<N(!new)>(g: Graph<N>, u: N, v: N, n: nat) {
    ReachIn(g, u, v, n) && forall m: nat :: ReachIn(g, u, v, m) ==> n <= m
  }

  lemma ReachSelf<N(!new)>(g: Graph<N>, u: N)
    ensures Reach(g, u, u) && ReachIn(g, u, u, 0)
  {
    assert IsWalk(g, [u], u, u);
  }

  lemma WalkJoin<N>(g: Graph<N>, p: seq<N>, q: seq<N>, u: N, v: N, w: N)
    requires IsWalk(g, p, u, v) && IsWalk(g, q, v, w)
    ensures IsWalk(g, p + q[1..], u, w)
  {
    var r := p + q[1..];
    forall i, j | 0 <= i && j == i + 1 < |r| ensures r[j] in Succ(g, r[i]) {
      if i >= |p| - 1 {
        assert r[i] == q[i - |p| + 1] && r[j] == q[j - |p| + 1];
      } else {
        assert r[i] == p[i] && r[j] == p[j];
      }
    }
  }

  lemma ReachTransitive<N(!new)>(g: Graph<N>, u: N, v: N, w: N)
    requires Reach(g, u, v) && Reach(g, v, w)
    ensures Reach(g, u, w)
  {
    var p :| IsWalk(g, p, u, v);
    var q :| IsWalk(g, q, v, w);
    WalkJoin(g, p, q, u, v, w);
  }

  lemma ReachEdge<N(!new)>(g: Graph<N>, u: N, v: N)
    requires v in Succ(g, u)
    ensures Reach(g, u, v)
  {
    assert IsWalk(g, [u, v], u, v);
  }

  /** Peeling the last edge off a walk, and putting one on. */
  lemma ReachInLast<N(!new)>(g: Graph<N>, u: N, v: N, n: nat)
    ensures ReachIn(g, u, v, n + 1) <==> exists w :: ReachIn(g, u, w, n) && v in Succ(g, w)
  {
    if ReachIn(g, u, v, n + 1) {
      var p :| IsWalk(g, p, u, v) && |p| == n + 2;
      assert IsWalk(g, p[..n + 1], u, p[n]);
    }
    if w :| ReachIn(g, u, w, n) && v in Succ(g, w) {
      var p :| IsWalk(g, p, u, w) && |p| == n + 1;
      WalkJoin(g, p, [w, v], u, w, v);
      assert |p + [w, v][1..]| == n + 2;
    }
  }

  lemma ReachByLength<N(!new)>(g: Graph<N>, u: N, v: N)
    ensures Reach(g, u, v) <==> exists n: nat :: ReachIn(g, u, v, n)
  {
    if Reach(g, u, v) {
      var p :| IsWalk(g, p, u, v);
      assert ReachIn(g, u, v, |p| - 1);
    }
  }

  /** A set that contains `u` and is closed under successors holds all that `u` reaches. */
  lemma {:induction false} ReachStaysInside<N>(g: Graph<N>, s: set<N>, p: seq<N>, u: N, v: N)
    requires u in s && IsWalk(g, p, u, v)
    requires forall x :: x in s ==> Succ(g, x) <= s
    ensures v in s
    decreases |p|
  {
    if |p| > 1 {
      assert p[1] in Succ(g, p[0]);
      assert IsWalk(g, p[1..], p[1], v);
      ReachStaysInside(g, s, p[1..], p[1], v);
    }
  }
}
