/** Which shortest paths are listed, and in what order (application/architecture.py). */
module PathLaws {
  import opened Basics
  import opened Digraph
  import opened TrailSpec
  import opened PathSearch

  /** At each step, the place of the entry that was taken in the list of its node. */
  type Choices = seq<nat>

  /** Taking the entries at these places gives the trail. */
  ghost predicate Spells(adj: Adjacency, t: Trail, p: Choices)
    decreases |p|
  {
    && |p| == |t.steps|
    && (p != [] ==>
          var n := |p| - 1;
          && Spells(adj, Init(t), p[..n]) && p[n] < |Entries(adj, End(Init(t)))| && Entries(adj, End(Init(t)))[p[n]] == Last(t))
  }

  predicate SoonerAt(p: Choices, q: Choices, k: int) { 0 <= k < |p| && k < |q| && p[..k] == q[..k] && p[k] < q[k] }

  ghost predicate Sooner(p: Choices, q: Choices) { exists k :: SoonerAt(p, q, k) }

  ghost predicate InOrder(ps: seq<Choices>) { forall i, j :: 0 <= i < j < |ps| ==> Sooner(ps[i], ps[j]) }

  ghost predicate SpellAll(adj: Adjacency, ts: seq<Trail>, ps: seq<Choices>) {
    |ts| == |ps| && forall i :: 0 <= i < |ts| ==> Spells(adj, ts[i], ps[i])
  }

  lemma {:induction false} OneTrail(adj: Adjacency, t: Trail, u: Trail, p: Choices)
    requires t.start == u.start && Spells(adj, t, p) && Spells(adj, u, p)
    ensures t == u
    decreases |p|
  {
    if p != [] {
      OneTrail(adj, Init(t), Init(u), p[..|p| - 1]);
      assert t == Then(Init(t), Last(t)) && u == Then(Init(u), Last(u));
    }
  }

  lemma SpellsThen(adj: Adjacency, t: Trail, p: Choices, k: nat)
    requires Spells(adj, t, p) && k < |Entries(adj, End(t))|
    ensures Spells(adj, Then(t, Entries(adj, End(t))[k]), p + [k])
  {
    var u := Then(t, Entries(adj, End(t))[k]);
    assert Init(u) == t && (p + [k])[..|p|] == p;
  }

  lemma AppendInOrder(ps: seq<Choices>, qs: seq<Choices>)
    requires InOrder(ps) && InOrder(qs) && forall p, q :: p in ps && q in qs ==> Sooner(p, q)
    ensures InOrder(ps + qs)
  {
  }

  lemma AppendSpelled(adj: Adjacency, ts: seq<Trail>, ps: seq<Choices>, us: seq<Trail>, qs: seq<Choices>)
    requires SpellAll(adj, ts, ps) && SpellAll(adj, us, qs)
    ensures SpellAll(adj, ts + us, ps + qs)
  {
  }

  // ----- the levels

  /** Going on by entry `k`, one of the first `m`, to a node that the trail has not met. */
  predicate IsNext(adj: Adjacency, t: Trail, p: Choices, m: nat, k: nat, q: Choices) {
    k < m <= |Entries(adj, End(t))| && Entries(adj, End(t))[k].node !in Nodes(t) && q == p + [k]
  }

  ghost predicate HasNext(adj: Adjacency, t: Trail, p: Choices, m: nat, q: Choices) { exists k: nat :: IsNext(adj, t, p, m, k, q) }

  lemma NextMore(adj: Adjacency, t: Trail, p: Choices, m: nat, n: nat, q: Choices)
    requires m == n + 1 <= |Entries(adj, End(t))|
    ensures HasNext(adj, t, p, m, q) <==> HasNext(adj, t, p, n, q) || IsNext(adj, t, p, m, n, q)
  {
    if k: nat :| IsNext(adj, t, p, m, k, q) && k < n { assert IsNext(adj, t, p, n, k, q); }
    if k: nat :| IsNext(adj, t, p, n, k, q) { assert IsNext(adj, t, p, m, k, q); }
  }

  /** The continuations of one trail by its first `m` entries. */
  lemma {:induction false} ContinueSpelled(adj: Adjacency, t: Trail, p: Choices, m: nat) returns (qs: seq<Choices>)
    requires Spells(adj, t, p) && m <= |Entries(adj, End(t))|
    ensures SpellAll(adj, Continue(t, Entries(adj, End(t))[..m]), qs) && InOrder(qs)
    ensures forall q :: q in qs <==> HasNext(adj, t, p, m, q)
    decreases m
  {
    var entries := Entries(adj, End(t));
    qs := [];
    if m > 0 {
      var n := m - 1;
      var before := ContinueSpelled(adj, t, p, n);
      assert entries[..m][..n] == entries[..n];
      forall q ensures HasNext(adj, t, p, m, q) <==> HasNext(adj, t, p, n, q) || IsNext(adj, t, p, m, n, q) { NextMore(adj, t, p, m, n, q); }
      if entries[n].node in Nodes(t) {
        qs := before;
      } else {
        qs := before + [p + [n]];
        SpellsThen(adj, t, p, n);
        AppendSpelled(adj, Continue(t, entries[..n]), before, [Then(t, entries[n])], [p + [n]]);
        forall q | q in before ensures Sooner(q, p + [n]) {
          var k: nat :| IsNext(adj, t, p, n, k, q);
          assert SoonerAt(q, p + [n], |p|);
        }
        AppendInOrder(before, [p + [n]]);
      }
    }
  }

  ghost predicate GoesOn(adj: Adjacency, target: Node, t: Trail, p: Choices, q: Choices) {
    End(t) != target && HasNext(adj, t, p, |Entries(adj, End(t))|, q)
  }

  ghost predicate GoesOnAt(adj: Adjacency, target: Node, ts: seq<Trail>, ps: seq<Choices>, i: int, q: Choices) {
    0 <= i < |ts| == |ps| && GoesOn(adj, target, ts[i], ps[i], q)
  }

  ghost predicate Comes(adj: Adjacency, target: Node, ts: seq<Trail>, ps: seq<Choices>, q: Choices) {
    exists i :: GoesOnAt(adj, target, ts, ps, i, q)
  }

  lemma ComesMore(adj: Adjacency, target: Node, ts: seq<Trail>, ps: seq<Choices>, t: Trail, p: Choices, q: Choices)
    requires |ps| == |ts|
    ensures Comes(adj, target, ts + [t], ps + [p], q) <==> Comes(adj, target, ts, ps, q) || GoesOn(adj, target, t, p, q)
  {
    if i :| GoesOnAt(adj, target, ts, ps, i, q) { assert GoesOnAt(adj, target, ts + [t], ps + [p], i, q); }
    if GoesOn(adj, target, t, p, q) { assert GoesOnAt(adj, target, ts + [t], ps + [p], |ts|, q); }
    if i :| GoesOnAt(adj, target, ts + [t], ps + [p], i, q) && i < |ts| { assert GoesOnAt(adj, target, ts, ps, i, q); }
  }

  lemma SoonerGoesOn(a: Choices, b: Choices, p: Choices, q: Choices)
    requires Sooner(p, q) && p < a && q < b
    ensures Sooner(a, b)
  {
    var k :| SoonerAt(p, q, k);
    assert a[..k] == p[..k] && b[..k] == q[..k];
    assert SoonerAt(a, b, k);
  }

  lemma GoesBeyond(adj: Adjacency, target: Node, t: Trail, p: Choices, q: Choices)
    requires GoesOn(adj, target, t, p, q)
    ensures p < q && |q| == |p| + 1
  {
  }

  /** What comes from the trails before another stands before what goes on from that one. */
  lemma BranchesInOrder(adj: Adjacency, target: Node, ts: seq<Trail>, ps: seq<Choices>, t: Trail, p: Choices, a: Choices, b: Choices)
    requires |ps| == |ts| && InOrder(ps + [p]) && Comes(adj, target, ts, ps, a) && GoesOn(adj, target, t, p, b)
    ensures Sooner(a, b)
  {
    var i :| GoesOnAt(adj, target, ts, ps, i, a);
    assert (ps + [p])[i] == ps[i] && (ps + [p])[|ps|] == p;
    GoesBeyond(adj, target, ts[i], ps[i], a);
    GoesBeyond(adj, target, t, p, b);
    SoonerGoesOn(a, b, ps[i], p);
  }

  lemma {:induction false} ExpandSpelled(adj: Adjacency, target: Node, ts: seq<Trail>, ps: seq<Choices>) returns (qs: seq<Choices>)
    requires SpellAll(adj, ts, ps) && InOrder(ps)
    ensures SpellAll(adj, Expand(adj, target, ts), qs) && InOrder(qs)
    ensures forall q :: q in qs <==> Comes(adj, target, ts, ps, q)
    decreases |ts|
  {
    qs := [];
    if ts != [] {
      var m := |ts| - 1;
      var us, rs, t, p := ts[..m], ps[..m], ts[m], ps[m];
      assert ts == us + [t] && ps == rs + [p];
      var before := ExpandSpelled(adj, target, us, rs);
      var more := BranchSpelled(adj, target, t, p);
      qs := before + more;
      forall a, b | a in before && b in more ensures Sooner(a, b) { BranchesInOrder(adj, target, us, rs, t, p, a, b); }
      AppendInOrder(before, more);
      AppendSpelled(adj, Expand(adj, target, us), before, Branches(adj, target, t), more);
      forall q ensures Comes(adj, target, ts, ps, q) <==> Comes(adj, target, us, rs, q) || GoesOn(adj, target, t, p, q) {
        ComesMore(adj, target, us, rs, t, p, q);
      }
    }
  }

  function Branches(adj: Adjacency, target: Node, t: Trail): seq<Trail> { if End(t) == target then [] else Continue(t, Entries(adj, End(t))) }

  lemma BranchSpelled(adj: Adjacency, target: Node, t: Trail, p: Choices) returns (qs: seq<Choices>)
    requires Spells(adj, t, p)
    ensures SpellAll(adj, Branches(adj, target, t), qs) && InOrder(qs) && forall q :: q in qs <==> GoesOn(adj, target, t, p, q)
  {
    qs := [];
    if End(t) != target {
      var entries := Entries(adj, End(t));
      qs := ContinueSpelled(adj, t, p, |entries|);
      assert entries[..|entries|] == entries;
    }
  }

  /** The choices that spell trails of a level: those of all simple trails, in their order. */
  ghost predicate AreChoices(adj: Adjacency, source: Node, target: Node, n: nat, ps: seq<Choices>) {
    && SpellAll(adj, Level(adj, source, target, n), ps) && InOrder(ps)
    && forall t, p :: Spells(adj, t, p) && |p| == n && Simple(source, target, t) ==> p in ps
  }

  lemma LevelStarts(adj: Adjacency, source: Node, target: Node, n: nat)
    ensures forall t :: t in Level(adj, source, target, n) ==> t.start == source
    decreases n
  {
    LevelDepth(adj, source, target, n);
    forall t | t in Level(adj, source, target, n) ensures t.start == source {
      LevelExact(adj, source, target, n, t);
      assert multiset(Level(adj, source, target, n))[t] > 0;
    }
  }

  lemma {:induction false} LevelSpelled(adj: Adjacency, source: Node, target: Node, n: nat) returns (ps: seq<Choices>)
    ensures AreChoices(adj, source, target, n, ps)
    decreases n
  {
    if n == 0 {
      ps := [[]];
    } else {
      var before := LevelSpelled(adj, source, target, n - 1);
      ps := ExpandSpelled(adj, target, Level(adj, source, target, n - 1), before);
      forall t, p | Spells(adj, t, p) && |p| == n && Simple(source, target, t) ensures p in ps {
        SimpleSpelled(adj, source, target, n - 1, before, t, p);
      }
    }
  }

  lemma SimpleSpelled(adj: Adjacency, source: Node, target: Node, n: nat, before: seq<Choices>, t: Trail, p: Choices)
    requires AreChoices(adj, source, target, n, before) && Spells(adj, t, p) && |p| == n + 1 && Simple(source, target, t)
    ensures Comes(adj, target, Level(adj, source, target, n), before, p)
  {
    var ts, u, front := Level(adj, source, target, n), Init(t), p[..n];
    SimpleInit(source, target, t);
    assert front in before;
    var i :| 0 <= i < |before| && before[i] == front;
    LevelStarts(adj, source, target, n);
    assert ts[i] in ts;
    OneTrail(adj, ts[i], u, front);
    LastGoesOn(adj, target, t, p);
    assert GoesOnAt(adj, target, ts, before, i, p);
  }

  lemma LastGoesOn(adj: Adjacency, target: Node, t: Trail, p: Choices)
    requires p != [] && Spells(adj, t, p) && End(Init(t)) != target && End(t) !in Nodes(Init(t))
    ensures GoesOn(adj, target, Init(t), p[..|p| - 1], p)
  {
    var n := |p| - 1;
    assert p == p[..n] + [p[n]];
    assert IsNext(adj, Init(t), p[..n], |Entries(adj, End(Init(t)))|, p[n], p);
  }

  // ----- the answer

  lemma {:induction false} HitsSpelled(adj: Adjacency, target: Node, ts: seq<Trail>, ps: seq<Choices>) returns (hs: seq<Choices>)
    requires SpellAll(adj, ts, ps) && InOrder(ps)
    ensures SpellAll(adj, Hits(target, ts), hs) && InOrder(hs) && forall h :: h in hs ==> h in ps
    ensures forall i :: 0 <= i < |ts| && End(ts[i]) == target ==> ps[i] in hs
    decreases |ts|
  {
    hs := [];
    if ts != [] {
      var m := |ts| - 1;
      assert forall i :: 0 <= i < m ==> ps[..m][i] == ps[i];
      var before := HitsSpelled(adj, target, ts[..m], ps[..m]);
      hs := before;
      if End(ts[m]) == target {
        hs := before + [ps[m]];
        AppendSpelled(adj, Hits(target, ts[..m]), before, [ts[m]], [ps[m]]);
        forall h | h in before ensures Sooner(h, ps[m]) {
          var i :| 0 <= i < m && ps[..m][i] == h;
          assert ps[i] == h;
        }
        AppendInOrder(before, [ps[m]]);
      }
      forall i | 0 <= i < |ts| && End(ts[i]) == target ensures ps[i] in hs { if i < m { assert ts[..m][i] == ts[i]; } }
    }
  }

  /** Following the entries at these places leads from the source to the target. */
  ghost predicate LeadsThere(q: Query, p: Choices) { exists t: Trail :: t.start == q.source && End(t) == q.target && Spells(q.adj, t, p) }

  lemma {:induction false} SpelledConnects(adj: Adjacency, t: Trail, p: Choices)
    requires Spells(adj, t, p)
    ensures Weight(adj, t) > 0
    decreases |p|
  {
    if p != [] {
      var u := Init(t);
      SpelledConnects(adj, u, p[..|p| - 1]);
      assert Last(t) in Entries(adj, End(u));
      Product(Weight(adj, u), multiset(Entries(adj, End(u)))[Last(t)]);
    }
  }

  /** All ways of least length in the order of their choices. */
  ghost predicate AreShortest(q: Query, d: nat, ps: seq<Choices>) {
    InOrder(ps) && forall p :: p in ps <==> |p| == d && LeadsThere(q, p)
  }

  lemma HitsAreAll(q: Query, d: nat) returns (hs: seq<Choices>)
    requires IsDistance(GraphOf(q.adj), q.source, q.target, d)
    ensures AreShortest(q, d, hs) && SpellAll(q.adj, Hits(q.target, Level(q.adj, q.source, q.target, d)), hs)
  {
    var ts := Level(q.adj, q.source, q.target, d);
    var ps := LevelSpelled(q.adj, q.source, q.target, d);
    hs := HitsSpelled(q.adj, q.target, ts, ps);
    var hits := Hits(q.target, ts);
    LevelStarts(q.adj, q.source, q.target, d);
    LevelDepth(q.adj, q.source, q.target, d);
    forall p | p in hs ensures |p| == d && LeadsThere(q, p) {
      var i :| 0 <= i < |hs| && hs[i] == p;
      HitsCount(q.target, ts, hits[i]);
      assert multiset(hits)[hits[i]] > 0 && hits[i] in ts;
      assert Spells(q.adj, hits[i], p);
    }
    forall p: Choices | |p| == d && LeadsThere(q, p) ensures p in hs {
      var t: Trail :| t.start == q.source && End(t) == q.target && Spells(q.adj, t, p);
      SpelledConnects(q.adj, t, p);
      ShortestIsSimple(q.adj, q.source, q.target, d, t);
      var i :| 0 <= i < |ps| && ps[i] == p;
      assert ts[i] in ts;
      OneTrail(q.adj, ts[i], t, p);
    }
  }

  ghost predicate IsListed(q: Query, paths: seq<Trail>, truncated: bool, ps: seq<Choices>) {
    var limit := if q.limit < 0 then 0 else q.limit;
    && |paths| == (if |ps| <= limit then |ps| else limit) && (truncated <==> |ps| > limit)
    && forall i :: 0 <= i < |paths| ==> paths[i].start == q.source && Spells(q.adj, paths[i], ps[i])
  }

  /** For a target within the bound the search lists, from the first on and up to the limit, the
      shortest paths in the order of the entries they take. */
  lemma ListsInOrder(q: Query, paths: seq<Trail>, truncated: bool, d: nat)
    requires Answers(q, paths, truncated) && d <= AtLeastZero(q.maxDepth) && IsDistance(GraphOf(q.adj), q.source, q.target, d)
    ensures exists ps :: AreShortest(q, d, ps) && IsListed(q, paths, truncated, ps)
  {
    var level := Level(q.adj, q.source, q.target, d);
    var hs := HitsAreAll(q, d);
    var hits := Hits(q.target, level);
    assert Collected(q.target, level, q.limit, paths, truncated);
    LevelStarts(q.adj, q.source, q.target, d);
    forall i | 0 <= i < |paths| ensures paths[i].start == q.source && Spells(q.adj, paths[i], hs[i]) {
      assert paths[i] == hits[i];
      HitsCount(q.target, level, hits[i]);
      assert multiset(hits)[hits[i]] > 0 && hits[i] in level;
    }
  }
}
