/** The tree of flows reached from one flow, built with one visited set that all levels
    share (application/code_flows.py). */
module FlowTree {
  import opened Wrappers
  import opened Digraph
  import opened FlowLinks
  import opened Basics

  datatype Trigger = Trigger(kind: string, name: string)
  datatype Tree = Tree(id: string, moduleName: string, methodName: string, root: bool, trigger: Option<Trigger>, children: seq<Tree>)

  function NodeFor(f: Flow, rootIds: set<string>, children: seq<Tree>): Tree {
    Tree(f.id, f.moduleName, f.methodName, f.id in rootIds,
         if f.steps == [] then None else Some(Trigger(f.steps[0].kind, f.steps[0].name)), children)
  }

  // ----- the walk as a function of the visited ids

  ghost function Ids(w: Snapshot): set<string> { set f | f in w.flows :: f.id }

  ghost function Unseen(w: Snapshot, seen: set<string>): nat { |Ids(w) - seen| }

  lemma UnseenFewer(w: Snapshot, seen: set<string>, more: set<string>)
    requires seen <= more
    ensures Unseen(w, more) <= Unseen(w, seen)
    ensures forall f :: f in w.flows && f.id !in seen && f.id in more ==> Unseen(w, more) < Unseen(w, seen)
  {
    SubsetSize(Ids(w) - more, Ids(w) - seen);
    forall f | f in w.flows && f.id !in seen && f.id in more ensures Unseen(w, more) < Unseen(w, seen) {
      assert f.id in Ids(w);
      SubsetSize(Ids(w) - more, Ids(w) - seen - {f.id});
    }
  }

  ghost predicate Known(w: Snapshot, links: seq<Flow>) { forall c :: c in links ==> c in w.flows }

  /** The tree of a flow and the ids visited once it is built. */
  ghost function Visit(w: Snapshot, f: Flow, rootIds: set<string>, seen: set<string>): (r: (Tree, set<string>))
    requires w.Valid() && f in w.flows && f.id !in seen
    ensures seen + {f.id} <= r.1
    decreases Unseen(w, seen), 0
  {
    UnseenFewer(w, seen, seen + {f.id});
    var below := Forest(w, Children(w, f), rootIds, seen + {f.id});
    (NodeFor(f, rootIds, below.0), below.1)
  }

  /** The trees of those links that are not visited when their turn comes. */
  ghost function Forest(w: Snapshot, links: seq<Flow>, rootIds: set<string>, seen: set<string>): (r: (seq<Tree>, set<string>))
    requires w.Valid() && Known(w, links)
    ensures seen <= r.1
    decreases Unseen(w, seen), |links|
  {
    if links == [] then ([], seen) else
      var before := Forest(w, links[..|links| - 1], rootIds, seen);
      var last := links[|links| - 1];
      if last.id in before.1 then before else
        UnseenFewer(w, seen, before.1);
        var tree := Visit(w, last, rootIds, before.1);
        (before.0 + [tree.0], tree.1)
  }

  lemma ForestNext(w: Snapshot, links: seq<Flow>, i: nat, rootIds: set<string>, seen: set<string>)
    requires w.Valid() && Known(w, links) && i < |links|
    ensures Known(w, links[..i]) && Known(w, links[..i + 1]) && links[i] in w.flows
    ensures var before := Forest(w, links[..i], rootIds, seen);
      Forest(w, links[..i + 1], rootIds, seen) ==
      if links[i].id in before.1 then before else
        var tree := Visit(w, links[i], rootIds, before.1); (before.0 + [tree.0], tree.1)
  {
    assert links[..i + 1][..i] == links[..i];
  }

  /** The set that the recursive calls share. */
  class VisitedIds {
    var ids: set<string>

    constructor ()
      ensures ids == {}
    {
      ids := {};
    }
  }

  method BuildTree(w: Snapshot, f: Flow, rootIds: set<string>, index: map<Resource, seq<Flow>>, visited: VisitedIds) returns (t: Tree)
    requires w.Valid() && f in w.flows && Indexes(index, w.flows, w.endpoints)
    requires f.id !in visited.ids
    modifies visited
    ensures (t, visited.ids) == Visit(w, f, rootIds, old(visited.ids))
    decreases Unseen(w, visited.ids)
  {
    UnseenFewer(w, visited.ids, visited.ids + {f.id});
    visited.ids := visited.ids + {f.id};
    ghost var seen := visited.ids;
    var links := FlowChildren(w, f, index);
    var children: seq<Tree> := [];
    for i := 0 to |links|
      invariant Known(w, links[..i])
      invariant (children, visited.ids) == Forest(w, links[..i], rootIds, seen)
    {
      ForestNext(w, links, i, rootIds, seen);
      if links[i].id in visited.ids { continue; }
      UnseenFewer(w, seen, visited.ids);
      var child := BuildTree(w, links[i], rootIds, index, visited);
      children := children + [child];
    }
    assert links[..|links|] == links;
    t := NodeFor(f, rootIds, children);
  }

  // ----- what the tree lists

  function Preorder(t: Tree): seq<string>
    decreases t
  {
    [t.id] + PreorderAll(t.children)
  }

  function PreorderAll(ts: seq<Tree>): seq<string>
    decreases ts
  {
    if ts == [] then [] else PreorderAll(ts[..|ts| - 1]) + Preorder(ts[|ts| - 1])
  }

  /** `p` lists the elements of `s`, each once. */
  ghost predicate ListsOnce(p: seq<string>, s: set<string>) {
    && (forall x :: x in p <==> x in s)
    && forall i, j :: 0 <= i < j < |p| ==> p[i] != p[j]
  }

  lemma ListsBoth(p: seq<string>, q: seq<string>, seen: set<string>, mid: set<string>, after: set<string>)
    requires seen <= mid <= after && ListsOnce(p, mid - seen) && ListsOnce(q, after - mid)
    ensures ListsOnce(p + q, after - seen)
  {
    var r := p + q;
    forall i, j | 0 <= i < j < |r| ensures r[i] != r[j] {
      if i < |p| <= j { assert r[i] in p && r[j] in q; }
    }
  }

  /** The tree lists exactly the ids that its construction visited. */
  lemma {:induction false} TreeLists(w: Snapshot, f: Flow, rootIds: set<string>, seen: set<string>)
    requires w.Valid() && f in w.flows && f.id !in seen
    ensures var r := Visit(w, f, rootIds, seen); ListsOnce(Preorder(r.0), r.1 - seen)
    decreases Unseen(w, seen), 0
  {
    UnseenFewer(w, seen, seen + {f.id});
    var r := Visit(w, f, rootIds, seen);
    ForestLists(w, Children(w, f), rootIds, seen + {f.id});
    assert seen + {f.id} - seen == {f.id};
    ListsBoth([f.id], PreorderAll(r.0.children), seen, seen + {f.id}, r.1);
  }

  lemma {:induction false} ForestLists(w: Snapshot, links: seq<Flow>, rootIds: set<string>, seen: set<string>)
    requires w.Valid() && Known(w, links)
    ensures var r := Forest(w, links, rootIds, seen); ListsOnce(PreorderAll(r.0), r.1 - seen)
    decreases Unseen(w, seen), |links|
  {
    if links != [] {
      var front, last := links[..|links| - 1], links[|links| - 1];
      var before := Forest(w, front, rootIds, seen);
      ForestLists(w, front, rootIds, seen);
      if last.id !in before.1 {
        UnseenFewer(w, seen, before.1);
        TreeLists(w, last, rootIds, before.1);
        var tree := Visit(w, last, rootIds, before.1);
        ListsBoth(PreorderAll(before.0), Preorder(tree.0), seen, before.1, tree.1);
        assert (before.0 + [tree.0])[..|before.0|] == before.0;
      }
    }
  }

  // ----- every flow reached is visited

  /** The links of the flows visited since `seen` have been visited too. */
  ghost predicate ClosedSince(w: Snapshot, seen: set<string>, after: set<string>) {
    forall g, c :: g in w.flows && g.id in after && g.id !in seen && c in w.Linked(g) ==> c.id in after
  }

  lemma {:induction false} TreeCloses(w: Snapshot, f: Flow, rootIds: set<string>, seen: set<string>)
    requires w.Valid() && f in w.flows && f.id !in seen
    ensures ClosedSince(w, seen, Visit(w, f, rootIds, seen).1)
    decreases Unseen(w, seen), 0
  {
    UnseenFewer(w, seen, seen + {f.id});
    ForestCloses(w, Children(w, f), rootIds, seen + {f.id});
  }

  lemma {:induction false} ForestCloses(w: Snapshot, links: seq<Flow>, rootIds: set<string>, seen: set<string>)
    requires w.Valid() && Known(w, links)
    ensures var after := Forest(w, links, rootIds, seen).1;
      ClosedSince(w, seen, after) && forall c :: c in links ==> c.id in after
    decreases Unseen(w, seen), |links|
  {
    if links != [] {
      var front, last := links[..|links| - 1], links[|links| - 1];
      var before := Forest(w, front, rootIds, seen).1;
      assert links == front + [last];
      ForestCloses(w, front, rootIds, seen);
      if last.id !in before {
        UnseenFewer(w, seen, before);
        TreeCloses(w, last, rootIds, before);
      }
    }
  }

  // ----- only flows reached are visited, each below a flow that links to it

  /** `t` is the tree of `f`, and the trees below it belong to flows that it links to,
      in the order of their keys. */
  ghost predicate Shows(w: Snapshot, rootIds: set<string>, t: Tree, f: Flow)
    requires w.Valid()
    decreases t, 0
  {
    t == NodeFor(f, rootIds, t.children) && Hangs(w, rootIds, t.children, Children(w, f))
  }

  /** Each tree shows one of the links, and they follow the order of the links. */
  ghost predicate Hangs(w: Snapshot, rootIds: set<string>, ts: seq<Tree>, links: seq<Flow>)
    requires w.Valid()
    decreases ts, |links|
  {
    if links == [] then ts == [] else
      var front, last := links[..|links| - 1], links[|links| - 1];
      || Hangs(w, rootIds, ts, front)
      || (ts != [] && Shows(w, rootIds, ts[|ts| - 1], last) && Hangs(w, rootIds, ts[..|ts| - 1], front))
  }

  lemma {:induction false} TreeShows(w: Snapshot, f: Flow, rootIds: set<string>, seen: set<string>)
    requires w.Valid() && f in w.flows && f.id !in seen
    ensures Shows(w, rootIds, Visit(w, f, rootIds, seen).0, f)
    decreases Unseen(w, seen), 0
  {
    UnseenFewer(w, seen, seen + {f.id});
    ForestShows(w, Children(w, f), rootIds, seen + {f.id});
  }

  lemma {:induction false} ForestShows(w: Snapshot, links: seq<Flow>, rootIds: set<string>, seen: set<string>)
    requires w.Valid() && Known(w, links)
    ensures Hangs(w, rootIds, Forest(w, links, rootIds, seen).0, links)
    decreases Unseen(w, seen), |links|
  {
    if links != [] {
      var front, last := links[..|links| - 1], links[|links| - 1];
      var before := Forest(w, front, rootIds, seen);
      ForestShows(w, front, rootIds, seen);
      if last.id !in before.1 {
        UnseenFewer(w, seen, before.1);
        TreeShows(w, last, rootIds, before.1);
        var tree := Visit(w, last, rootIds, before.1).0;
        assert (before.0 + [tree])[..|before.0|] == before.0;
      }
    }
  }

  /** `id` names a flow that `f` reaches. */
  ghost predicate Reached(w: Snapshot, f: Flow, id: string) {
    exists g :: g in w.flows && g.id == id && Reach(w.LinkGraph(), f, g)
  }

  lemma {:induction false} ShownIsReached(w: Snapshot, rootIds: set<string>, t: Tree, f: Flow, g: Flow, id: string)
    requires w.Valid() && g in w.flows && Shows(w, rootIds, t, g) && Reach(w.LinkGraph(), f, g) && id in Preorder(t)
    ensures Reached(w, f, id)
    decreases t, 0
  {
    if id != g.id {
      HungIsReached(w, rootIds, t.children, f, g, Children(w, g), id);
    }
  }

  lemma {:induction false} HungIsReached(w: Snapshot, rootIds: set<string>, ts: seq<Tree>, f: Flow, g: Flow, links: seq<Flow>, id: string)
    requires w.Valid() && g in w.flows && Reach(w.LinkGraph(), f, g)
    requires (forall c :: c in links ==> c in w.Linked(g)) && Hangs(w, rootIds, ts, links) && id in PreorderAll(ts)
    ensures Reached(w, f, id)
    decreases ts, |links|
  {
    var front, last := links[..|links| - 1], links[|links| - 1];
    assert last in links;
    if Hangs(w, rootIds, ts, front) {
      HungIsReached(w, rootIds, ts, f, g, front, id);
    } else if id in Preorder(ts[|ts| - 1]) {
      ReachEdge(w.LinkGraph(), g, last);
      ReachTransitive(w.LinkGraph(), f, g, last);
      ShownIsReached(w, rootIds, ts[|ts| - 1], f, last, id);
    } else {
      HungIsReached(w, rootIds, ts[..|ts| - 1], f, g, front, id);
    }
  }

  /** The tree of a flow: exactly the flows it reaches, each once, each below a flow that
      links to it. */
  lemma TreeIsReachable(w: Snapshot, f: Flow, rootIds: set<string>)
    requires w.Valid() && f in w.flows
    ensures var t := Visit(w, f, rootIds, {}).0;
      && Shows(w, rootIds, t, f)
      && (forall i, j :: 0 <= i < j < |Preorder(t)| ==> Preorder(t)[i] != Preorder(t)[j])
      && forall id :: id in Preorder(t) <==> Reached(w, f, id)
  {
    var r := Visit(w, f, rootIds, {});
    TreeShows(w, f, rootIds, {});
    TreeLists(w, f, rootIds, {});
    TreeCloses(w, f, rootIds, {});
    ReachSelf(w.LinkGraph(), f);
    forall id | id in Preorder(r.0) ensures Reached(w, f, id) { ShownIsReached(w, rootIds, r.0, f, f, id); }
    forall id | Reached(w, f, id) ensures id in Preorder(r.0) {
      var g :| g in w.flows && g.id == id && Reach(w.LinkGraph(), f, g);
      ReachedIsVisited(w, f, g, r.1);
    }
  }

  lemma ReachedIsVisited(w: Snapshot, f: Flow, g: Flow, after: set<string>)
    requires f in w.flows && f.id in after && ClosedSince(w, {}, after) && Reach(w.LinkGraph(), f, g)
    ensures g.id in after
  {
    var s := set h | h in w.flows && h.id in after;
    var p :| IsWalk(w.LinkGraph(), p, f, g);
    forall h | h in s ensures Succ(w.LinkGraph(), h) <= s {}
    ReachStaysInside(w.LinkGraph(), s, p, f, g);
  }

  // ----- roots

  /** The flows that no flow links to. */
  ghost function Roots(w: Snapshot): set<string> {
    set f | f in w.flows && !LinkedFromOne(w, f) :: f.id
  }

  ghost predicate LinkedFromOne(w: Snapshot, f: Flow) {
    exists g :: g in w.flows && f in w.Linked(g)
  }

  method FlowRootIds(w: Snapshot, index: map<Resource, seq<Flow>>) returns (rootIds: set<string>)
    requires w.Valid() && Indexes(index, w.flows, w.endpoints)
    ensures rootIds == Roots(w)
  {
    var incoming: set<string> := {};
    for i := 0 to |w.flows|
      invariant forall f :: f in w.flows ==> (f.id in incoming <==> exists g :: g in w.flows[..i] && f in w.Linked(g))
    {
      assert w.flows[..i + 1] == w.flows[..i] + [w.flows[i]];
      var children := FlowChildren(w, w.flows[i], index);
      incoming := incoming + set c | c in children :: c.id;
    }
    assert w.flows[..|w.flows|] == w.flows;
    rootIds := set f | f in w.flows && f.id !in incoming :: f.id;
    forall f | f in w.flows ensures f.id in incoming <==> LinkedFromOne(w, f) {}
  }

  /** `root` is never set below the top: a flow reached through a link is no root. */
  lemma OnlyTopMayBeRoot(w: Snapshot, f: Flow, id: string)
    requires w.Valid() && f in w.flows && Reached(w, f, id) && id != f.id
    ensures id !in Roots(w)
  {
    var g :| g in w.flows && g.id == id && Reach(w.LinkGraph(), f, g);
    ReachByLength(w.LinkGraph(), f, g);
    var n: nat :| ReachIn(w.LinkGraph(), f, g, n);
    assert n != 0;
    ReachInLast(w.LinkGraph(), f, g, n - 1);
    var h :| ReachIn(w.LinkGraph(), f, h, n - 1) && g in Succ(w.LinkGraph(), h);
    assert LinkedFromOne(w, g);
  }

  /** What show_code_flow reports below a flow. */
  method ShowTree(w: Snapshot, f: Flow) returns (t: Tree)
    requires w.Valid() && f in w.flows
    ensures Shows(w, Roots(w), t, f)
    ensures forall i, j :: 0 <= i < j < |Preorder(t)| ==> Preorder(t)[i] != Preorder(t)[j]
    ensures forall id :: id in Preorder(t) <==> Reached(w, f, id)
  {
    var index := BuildFlowIndex(w.flows, w.endpoints);
    var rootIds := FlowRootIds(w, index);
    var visited := new VisitedIds();
    t := BuildTree(w, f, rootIds, index, visited);
    TreeIsReachable(w, f, rootIds);
  }
}
