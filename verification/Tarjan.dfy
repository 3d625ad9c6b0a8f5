/** Tarjan's search over a graph of named nodes, and what its components are (application/dependency_analysis.py). */
module Tarjan {
  import opened Basics
  import opened Digraph
  import opened SccSpec
  import Text

  function Union(cs: seq<set<string>>): set<string> {
    if cs == [] then {} else Union(cs[..|cs| - 1]) + cs[|cs| - 1]
  }

  /** Each component is new, strongly connected, and its edges lead to itself or
      to components emitted before it. */
  ghost predicate Emitted(g: Graph<string>, cs: seq<set<string>>) {
    cs == [] ||
    var front, last := cs[..|cs| - 1], cs[|cs| - 1];
    && Emitted(g, front)
    && last != {} && last !! Union(front)
    && Strong(g, last)
    && forall u :: u in last ==> Succ(g, u) <= Union(cs)
  }

  lemma EmitOne(g: Graph<string>, cs: seq<set<string>>, c: set<string>)
    requires Emitted(g, cs) && c != {} && c !! Union(cs) && Strong(g, c)
    requires forall u :: u in c ==> Succ(g, u) <= c + Union(cs)
    ensures Emitted(g, cs + [c]) && Union(cs + [c]) == Union(cs) + c
  {
    assert (cs + [c])[..|cs|] == cs;
  }

  lemma ElementsNext(p: seq<string>, i: nat)
    requires i < |p|
    ensures Elements(p[..i + 1]) == Elements(p[..i]) + {p[i]}
  {
    assert p[..i + 1] == p[..i] + [p[i]];
  }

  lemma ElementsAll(p: seq<string>)
    ensures Elements(p[..0]) == {} && Elements(p[..|p|]) == Elements(p)
  {
    assert p[..|p|] == p;
  }

  /** The stack lists the stacked nodes in the order of their numbers. */
  ghost predicate Lists(stack: seq<string>, s: State) {
    && Elements(stack) == s.onStack <= s.indices.Keys
    && forall i, j :: 0 <= i < j < |stack| ==> s.indices[stack[i]] < s.indices[stack[j]]
  }

  lemma ListsPush(base: seq<string>, s: State, node: string)
    requires Lists(base, s) && node !in s.indices && forall x :: x in s.indices ==> s.indices[x] < s.index
    ensures Lists(base + [node], Pushed(s, node))
  {
    forall x | x in base ensures x in s.onStack { assert x in Elements(base); }
  }

  /** The stack above `base` holds exactly what was stacked since. */
  lemma StackedSince(base: seq<string>, s: State, stack: seq<string>, t: State)
    requires Lists(base, s) && Lists(stack, t) && base <= stack
    ensures Elements(stack[|base|..]) == t.onStack - s.onStack
  {
    var n := |base|;
    forall i | n <= i < |stack| ensures stack[i] !in base {
      assert forall j :: 0 <= j < n ==> t.indices[stack[j]] < t.indices[stack[i]];
    }
    forall x | x in stack && x !in base ensures x in stack[n..] {
      var i :| 0 <= i < |stack| && stack[i] == x;
      assert stack[i] == (base + stack[n..])[i];
    }
  }

  /** Popping down to `base` emits the whole component of a root. */
  lemma RootCloses(g: Graph<string>, s: State, t: State, base: seq<string>, stack: seq<string>, cs: seq<set<string>>, node: string, grey: set<string>)
    requires Inv(g, s, grey) && LeadTo(g, grey, node)
    requires Scanning(g, s, t, node, grey, Succ(g, node)) && t.lowlinks[node] == t.indices[node]
    requires Lists(base, s) && Lists(stack, t) && base <= stack && Emitted(g, cs) && t.emitted == Union(cs)
    ensures Lists(base, Popped(s, t)) && Inv(g, Popped(s, t), grey)
    ensures Extends(s, Popped(s, t)) && Visited(g, s, Popped(s, t), node)
    ensures var c := Elements(stack[|base|..]);
      && t.onStack - c == s.onStack
      && Emitted(g, cs + [c]) && Union(cs + [c]) == Popped(s, t).emitted
  {
    RootComponent(g, s, t, node, grey);
    RootEmits(g, s, t, node, grey);
    StackedSince(base, s, stack, t);
    EmitOne(g, cs, t.onStack - s.onStack);
    BaseStays(g, s, t, base, node, grey);
  }

  lemma BaseStays(g: Graph<string>, s: State, t: State, base: seq<string>, node: string, grey: set<string>)
    requires Inv(g, s, grey) && Scanning(g, s, t, node, grey, Succ(g, node)) && Lists(base, s)
    ensures Lists(base, Popped(s, t))
  {
  }

  lemma ListsLowered(stack: seq<string>, s: State, node: string, link: nat)
    requires Lists(stack, s) && node in s.lowlinks
    ensures Lists(stack, Lowered(s, node, link))
  {
  }

  lemma NothingStacked(g: Graph<string>, s: State)
    requires Inv(g, s, {})
    ensures s.onStack == {}
  {
    if s.onStack != {} {
      var y :| y in s.onStack;
      var a := BackTo(g, s, {}, y);
    }
  }

  /** Between two edges of `node`, whose visit started in `s` on the stack `base`. */
  ghost predicate Visiting(g: Graph<string>, s: State, t: State, stack: seq<string>, components: seq<set<string>>,
                           base: seq<string>, node: string, grey: set<string>, done: set<string>)
  {
    && Closed(g) && Scanning(g, s, t, node, grey, done)
    && Lists(stack, t) && Emitted(g, components)
    && base + [node] <= stack
  }

  /** `visit` and the variables it shares with its caller. */
  class SccSearch {
    const adjacency: map<string, set<string>>
    var index: nat
    var indices: map<string, nat>
    var lowlinks: map<string, nat>
    var stack: seq<string>
    var onStack: set<string>
    var components: seq<set<string>>

    ghost function View(): State
      reads this
    {
      State(index, indices, lowlinks, onStack, Union(components))
    }

    ghost predicate Valid(grey: set<string>)
      reads this
    {
      Closed(adjacency) && Inv(adjacency, View(), grey) && Lists(stack, View()) && Emitted(adjacency, components)
    }

    constructor (adjacency: map<string, set<string>>)
      requires Closed(adjacency)
      ensures this.adjacency == adjacency && Valid({}) && components == [] && indices == map[]
    {
      this.adjacency := adjacency;
      index, indices, lowlinks, stack, onStack, components := 0, map[], map[], [], {}, [];
    }

    /** Pops the stack down to `base` and records what was popped. */
    method EmitComponent(node: string, ghost base: seq<string>)
      requires base < stack && stack[|base|] == node
      requires forall i, j :: 0 <= i < j < |stack| ==> stack[i] != stack[j]
      requires onStack == Elements(stack)
      modifies this`stack, this`onStack, this`components
      ensures stack == base
      ensures onStack == old(onStack) - Elements(old(stack)[|base|..])
      ensures components == old(components) + [Elements(old(stack)[|base|..])]
    {
      var component: set<string> := {};
      ghost var entry, entryOn := stack, onStack;
      while |stack| > 0
        invariant |base| < |stack| <= |entry| && stack == entry[..|stack|]
        invariant component == Elements(entry[|stack|..])
        invariant onStack == entryOn - component && components == old(components)
      {
        var target := stack[|stack| - 1];
        assert entry[|stack| - 1..] == [target] + entry[|stack|..];
        assert target in entry;
        stack := stack[..|stack| - 1];
        onStack := onStack - {target};
        component := component + {target};
        assert component == Elements(entry[|stack|..]);
        if target == node {
          assert entry[|base|] == entry[|stack|];
          assert |stack| == |base|;
          break;
        }
      }
      assert stack == base;
      components := components + [component];
    }

    /** The state inside `Visit(node)`, which started in `s` on the stack `base`. */
    ghost predicate Inside(s: State, base: seq<string>, node: string, grey: set<string>, done: set<string>)
      reads this
    {
      Visiting(adjacency, s, View(), stack, components, base, node, grey, done)
    }

    method Visit(node: string, ghost grey: set<string>)
      requires Valid(grey) && node in adjacency && node !in indices
      requires LeadTo(adjacency, grey, node)
      modifies this
      ensures Valid(grey)
      ensures Extends(old(View()), View()) && Visited(adjacency, old(View()), View(), node)
      ensures old(stack) <= stack && old(components) <= components
      decreases adjacency.Keys - indices.Keys, 2
    {
      ghost var s, base := View(), stack;
      Begin(node, grey);
      FollowAll(node, s, base, grey);
      Return(node, s, base, grey);
    }

    /** The start of `Visit(node)`: it is numbered and stacked. */
    method Begin(node: string, ghost grey: set<string>)
      requires Valid(grey) && node in adjacency && node !in indices
      requires LeadTo(adjacency, grey, node)
      modifies this
      ensures Inside(old(View()), old(stack), node, grey, {}) && components == old(components)
    {
      ghost var s, base := View(), stack;
      PushStarts(adjacency, s, node, grey);
      ListsPush(base, s, node);
      indices := indices[node := index];
      lowlinks := lowlinks[node := index];
      index := index + 1;
      stack := stack + [node];
      onStack := onStack + {node};
      assert View() == Pushed(s, node);
    }

    /** The loop of `Visit(node)` over its targets. */
    method FollowAll(node: string, ghost s: State, ghost base: seq<string>, ghost grey: set<string>)
      requires Inside(s, base, node, grey, {}) && node in adjacency
      requires LeadTo(adjacency, grey, node)
      modifies this
      ensures Inside(s, base, node, grey, Succ(adjacency, node))
      ensures old(components) <= components
      decreases adjacency.Keys - s.indices.Keys, 1
    {
      var targets := Text.Sorted(adjacency[node]);
      ghost var done: set<string> := {};
      ElementsAll(targets);
      for i := 0 to |targets|
        invariant Inside(s, base, node, grey, done) && done == Elements(targets[..i])
        invariant old(components) <= components
      {
        ElementsNext(targets, i);
        Follow(node, targets[i], s, base, grey, done);
        done := done + {targets[i]};
      }
      assert done == Succ(adjacency, node);
    }

    method LowerLink(node: string, value: nat)
      requires node in lowlinks && Lists(stack, View())
      modifies this`lowlinks
      ensures View() == Lowered(old(View()), node, value) && Lists(stack, View())
    {
      ListsLowered(stack, View(), node, value);
      lowlinks := lowlinks[node := Min(lowlinks[node], value)];
    }

    /** One edge out of `node`. */
    method Follow(node: string, target: string, ghost s: State, ghost base: seq<string>, ghost grey: set<string>, ghost done: set<string>)
      requires Inside(s, base, node, grey, done) && target in Succ(adjacency, node)
      requires LeadTo(adjacency, grey, node)
      modifies this
      ensures Inside(s, base, node, grey, done + {target})
      ensures old(components) <= components
      decreases adjacency.Keys - s.indices.Keys, 0
    {
      ghost var t := View();
      if target !in indices {
        ReachFromGrey(adjacency, grey, node, target);
        Visit(target, grey + {node});
        ghost var u := View();
        VisitedTarget(adjacency, s, t, u, node, grey, done, target);
        LowerLink(node, lowlinks[target]);
      } else if target in onStack {
        StackedTarget(adjacency, s, t, node, grey, done, target);
        LowerLink(node, indices[target]);
      } else {
        EmittedTarget(adjacency, s, t, node, grey, done, target);
      }
    }

    /** The end of `Visit(node)`: a root emits its component. */
    method Return(node: string, ghost s: State, ghost base: seq<string>, ghost grey: set<string>)
      requires Inside(s, base, node, grey, Succ(adjacency, node))
      requires Inv(adjacency, s, grey) && Lists(base, s) && LeadTo(adjacency, grey, node)
      modifies this
      ensures Valid(grey)
      ensures Extends(s, View()) && Visited(adjacency, s, View(), node)
      ensures base <= stack && old(components) <= components
    {
      ghost var t := View();
      if lowlinks[node] != indices[node] {
        NotARoot(adjacency, s, t, node, grey);
      } else {
        RootCloses(adjacency, s, t, base, stack, components, node, grey);
        EmitComponent(node, base);
        assert View() == Popped(s, t);
      }
    }

    lemma AllSeen(nodes: seq<string>)
      requires Valid({}) && Elements(nodes) <= indices.Keys && forall x :: x in adjacency ==> x in nodes
      ensures Emitted(adjacency, components) && Union(components) == adjacency.Keys
    {
      NothingStacked(adjacency, View());
      ElementsAll(nodes);
      assert indices.Keys == adjacency.Keys;
    }

    /** Visits every node; the components then cover the graph. */
    method Run()
      requires Valid({}) && components == [] && indices == map[]
      modifies this
      ensures Emitted(adjacency, components) && Union(components) == adjacency.Keys
    {
      var nodes := Text.Sorted(adjacency.Keys);
      for i := 0 to |nodes|
        invariant Valid({})
        invariant Elements(nodes[..i]) <= indices.Keys
      {
        ElementsNext(nodes, i);
        if nodes[i] !in indices {
          Visit(nodes[i], {});
        }
      }
      AllSeen(nodes);
    }
  }

  lemma ReachFromGrey(g: Graph<string>, grey: set<string>, node: string, target: string)
    requires LeadTo(g, grey, node) && target in Succ(g, node)
    ensures LeadTo(g, grey + {node}, target)
  {
    ReachEdge(g, node, target);
    forall a | a in grey ensures Reach(g, a, target) { ReachTransitive(g, a, node, target); }
  }

  // ----- what the emitted components are

  /** A maximal set of mutually reachable nodes. */
  ghost predicate IsScc(g: Graph<string>, c: set<string>) {
    && c != {} && c <= g.Keys
    && forall u, v :: u in c && v in g ==> (v in c <==> Reach(g, u, v) && Reach(g, v, u))
  }

  lemma {:induction false} InUnion(cs: seq<set<string>>, x: string)
    ensures x in Union(cs) <==> exists k :: 0 <= k < |cs| && x in cs[k]
  {
    if cs != [] {
      var front := cs[..|cs| - 1];
      InUnion(front, x);
      if k :| 0 <= k < |cs| && x in cs[k] && k < |cs| - 1 { assert x in front[k]; }
    }
  }

  lemma {:induction false} EmittedPrefix(g: Graph<string>, cs: seq<set<string>>, k: nat)
    requires Emitted(g, cs) && k <= |cs|
    ensures Emitted(g, cs[..k])
  {
    if k < |cs| {
      EmittedPrefix(g, cs[..|cs| - 1], k);
      assert cs[..|cs| - 1][..k] == cs[..k];
    } else {
      assert cs[..k] == cs;
    }
  }

  /** No edge leaves the components emitted so far. */
  lemma {:induction false} UnionClosed(g: Graph<string>, cs: seq<set<string>>)
    requires Emitted(g, cs)
    ensures forall u :: u in Union(cs) ==> Succ(g, u) <= Union(cs)
  {
    if cs != [] { UnionClosed(g, cs[..|cs| - 1]); }
  }

  /** A node only reaches its own component and components emitted before it. */
  lemma ReachesBackwards(g: Graph<string>, cs: seq<set<string>>, k: nat, u: string, v: string)
    requires Emitted(g, cs) && k < |cs| && u in cs[k] && Reach(g, u, v)
    ensures exists j :: 0 <= j <= k && v in cs[j]
  {
    var front := cs[..k + 1];
    EmittedPrefix(g, cs, k + 1);
    UnionClosed(g, front);
    assert front[k] == cs[k];
    InUnion(front, u);
    var p :| IsWalk(g, p, u, v);
    ReachStaysInside(g, Union(front), p, u, v);
    InUnion(front, v);
  }

  lemma ComponentsDisjoint(g: Graph<string>, cs: seq<set<string>>, j: nat, k: nat)
    requires Emitted(g, cs) && j < k < |cs|
    ensures cs[j] !! cs[k]
  {
    EmittedPrefix(g, cs, k + 1);
    assert cs[..k + 1][..k] == cs[..k];
    forall x | x in cs[j] ensures x !in cs[k] {
      assert cs[..k][j] == cs[j];
      InUnion(cs[..k], x);
    }
  }

  /** Every emitted component is an SCC, every SCC is emitted exactly once, and each
      comes after all the components it can reach. */
  lemma ComponentsAreSccs(g: Graph<string>, cs: seq<set<string>>)
    requires Emitted(g, cs) && Union(cs) == g.Keys
    ensures forall k :: 0 <= k < |cs| ==> IsScc(g, cs[k])
    ensures forall c :: IsScc(g, c) ==> c in cs
    ensures forall j, k, x :: 0 <= j < |cs| && 0 <= k < |cs| && x in cs[j] && x in cs[k] ==> j == k
    ensures forall j, k, u, v :: 0 <= j < |cs| && 0 <= k < |cs| && u in cs[k] && v in cs[j] && Reach(g, u, v) ==> j <= k
  {
    forall j, k, x | 0 <= j < |cs| && 0 <= k < |cs| && x in cs[j] && x in cs[k] ensures j == k {
      if j < k { ComponentsDisjoint(g, cs, j, k); } else if k < j { ComponentsDisjoint(g, cs, k, j); }
    }
    forall j, k, u, v | 0 <= j < |cs| && 0 <= k < |cs| && u in cs[k] && v in cs[j] && Reach(g, u, v) ensures j <= k {
      ReachesBackwards(g, cs, k, u, v);
    }
    forall k | 0 <= k < |cs| ensures IsScc(g, cs[k]) { EmittedIsScc(g, cs, k); }
    forall c | IsScc(g, c) ensures c in cs {
      var u :| u in c;
      InUnion(cs, u);
      var k :| 0 <= k < |cs| && u in cs[k];
      assert forall v :: v in c <==> v in cs[k];
      assert c == cs[k];
    }
  }

  lemma EmittedIsScc(g: Graph<string>, cs: seq<set<string>>, k: nat)
    requires Emitted(g, cs) && Union(cs) == g.Keys && k < |cs|
    requires forall i, j, u, v :: 0 <= j < |cs| && 0 <= i < |cs| && u in cs[i] && v in cs[j] && Reach(g, u, v) ==> j <= i
    ensures IsScc(g, cs[k])
  {
    EmittedPrefix(g, cs, k + 1);
    assert Strong(g, cs[k]) && cs[k] != {};
    forall v | v in cs[k] ensures v in g { InUnion(cs, v); }
    forall u, v | u in cs[k] && v in g && v !in cs[k] ensures !(Reach(g, u, v) && Reach(g, v, u)) {
      InUnion(cs, v);
      var j :| 0 <= j < |cs| && v in cs[j];
    }
  }
}
