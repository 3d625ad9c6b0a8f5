/** Why Tarjan's numbering finds strongly connected components: the invariant that
    every activation of `visit` keeps (application/dependency_analysis.py). */
module SccSpec {
  import opened Basics
  import opened Digraph

  /** The numbering shared by every activation of `visit`. The stack is represented
      by its elements; a higher number means a higher place on it. */
  datatype State = State(
    index: nat,
    indices: map<string, nat>,
    lowlinks: map<string, nat>,
    onStack: set<string>,
    emitted: set<string>)

  ghost predicate Bookkeeping(g: Graph<string>, s: State) {
    && s.indices.Keys <= g.Keys
    && s.lowlinks.Keys == s.indices.Keys
    && (forall x :: x in s.indices ==> s.indices[x] < s.index)
    && s.onStack !! s.emitted
    && s.indices.Keys == s.onStack + s.emitted
  }

  /** `y` leads back to an unfinished node that is not above it on the stack. */
  ghost predicate LeadsBack(g: Graph<string>, s: State, grey: set<string>, y: string)
    requires y in s.indices
  {
    exists a :: a in grey && a in s.indices && s.indices[a] <= s.indices[y] && Reach(g, y, a)
  }

  /** `grey` holds the nodes whose `visit` has started and not returned. */
  ghost predicate Inv(g: Graph<string>, s: State, grey: set<string>) {
    && Bookkeeping(g, s)
    && grey <= s.onStack
    && (forall u :: u in s.indices && u !in grey ==> Succ(g, u) <= s.indices.Keys)
    && (forall x, y :: x in s.onStack && y in s.onStack && s.indices[x] <= s.indices[y] ==> Reach(g, x, y))
    && (forall y :: y in s.onStack && y !in grey ==> LeadsBack(g, s, grey, y))
  }

  /** Nothing recorded for an earlier node is changed; later nodes are numbered higher. */
  ghost predicate Extends(s: State, t: State) {
    && s.index <= t.index
    && s.lowlinks.Keys <= t.lowlinks.Keys && s.indices.Keys <= t.indices.Keys
    && (forall x :: x in s.indices ==> t.indices[x] == s.indices[x])
    && (forall x :: x in s.lowlinks ==> t.lowlinks[x] == s.lowlinks[x])
    && (forall x :: x in t.indices && x !in s.indices ==> s.index <= t.indices[x])
    && (forall x :: x in s.indices ==> (x in t.onStack <==> x in s.onStack))
  }

  /** The low link of `node` is the number of a stacked node that `node` reaches. */
  ghost predicate LowWitness(g: Graph<string>, s: State, node: string) {
    node in s.lowlinks &&
    exists y :: y in s.onStack && y in s.indices && s.indices[y] == s.lowlinks[node] && Reach(g, node, y)
  }

  /** No edge from `from` into the older stack `base` goes below the low link of `node`. */
  ghost predicate LowBounds(g: Graph<string>, s: State, node: string, from: string, base: set<string>)
    requires node in s.lowlinks
  {
    forall z :: z in Succ(g, from) && z in base ==> z in s.indices && s.lowlinks[node] <= s.indices[z]
  }

  /** What one `visit(node)` leaves behind: either everything it stacked was emitted,
      or `node` stays and its low link tells exactly how far down the new nodes lead. */
  ghost predicate Visited(g: Graph<string>, s: State, t: State, node: string)
  {
    && node in t.indices && node in t.lowlinks && t.indices[node] == s.index
    && (if node !in t.onStack then t.onStack == s.onStack && t.lowlinks[node] >= s.index else
        && t.lowlinks[node] < s.index
        && LowWitness(g, t, node)
        && forall y :: y in t.onStack && y !in s.onStack ==> LowBounds(g, t, node, y, s.onStack))
  }

  /** The low link of `node` while its targets `done` have been treated. */
  ghost predicate Lows(g: Graph<string>, base: set<string>, t: State, node: string, done: set<string>) {
    && LowWitness(g, t, node)
    && (forall y :: y in t.onStack && y !in base && y != node ==> LowBounds(g, t, node, y, base))
    && (forall z :: z in done && z in base ==> z in t.indices && t.lowlinks[node] <= t.indices[z])
  }

  /** The unfinished nodes reach `node`. */
  ghost predicate LeadTo(g: Graph<string>, grey: set<string>, node: string) {
    forall a :: a in grey ==> Reach(g, a, node)
  }

  /** The state inside `visit(node)`, started in `s`, with `done` targets treated. */
  ghost predicate Scanning(g: Graph<string>, s: State, t: State, node: string, grey: set<string>, done: set<string>)
  {
    && node !in s.indices && node !in s.lowlinks && node in t.onStack && s.onStack <= t.onStack
    && node in t.indices && node in t.lowlinks && t.indices[node] == s.index
    && t.lowlinks[node] <= s.index
    && Extends(s, t)
    && done <= t.indices.Keys
    && Inv(g, t, grey + {node})
    && Lows(g, s.onStack, t, node, done)
  }

  lemma BackTo(g: Graph<string>, s: State, grey: set<string>, y: string) returns (a: string)
    requires Inv(g, s, grey) && y in s.onStack
    ensures a in grey && a in s.indices && s.indices[a] <= s.indices[y] && Reach(g, y, a)
  {
    if y in grey {
      ReachSelf(g, y);
      a := y;
    } else {
      assert LeadsBack(g, s, grey, y);
      a :| a in grey && a in s.indices && s.indices[a] <= s.indices[y] && Reach(g, y, a);
    }
  }

  // ----- one lemma per step of visit

  function Pushed(s: State, node: string): State {
    State(s.index + 1, s.indices[node := s.index], s.lowlinks[node := s.index], s.onStack + {node}, s.emitted)
  }

  /** `visit` numbers and stacks its node; every unfinished node reaches it. */
  lemma PushStarts(g: Graph<string>, s: State, node: string, grey: set<string>)
    requires Inv(g, s, grey) && node in g && node !in s.indices
    requires LeadTo(g, grey, node)
    ensures Scanning(g, s, Pushed(s, node), node, grey, {})
  {
    var t := Pushed(s, node);
    var grey' := grey + {node};
    ReachSelf(g, node);
    assert node in t.onStack && t.indices[node] == t.lowlinks[node];
    assert Bookkeeping(g, t);
    forall x, y | x in t.onStack && y in t.onStack && t.indices[x] <= t.indices[y] ensures Reach(g, x, y) {
      if x != node && y == node {
        var a := BackTo(g, s, grey, x);
        ReachTransitive(g, x, a, node);
      }
    }
    forall y | y in t.onStack && y !in grey' ensures LeadsBack(g, t, grey', y) {
      var a := BackTo(g, s, grey, y);
      assert a in grey' && t.indices[a] <= t.indices[y];
    }
  }

  function Lowered(s: State, node: string, value: nat): State
    requires node in s.lowlinks
  {
    s.(lowlinks := s.lowlinks[node := Min(s.lowlinks[node], value)])
  }

  /** The invariant does not read the low links. */
  lemma LowerKeepsInv(g: Graph<string>, s: State, node: string, value: nat, grey: set<string>)
    requires Inv(g, s, grey) && node in s.lowlinks
    ensures Inv(g, Lowered(s, node, value), grey)
  {
    var t := Lowered(s, node, value);
    assert t.lowlinks.Keys == s.lowlinks.Keys;
    forall y | y in t.onStack && y !in grey ensures LeadsBack(g, t, grey, y) {
      assert LeadsBack(g, s, grey, y);
    }
  }

  /** A target still on the stack may lower the link to its number. */
  lemma StackedTarget(g: Graph<string>, s: State, t: State, node: string, grey: set<string>, done: set<string>, target: string)
    requires Scanning(g, s, t, node, grey, done)
    requires target in Succ(g, node) && target in t.onStack && target in t.indices
    ensures Scanning(g, s, Lowered(t, node, t.indices[target]), node, grey, done + {target})
  {
    var low := Lowered(t, node, t.indices[target]);
    LowerKeepsInv(g, t, node, t.indices[target], grey + {node});
    ReachEdge(g, node, target);
    assert LowWitness(g, low, node);
    forall y | y in low.onStack && y !in s.onStack && y != node ensures LowBounds(g, low, node, y, s.onStack) {
      assert LowBounds(g, t, node, y, s.onStack);
    }
  }

  /** A target already emitted changes nothing. */
  lemma EmittedTarget(g: Graph<string>, s: State, t: State, node: string, grey: set<string>, done: set<string>, target: string)
    requires Scanning(g, s, t, node, grey, done)
    requires target in t.indices && target !in t.onStack
    ensures Scanning(g, s, t, node, grey, done + {target})
  {
  }

  /** After the nested `visit(target)`, its low link may lower the link of `node`. */
  lemma VisitedTarget(g: Graph<string>, s: State, t: State, u: State, node: string, grey: set<string>, done: set<string>, target: string)
    requires Scanning(g, s, t, node, grey, done)
    requires target in Succ(g, node) && target !in t.indices
    requires Inv(g, u, grey + {node}) && Extends(t, u) && Visited(g, t, u, target)
    ensures Scanning(g, s, Lowered(u, node, u.lowlinks[target]), node, grey, done + {target})
  {
    LowerKeepsInv(g, u, node, u.lowlinks[target], grey + {node});
    VisitedTargetLows(g, s.onStack, t, u, node, done, target);
    ExtendsTransitive(s, t, u);
  }

  lemma ExtendsTransitive(s: State, t: State, u: State)
    requires Extends(s, t) && Extends(t, u)
    ensures Extends(s, u)
  {
  }

  lemma VisitedTargetLows(g: Graph<string>, base: set<string>, t: State, u: State, node: string, done: set<string>, target: string)
    requires node in t.lowlinks && node in t.indices && t.lowlinks[node] < t.index
    requires Lows(g, base, t, node, done)
    requires target in Succ(g, node) && target !in base && base <= t.onStack <= t.indices.Keys
    requires Extends(t, u) && Visited(g, t, u, target)
    ensures Lows(g, base, Lowered(u, node, u.lowlinks[target]), node, done + {target})
  {
    var low := Lowered(u, node, u.lowlinks[target]);
    ReachEdge(g, node, target);
    if u.lowlinks[target] < t.lowlinks[node] {
      var y :| y in u.onStack && y in u.indices && u.indices[y] == u.lowlinks[target] && Reach(g, target, y);
      ReachTransitive(g, node, target, y);
      assert y in low.onStack && low.indices[y] == low.lowlinks[node];
    } else {
      var y :| y in t.onStack && y in t.indices && t.indices[y] == t.lowlinks[node] && Reach(g, node, y);
      assert y in low.onStack && low.indices[y] == low.lowlinks[node];
    }
    forall y | y in low.onStack && y !in base && y != node ensures LowBounds(g, low, node, y, base) {
      if y in t.onStack {
        assert LowBounds(g, t, node, y, base);
      } else {
        assert LowBounds(g, u, target, y, t.onStack);
      }
    }
  }

  lemma NotARootKeeps(g: Graph<string>, s: State, t: State, node: string, grey: set<string>)
    requires Scanning(g, s, t, node, grey, Succ(g, node)) && t.lowlinks[node] != t.indices[node]
    ensures forall y :: y in t.onStack && y !in grey ==> LeadsBack(g, t, grey, y)
  {
    forall y | y in t.onStack && y !in grey ensures LeadsBack(g, t, grey, y) {
      var a := BackBelow(g, t, node, grey, y);
    }
  }

  lemma FinishedLows(g: Graph<string>, base: set<string>, t: State, node: string)
    requires Lows(g, base, t, node, Succ(g, node))
    ensures forall y :: y in t.onStack && y !in base ==> LowBounds(g, t, node, y, base)
  {
  }

  /** `node` is not the root of its component: it stays on the stack. */
  lemma NotARoot(g: Graph<string>, s: State, t: State, node: string, grey: set<string>)
    requires Inv(g, s, grey)
    requires Scanning(g, s, t, node, grey, Succ(g, node)) && t.lowlinks[node] != t.indices[node]
    ensures Inv(g, t, grey) && Visited(g, s, t, node)
  {
    NotARootKeeps(g, s, t, node, grey);
    FinishedLows(g, s.onStack, t, node);
  }

  /** Through its low link, `node` leads back to an unfinished node below it. */
  lemma BackBelow(g: Graph<string>, t: State, node: string, grey: set<string>, y: string) returns (a: string)
    requires Inv(g, t, grey + {node}) && y in t.onStack
    requires LowWitness(g, t, node) && node in t.indices && t.lowlinks[node] < t.indices[node]
    ensures a in grey && a in t.indices && t.indices[a] <= t.indices[y] && Reach(g, y, a)
  {
    a := BackTo(g, t, grey + {node}, y);
    if a == node {
      var top :| top in t.onStack && top in t.indices && t.indices[top] == t.lowlinks[node] && Reach(g, node, top);
      var b := BackTo(g, t, grey + {node}, top);
      ReachTransitive(g, y, node, top);
      ReachTransitive(g, y, top, b);
      a := b;
    }
  }

  ghost predicate Strong(g: Graph<string>, c: set<string>) {
    forall u, v :: u in c && v in c ==> Reach(g, u, v)
  }

  /** What a root has stacked is one strong component with no edge to the older stack. */
  lemma RootComponent(g: Graph<string>, s: State, t: State, node: string, grey: set<string>)
    requires Inv(g, s, grey) && LeadTo(g, grey, node)
    requires Scanning(g, s, t, node, grey, Succ(g, node)) && t.lowlinks[node] == t.indices[node]
    ensures var c := t.onStack - s.onStack;
      Strong(g, c) && node in c && forall u :: u in c ==> Succ(g, u) <= c + t.emitted
  {
    var c := t.onStack - s.onStack;
    forall u | u in c ensures Reach(g, u, node) && Reach(g, node, u) && Succ(g, u) <= c + t.emitted {
      assert t.indices[node] <= t.indices[u];
      var a := BackTo(g, t, grey + {node}, u);
      if a != node { ReachTransitive(g, u, a, node); }
      forall z | z in Succ(g, u) ensures z in c + t.emitted {
        if u != node { assert LowBounds(g, t, node, u, s.onStack); }
        assert z in t.indices;
      }
    }
    forall u, v | u in c && v in c ensures Reach(g, u, v) { ReachTransitive(g, u, node, v); }
  }

  function Popped(s: State, t: State): State {
    t.(onStack := s.onStack, emitted := t.emitted + (t.onStack - s.onStack))
  }

  /** `node` is a root: emitting what it has stacked restores the invariant. */
  lemma RootEmits(g: Graph<string>, s: State, t: State, node: string, grey: set<string>)
    requires Inv(g, s, grey)
    requires Scanning(g, s, t, node, grey, Succ(g, node)) && t.lowlinks[node] == t.indices[node]
    ensures var u := Popped(s, t); Inv(g, u, grey) && Extends(s, u) && Visited(g, s, u, node)
  {
    var u := Popped(s, t);
    forall y | y in u.onStack && y !in grey ensures LeadsBack(g, u, grey, y) {
      var a := BackTo(g, t, grey + {node}, y);
      assert t.indices[y] < s.index;
    }
  }
}
