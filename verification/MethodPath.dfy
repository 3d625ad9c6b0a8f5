/** The method chain that connects an entry with an output: a breadth-first search over
    the calls that the dispatch rule allows (application/code_flows.py). */
module MethodPath {
  import opened Wrappers
  import opened Dispatch
  import Order
  import Text

  // ----- the order of calls

  predicate SameKey(e: CallEdge, f: CallEdge) {
    e.path == f.path && e.line == f.line && e.callee == f.callee
  }

  /** Calls sorted by path, line and callee. */
  predicate KeyLe(e: CallEdge, f: CallEdge) {
    if e.path != f.path then Text.Le(e.path, f.path)
    else if e.line != f.line then e.line < f.line
    else Text.Le(e.callee, f.callee)
  }

  lemma KeyRanks()
    ensures Order.Ranks(KeyLe)
  {
    forall e, f ensures KeyLe(e, f) || KeyLe(f, e) {
      Text.LeOrders({e.path, f.path});
      Text.LeOrders({e.callee, f.callee});
    }
    forall e, f, h | KeyLe(e, f) && KeyLe(f, h) ensures KeyLe(e, h) {
      Text.LeOrders({e.path, f.path, h.path});
      Text.LeOrders({e.callee, f.callee, h.callee});
    }
  }

  lemma KeyAntisymmetric(e: CallEdge, f: CallEdge)
    requires KeyLe(e, f) && KeyLe(f, e)
    ensures SameKey(e, f)
  {
    Text.LeOrders({e.path, f.path});
    Text.LeOrders({e.callee, f.callee});
  }

  function Sorted(g: CallGraph, u: string): (r: seq<CallEdge>)
    ensures forall e :: e in r <==> e in g.Calls(u)
    ensures Order.Ascending(r, KeyLe)
  {
    KeyRanks();
    Order.SortedList(g.Calls(u), KeyLe)
  }

  // ----- chains of allowed calls

  type Chain = seq<CallEdge>

  function Front(p: Chain): Chain requires p != [] { p[..|p| - 1] }

  function Last(p: Chain): CallEdge requires p != [] { p[|p| - 1] }

  function End(start: string, p: Chain): string {
    if p == [] then start else Last(p).callee
  }

  /** An allowed call made by `u`. */
  predicate Follows(g: CallGraph, u: string, e: CallEdge) {
    e in g.Calls(u) && e.caller in g.methods && e.callee in g.methods && g.Allowed(e)
  }

  /** Consecutive allowed calls, the first one made by `start`. */
  predicate IsChain(g: CallGraph, start: string, p: Chain) {
    p == [] || (IsChain(g, start, Front(p)) && Follows(g, End(start, Front(p)), Last(p)))
  }

  predicate SameKeys(p: Chain, q: Chain) {
    |p| == |q| && (p == [] || (SameKeys(Front(p), Front(q)) && SameKey(Last(p), Last(q))))
  }

  predicate LexLess(p: Chain, q: Chain) {
    |p| == |q| && p != [] &&
    (LexLess(Front(p), Front(q)) ||
     (SameKeys(Front(p), Front(q)) && KeyLe(Last(p), Last(q)) && !SameKey(Last(p), Last(q))))
  }

  /** Shorter chains come first, then the order of their first different calls. */
  predicate Before(p: Chain, q: Chain) {
    |p| < |q| || SameKeys(p, q) || LexLess(p, q)
  }

  lemma {:induction false} SameKeysReflexive(p: Chain)
    ensures SameKeys(p, p)
  {
    if p != [] { SameKeysReflexive(Front(p)); }
  }

  lemma {:induction false} LexTransitive(p: Chain, q: Chain, r: Chain)
    requires LexLess(p, q) || SameKeys(p, q)
    requires LexLess(q, r) || SameKeys(q, r)
    ensures LexLess(p, q) || LexLess(q, r) ==> LexLess(p, r)
    ensures SameKeys(p, q) && SameKeys(q, r) ==> SameKeys(p, r)
  {
    if p != [] {
      LexTransitive(Front(p), Front(q), Front(r));
      LastTransitive(Last(p), Last(q), Last(r));
    }
  }

  lemma LastTransitive(e: CallEdge, f: CallEdge, h: CallEdge)
    ensures KeyLe(e, f) && KeyLe(f, h) ==> KeyLe(e, h)
    ensures KeyLe(e, f) && KeyLe(f, h) && SameKey(e, h) ==> SameKey(e, f) && SameKey(f, h)
    ensures SameKey(e, f) && KeyLe(f, h) ==> KeyLe(e, h)
    ensures SameKey(f, h) && KeyLe(e, f) ==> KeyLe(e, h)
  {
    KeyRanks();
    if KeyLe(e, f) && KeyLe(f, h) && SameKey(e, h) {
      assert KeyLe(f, e);
      KeyAntisymmetric(e, f);
    }
  }

  lemma BeforeTransitive(p: Chain, q: Chain, r: Chain)
    requires Before(p, q) && Before(q, r)
    ensures Before(p, r)
  {
    if |p| == |q| == |r| { LexTransitive(p, q, r); }
  }

  // ----- what a search relies on

  /** A chain that comes first among all chains to its end. */
  ghost predicate First(g: CallGraph, start: string, p: Chain) {
    IsChain(g, start, p) && forall r :: IsChain(g, start, r) && End(start, r) == End(start, p) ==> Before(p, r)
  }

  ghost function Ends(start: string, queue: seq<Chain>): set<string> { set p | p in queue :: End(start, p) }

  /** `p` comes before every continuation of `c`. */
  predicate Close(p: Chain, c: Chain) {
    |p| <= |c| || (|p| == |c| + 1 && LexLess(Front(p), c))
  }

  ghost predicate Ordered(start: string, queue: seq<Chain>) {
    forall i, j :: 0 <= i < j < |queue| ==> Before(queue[i], queue[j]) && End(start, queue[i]) != End(start, queue[j])
  }

  ghost predicate Compact(queue: seq<Chain>) {
    forall p, c :: p in queue && c in queue ==> Close(p, c)
  }

  ghost predicate ClosedBut(g: CallGraph, visited: set<string>, open: set<string>) {
    forall v, e :: v in visited && v !in open && Follows(g, v, e) ==> e.callee in visited
  }

  ghost predicate Firsts(g: CallGraph, start: string, visited: set<string>, queue: seq<Chain>) {
    forall p :: p in queue ==> First(g, start, p) && End(start, p) in visited
  }

  datatype State = State(visited: set<string>, queue: seq<Chain>)

  ghost predicate Inv(g: CallGraph, start: string, s: State, open: set<string>) {
    && start in s.visited && Firsts(g, start, s.visited, s.queue)
    && Ordered(start, s.queue) && Compact(s.queue)
    && ClosedBut(g, s.visited, Ends(start, s.queue) + open)
  }

  /** `p` waits behind `c`, and before its continuations that are not queued yet. */
  ghost predicate Behind(c: Chain, p: Chain, es: seq<CallEdge>) {
    Before(c, p) && (Close(p, c) || (p != [] && Front(p) == c && Last(p) in es))
  }

  ghost predicate Waits(c: Chain, queue: seq<Chain>, es: seq<CallEdge>) {
    forall p :: p in queue ==> Behind(c, p, es)
  }

  ghost predicate Considered(g: CallGraph, u: string, visited: set<string>, es: seq<CallEdge>) {
    forall e :: e in es && Follows(g, u, e) ==> e.callee in visited
  }

  /** The chain `c` left the queue and the calls `es` of its end were considered. */
  ghost predicate Treating(g: CallGraph, start: string, s: State, c: Chain, es: seq<CallEdge>) {
    var u := End(start, c);
    && Inv(g, start, s, {u})
    && First(g, start, c) && u in s.visited && u !in Ends(start, s.queue)
    && Waits(c, s.queue, es) && Considered(g, u, s.visited, es)
  }

  // ----- the search discovers methods in order

  /** Any chain to a method whose calls are still to be considered comes after `c`. */
  lemma OpenComesLater(g: CallGraph, start: string, s: State, c: Chain, es: seq<CallEdge>, q: Chain)
    requires Treating(g, start, s, c, es)
    requires IsChain(g, start, q) && End(start, q) in Ends(start, s.queue) + {End(start, c)}
    ensures Before(c, q)
  {
    if End(start, q) != End(start, c) {
      var p :| p in s.queue && End(start, p) == End(start, q);
      assert Behind(c, p, es) && First(g, start, p);
      BeforeTransitive(c, p, q);
    }
  }

  /** A chain that leaves the visited methods is longer than the chain under treatment. */
  lemma {:induction false} LeavesLater(g: CallGraph, start: string, s: State, c: Chain, es: seq<CallEdge>, r: Chain)
    requires Treating(g, start, s, c, es)
    requires IsChain(g, start, r) && End(start, r) !in s.visited
    ensures |r| > |c|
  {
    var q := Front(r);
    if End(start, q) !in s.visited {
      LeavesLater(g, start, s, c, es, q);
    } else {
      assert Follows(g, End(start, q), Last(r));
      OpenComesLater(g, start, s, c, es, q);
    }
  }

  lemma Extends(c: Chain, e: CallEdge)
    ensures Front(c + [e]) == c && Last(c + [e]) == e
  {
  }

  lemma SameEnd(start: string, p: Chain, q: Chain)
    requires SameKeys(p, q)
    ensures End(start, p) == End(start, q)
  {
  }

  /** `e` is the next call to consider: those of `done` sort before it, all others after. */
  ghost predicate IsNext(g: CallGraph, u: string, done: seq<CallEdge>, e: CallEdge) {
    && e in g.Calls(u)
    && (forall f :: f in done ==> KeyLe(f, e))
    && (forall f :: f in g.Calls(u) ==> f in done || KeyLe(e, f))
  }

  lemma NewBefore(g: CallGraph, start: string, s: State, c: Chain, done: seq<CallEdge>, e: CallEdge, r: Chain)
    requires Treating(g, start, s, c, done) && IsNext(g, End(start, c), done, e)
    requires e.callee !in s.visited && IsChain(g, start, r) && End(start, r) == e.callee
    ensures Before(c + [e], r)
  {
    var q := Front(r);
    Extends(c, e);
    if End(start, q) !in s.visited {
      LeavesLater(g, start, s, c, done, q);
    } else {
      assert Follows(g, End(start, q), Last(r));
      OpenComesLater(g, start, s, c, done, q);
      if SameKeys(c, q) { SameEnd(start, c, q); }
    }
  }

  /** The call that reaches a method for the first time completes its first chain. */
  lemma NewIsFirst(g: CallGraph, start: string, s: State, c: Chain, done: seq<CallEdge>, e: CallEdge)
    requires Treating(g, start, s, c, done) && IsNext(g, End(start, c), done, e)
    requires Follows(g, End(start, c), e) && e.callee !in s.visited
    ensures First(g, start, c + [e])
  {
    Extends(c, e);
    forall r | IsChain(g, start, r) && End(start, r) == e.callee ensures Before(c + [e], r) {
      NewBefore(g, start, s, c, done, e, r);
    }
  }

  // ----- one lemma per step

  lemma Starts(g: CallGraph, start: string)
    ensures Inv(g, start, State({start}, [[]]), {})
  {
    var none: Chain := [];
    assert none in [none] && End(start, none) in Ends(start, [none]);
  }

  lemma EndsAppend(start: string, queue: seq<Chain>, p: Chain)
    ensures Ends(start, queue + [p]) == Ends(start, queue) + {End(start, p)}
  {
    assert forall q :: q in queue + [p] <==> q in queue || q == p;
  }

  lemma OrderedTail(start: string, queue: seq<Chain>)
    requires queue != [] && Ordered(start, queue) && Compact(queue)
    ensures Ordered(start, queue[1..]) && Compact(queue[1..])
    ensures Waits(queue[0], queue[1..], [])
    ensures Ends(start, queue) == Ends(start, queue[1..]) + {End(start, queue[0])}
    ensures End(start, queue[0]) !in Ends(start, queue[1..])
  {
    var c, rest := queue[0], queue[1..];
    assert queue == [c] + rest;
    assert forall p :: p in queue <==> p == c || p in rest;
    forall i, j | 0 <= i < j < |rest| ensures Before(rest[i], rest[j]) && End(start, rest[i]) != End(start, rest[j]) {
      assert rest[i] == queue[i + 1] && rest[j] == queue[j + 1];
    }
    forall p | p in rest ensures Behind(c, p, []) && End(start, c) != End(start, p) {
      var i :| 0 <= i < |rest| && rest[i] == p;
      assert queue[i + 1] == p;
    }
  }

  lemma TreatStarts(g: CallGraph, start: string, s: State)
    requires s.queue != [] && Inv(g, start, s, {})
    ensures Treating(g, start, State(s.visited, s.queue[1..]), s.queue[0], [])
  {
    OrderedTail(start, s.queue);
    assert s.queue[0] in s.queue;
    assert forall p :: p in s.queue[1..] ==> p in s.queue;
  }

  function Pushed(s: State, c: Chain, e: CallEdge): State {
    State(s.visited + {e.callee}, s.queue + [c + [e]])
  }

  lemma PushFits(start: string, c: Chain, done: seq<CallEdge>, e: CallEdge, q: Chain)
    requires Behind(c, q, done) && End(start, q) != End(start, c)
    requires forall f :: f in done ==> KeyLe(f, e)
    ensures Before(q, c + [e]) && Close(q, c + [e]) && Close(c + [e], q)
  {
    Extends(c, e);
    if SameKeys(c, q) { SameEnd(start, c, q); }
    SameKeysReflexive(c);
  }

  lemma AllFit(g: CallGraph, start: string, s: State, c: Chain, done: seq<CallEdge>, e: CallEdge)
    requires Treating(g, start, s, c, done) && IsNext(g, End(start, c), done, e) && e.callee !in s.visited
    ensures forall q :: q in s.queue ==> Before(q, c + [e]) && Close(q, c + [e]) && Close(c + [e], q) && End(start, q) != e.callee
  {
    forall q | q in s.queue
      ensures Before(q, c + [e]) && Close(q, c + [e]) && Close(c + [e], q) && End(start, q) != e.callee
    {
      assert End(start, q) in Ends(start, s.queue);
      PushFits(start, c, done, e, q);
    }
  }

  lemma PushOrdered(start: string, queue: seq<Chain>, p: Chain)
    requires Ordered(start, queue) && Compact(queue)
    requires forall q :: q in queue ==> Before(q, p) && Close(q, p) && Close(p, q) && End(start, q) != End(start, p)
    ensures Ordered(start, queue + [p]) && Compact(queue + [p])
  {
    var all := queue + [p];
    forall i, j | 0 <= i < j < |all| ensures Before(all[i], all[j]) && End(start, all[i]) != End(start, all[j]) {
      assert all[i] in queue;
    }
    assert forall q :: q in all <==> q in queue || q == p;
  }

  lemma PushWaits(c: Chain, queue: seq<Chain>, done: seq<CallEdge>, e: CallEdge)
    requires Waits(c, queue, done)
    ensures Waits(c, queue + [c + [e]], done + [e]) && Waits(c, queue, done + [e])
  {
    Extends(c, e);
    assert Behind(c, c + [e], done + [e]);
    forall q | q in queue ensures Behind(c, q, done + [e]) { assert Behind(c, q, done); }
    assert forall q :: q in queue + [c + [e]] <==> q in queue || q == c + [e];
  }

  /** A new target is queued behind everything that waits. */
  lemma PushKeeps(g: CallGraph, start: string, s: State, c: Chain, done: seq<CallEdge>, e: CallEdge)
    requires Treating(g, start, s, c, done) && IsNext(g, End(start, c), done, e)
    requires Follows(g, End(start, c), e) && e.callee !in s.visited
    ensures Treating(g, start, Pushed(s, c, e), c, done + [e])
  {
    var p := c + [e];
    Extends(c, e);
    NewIsFirst(g, start, s, c, done, e);
    AllFit(g, start, s, c, done, e);
    PushOrdered(start, s.queue, p);
    PushWaits(c, s.queue, done, e);
    EndsAppend(start, s.queue, p);
    assert Firsts(g, start, s.visited + {e.callee}, s.queue + [p]);
  }

  lemma SkipKeeps(g: CallGraph, start: string, s: State, c: Chain, done: seq<CallEdge>, e: CallEdge)
    requires Treating(g, start, s, c, done)
    requires !Follows(g, End(start, c), e) || e.callee in s.visited
    ensures Treating(g, start, s, c, done + [e])
  {
    PushWaits(c, s.queue, done, e);
  }

  lemma TreatEnds(g: CallGraph, start: string, s: State, c: Chain, es: seq<CallEdge>)
    requires Treating(g, start, s, c, es) && forall e :: e in g.Calls(End(start, c)) ==> e in es
    ensures Inv(g, start, s, {})
  {
  }

  /** With an empty queue every method that a chain reaches is visited. */
  lemma {:induction false} AllVisited(g: CallGraph, start: string, s: State, r: Chain)
    requires Inv(g, start, s, {}) && s.queue == [] && IsChain(g, start, r)
    ensures End(start, r) in s.visited
  {
    if r != [] {
      AllVisited(g, start, s, Front(r));
      assert Ends(start, []) == {} && Follows(g, End(start, Front(r)), Last(r));
    }
  }

  // ----- the search

  lemma NextInOrder(g: CallGraph, u: string, i: nat)
    requires i < |Sorted(g, u)|
    ensures IsNext(g, u, Sorted(g, u)[..i], Sorted(g, u)[i])
  {
    var es := Sorted(g, u);
    KeyReflexive(es[i]);
    Order.SplitsAt(es, KeyLe, i);
    assert es[i] in es;
  }

  lemma KeyReflexive(e: CallEdge)
    ensures KeyLe(e, e)
  {
    Text.LeReflexive(e.callee);
  }

  /** The methods along a chain. */
  function Stops(start: string, p: Chain): seq<string> {
    [start] + seq(|p|, i requires 0 <= i < |p| => p[i].callee)
  }

  /** The element that the search queues for a chain. */
  datatype Entry = Entry(current: string, methodPath: seq<string>, edgePath: Chain)

  function EntryFor(start: string, p: Chain): Entry { Entry(End(start, p), Stops(start, p), p) }

  ghost predicate Queues(start: string, queue: seq<Entry>, chains: seq<Chain>) {
    |queue| == |chains| && forall i :: 0 <= i < |queue| ==> queue[i] == EntryFor(start, chains[i])
  }

  ghost function Universe(g: CallGraph, start: string): set<string> {
    {start} + set u, e | u in g.adjacency && e in g.adjacency[u] :: e.callee
  }

  ghost function Unvisited(g: CallGraph, start: string, visited: set<string>): nat {
    |Universe(g, start) - visited|
  }

  lemma OneFewer(all: set<string>, visited: set<string>, x: string)
    requires x in all && x !in visited
    ensures |all - (visited + {x})| < |all - visited|
  {
    assert all - visited == (all - (visited + {x})) + {x};
  }

  /** The target waits, if it was met. */
  ghost predicate Sought(start: string, s: State, target: string) {
    target in s.visited ==> target in Ends(start, s.queue)
  }

  lemma SoughtPush(start: string, s: State, c: Chain, e: CallEdge, target: string)
    requires Sought(start, s, target)
    ensures Sought(start, Pushed(s, c, e), target)
  {
    EndsAppend(start, s.queue, c + [e]);
  }

  lemma QueuesPush(start: string, queue: seq<Entry>, chains: seq<Chain>, entry: Entry, e: CallEdge)
    requires Queues(start, queue, chains) && entry == EntryFor(start, entry.edgePath)
    ensures Queues(start, queue + [Entry(e.callee, entry.methodPath + [e.callee], entry.edgePath + [e])],
              chains + [entry.edgePath + [e]])
  {
    assert Stops(start, entry.edgePath + [e]) == entry.methodPath + [e.callee];
  }

  lemma CallFewer(g: CallGraph, start: string, visited: set<string>, u: string, e: CallEdge)
    requires e in g.Calls(u) && e.callee !in visited
    ensures Unvisited(g, start, visited + {e.callee}) < Unvisited(g, start, visited)
  {
    assert u in g.adjacency;
    OneFewer(Universe(g, start), visited, e.callee);
  }

  /** The search while the calls of `entry` are considered. */
  ghost predicate Considering(g: CallGraph, start: string, target: string, entry: Entry, s: State, queue: seq<Entry>, es: seq<CallEdge>) {
    && Queues(start, queue, s.queue) && entry == EntryFor(start, entry.edgePath)
    && Treating(g, start, s, entry.edgePath, es) && Sought(start, s, target)
  }

  lemma Consider(g: CallGraph, start: string, target: string, entry: Entry, s: State, queue: seq<Entry>, done: seq<CallEdge>, e: CallEdge)
    requires Considering(g, start, target, entry, s, queue, done) && IsNext(g, entry.current, done, e)
    requires Follows(g, entry.current, e) && e.callee !in s.visited
    ensures Considering(g, start, target, entry, Pushed(s, entry.edgePath, e),
              queue + [Entry(e.callee, entry.methodPath + [e.callee], entry.edgePath + [e])], done + [e])
    ensures Unvisited(g, start, s.visited + {e.callee}) < Unvisited(g, start, s.visited)
  {
    PushKeeps(g, start, s, entry.edgePath, done, e);
    CallFewer(g, start, s.visited, entry.current, e);
    QueuesPush(start, queue, s.queue, entry, e);
    SoughtPush(start, s, entry.edgePath, e, target);
  }

  lemma AllConsidered(g: CallGraph, start: string, s: State, c: Chain, es: seq<CallEdge>)
    requires Treating(g, start, s, c, es[..|es|]) && es == Sorted(g, End(start, c))
    ensures Inv(g, start, s, {})
  {
    assert es[..|es|] == es;
    TreatEnds(g, start, s, c, es);
  }

  /** Considers the calls of one method in order. */
  method TreatCalls(g: CallGraph, start: string, target: string, entry: Entry, visited: set<string>, queue: seq<Entry>, ghost chains: seq<Chain>)
    returns (visited': set<string>, queue': seq<Entry>, ghost chains': seq<Chain>)
    requires g.Valid() && Considering(g, start, target, entry, State(visited, chains), queue, [])
    ensures Queues(start, queue', chains') && Inv(g, start, State(visited', chains'), {})
    ensures Sought(start, State(visited', chains'), target)
    ensures Unvisited(g, start, visited') < Unvisited(g, start, visited) || (visited' == visited && queue' == queue)
  {
    visited', queue', chains' := visited, queue, chains;
    var es := Sorted(g, entry.current);
    for i := 0 to |es|
      invariant Considering(g, start, target, entry, State(visited', chains'), queue', es[..i])
      invariant Unvisited(g, start, visited') < Unvisited(g, start, visited) || (visited' == visited && queue' == queue)
    {
      var edge := es[i];
      NextInOrder(g, entry.current, i);
      Order.TakeNext(es, i);
      if !g.Allowed(edge) || edge.callee in visited' {
        SkipKeeps(g, start, State(visited', chains'), entry.edgePath, es[..i], edge);
        continue;
      }
      Consider(g, start, target, entry, State(visited', chains'), queue', es[..i], edge);
      visited' := visited' + {edge.callee};
      queue' := queue' + [Entry(edge.callee, entry.methodPath + [edge.callee], entry.edgePath + [edge])];
      chains' := chains' + [entry.edgePath + [edge]];
    }
    AllConsidered(g, start, State(visited', chains'), entry.edgePath, es);
  }

  /** The queue's first entry: either its end is the target, or its calls come next. */
  lemma Pop(g: CallGraph, start: string, target: string, s: State, queue: seq<Entry>)
    requires s.queue != [] && Queues(start, queue, s.queue) && Inv(g, start, s, {}) && Sought(start, s, target)
    ensures First(g, start, queue[0].edgePath) && queue[0] == EntryFor(start, queue[0].edgePath)
    ensures queue[0].current != target ==>
      Considering(g, start, target, queue[0], State(s.visited, s.queue[1..]), queue[1..], [])
  {
    TreatStarts(g, start, s);
    OrderedTail(start, s.queue);
  }

  lemma NotFound(g: CallGraph, start: string, target: string, s: State)
    requires s.queue == [] && Inv(g, start, s, {}) && Sought(start, s, target)
    ensures forall p :: IsChain(g, start, p) ==> End(start, p) != target
  {
    assert Ends(start, []) == {};
    forall p | IsChain(g, start, p) ensures End(start, p) != target { AllVisited(g, start, s, p); }
  }

  ghost predicate Ready(g: CallGraph, start: string, target: string, s: State, queue: seq<Entry>) {
    Queues(start, queue, s.queue) && Inv(g, start, s, {}) && Sought(start, s, target)
  }

  lemma ReadyAtStart(g: CallGraph, start: string, target: string)
    ensures Ready(g, start, target, State({start}, [[]]), [Entry(start, [start], [])])
  {
    Starts(g, start);
    var none: Chain := [];
    assert Stops(start, none) == [start];
    assert none in [none] && End(start, none) in Ends(start, [none]);
  }

  /** `_shortest_method_path`: of the shortest chains of allowed calls, the one that comes
      first in the order of calls; nothing exactly when no chain leads to the target. */
  method ShortestMethodPath(g: CallGraph, start: string, target: string) returns (r: Option<(seq<string>, Chain)>)
    requires g.Valid()
    ensures r.Some? ==> First(g, start, r.value.1) && End(start, r.value.1) == target && r.value.0 == Stops(start, r.value.1)
    ensures r.None? <==> forall p :: IsChain(g, start, p) ==> End(start, p) != target
  {
    var queue := [Entry(start, [start], [])];
    var visited := {start};
    ghost var chains: seq<Chain> := [[]];
    ReadyAtStart(g, start, target);
    while queue != []
      invariant Ready(g, start, target, State(visited, chains), queue)
      decreases Unvisited(g, start, visited), |queue|
    {
      var entry := queue[0];
      Pop(g, start, target, State(visited, chains), queue);
      if entry.current == target { return Some((entry.methodPath, entry.edgePath)); }
      visited, queue, chains := TreatCalls(g, start, target, entry, visited, queue[1..], chains[1..]);
    }
    NotFound(g, start, target, State(visited, chains));
    return None;
  }

  /** The chain found is a shortest one. */
  lemma FirstIsShortest(g: CallGraph, start: string, p: Chain, q: Chain)
    requires First(g, start, p) && IsChain(g, start, q) && End(start, q) == End(start, p)
    ensures |p| <= |q|
  {
    assert Before(p, q);
  }
}
