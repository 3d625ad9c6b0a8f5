/** The routes of one service that a call reaches: the most specific of those that match
    (domain/graph.py). */
module RouteSelection {
  import opened Basics
  import opened RouteMatching

  datatype Route = Route(id: string, topic: string)

  // ----- ranks

  datatype Rank = Rank(guesses: nat, wildcard: nat, bound: nat, anyMethod: nat)

  /** Tuples compare by their first difference. */
  predicate RankLe(a: Rank, b: Rank) {
    if a.guesses != b.guesses then a.guesses < b.guesses
    else if a.wildcard != b.wildcard then a.wildcard < b.wildcard
    else if a.bound != b.bound then a.bound < b.bound
    else a.anyMethod <= b.anyMethod
  }

  /** How many of the first `n` segments of `a` are templates against a literal of `b`. */
  function TemplatesOver(a: seq<string>, b: seq<string>, n: nat): nat
    requires n <= |a| && n <= |b|
  {
    if n == 0 then 0 else
      TemplatesOver(a, b, n - 1) + (if IsTemplate(a[n - 1]) && !IsTemplate(b[n - 1]) then 1 else 0)
  }

  function TopicRank(call: string, serve: string): Rank {
    var c, s := Segments(call), Segments(serve);
    var n, any := Min(|c|, |s|), if Method(serve) == "ANY" && Method(call) != "ANY" then 1 else 0;
    if IsOpen(s) then Rank(0, 1, |s|, any)
    else Rank(if TemplatesOver(c, s, n) != 0 then 1 else 0, 0, TemplatesOver(s, c, n), any)
  }

  /** A call with any method is ranked per served method. */
  function MethodGroup(call: string, serve: string): string {
    if Method(call) == "ANY" then Method(serve) else ""
  }

  // ----- what is selected

  /** One call against the routes of one service. */
  datatype Query = Query(fits: Constraint, call: string) {
    predicate Matches(r: Route) { PathsMatch(fits, call, r.topic) }

    function RankOf(r: Route): Rank { TopicRank(call, r.topic) }

    function GroupOf(r: Route): string { MethodGroup(call, r.topic) }

    predicate Rivals(a: Route, b: Route) { Matches(b) && GroupOf(a) == GroupOf(b) }

    /** No matching route of the group ranks lower. */
    predicate IsBest(routes: seq<Route>, r: Route) {
      forall other | other in routes :: Rivals(r, other) ==> RankLe(RankOf(r), RankOf(other))
    }

    /** Every matching route of the group guesses a value of the call. */
    predicate AllGuess(routes: seq<Route>, r: Route) {
      forall other | other in routes :: Rivals(r, other) ==> RankOf(other).guesses != 0
    }

    predicate Keeps(routes: seq<Route>, r: Route) {
      Matches(r) && (IsOpen(Segments(call)) || IsBest(routes, r) || AllGuess(routes, r))
    }
  }

  function Kept(q: Query, all: seq<Route>, routes: seq<Route>): (r: seq<Route>)
    ensures forall x :: x in r <==> x in routes && q.Keeps(all, x)
  {
    if routes == [] then [] else
      var last := routes[|routes| - 1];
      assert routes == routes[..|routes| - 1] + [last];
      Kept(q, all, routes[..|routes| - 1]) + (if q.Keeps(all, last) then [last] else [])
  }

  /** `select_matching_routes` for a list of routes with distinct ids. */
  function Selected(q: Query, routes: seq<Route>): seq<Route> { Kept(q, routes, routes) }

  ghost predicate DistinctIds(routes: seq<Route>) {
    forall a, b :: a in routes && b in routes && a.id == b.id ==> a == b
  }

  // ----- the properties of the selection

  lemma RankTotal(a: Rank, b: Rank, c: Rank)
    ensures RankLe(a, a) && (RankLe(a, b) || RankLe(b, a))
    ensures RankLe(a, b) && RankLe(b, c) ==> RankLe(a, c)
  {
  }

  /** Every group has a route of lowest rank. */
  lemma {:induction false} BestExists(q: Query, routes: seq<Route>, r: Route) returns (best: Route)
    requires r in routes && q.Matches(r)
    ensures best in routes && q.Rivals(r, best) && q.IsBest(routes, best)
  {
    var n := |routes| - 1;
    var front, last := routes[..n], routes[n];
    assert routes == front + [last];
    if r in front {
      best := BestExists(q, front, r);
      if q.Rivals(r, last) && !RankLe(q.RankOf(best), q.RankOf(last)) {
        forall other | other in routes && q.Rivals(last, other) ensures RankLe(q.RankOf(last), q.RankOf(other)) {
          RankTotal(q.RankOf(last), q.RankOf(best), q.RankOf(other));
        }
        best := last;
      }
    } else {
      best := r;
      if x :| x in front && q.Rivals(r, x) {
        best := BestExists(q, front, x);
        if !RankLe(q.RankOf(best), q.RankOf(r)) {
          forall other | other in routes && q.Rivals(r, other) ensures RankLe(q.RankOf(r), q.RankOf(other)) {
            RankTotal(q.RankOf(r), q.RankOf(best), q.RankOf(other));
          }
          best := r;
        }
      }
      RankTotal(q.RankOf(r), q.RankOf(r), q.RankOf(r));
    }
  }

  /** Some route is selected exactly when some route matches. */
  lemma SelectsIffMatches(q: Query, routes: seq<Route>)
    ensures Selected(q, routes) != [] <==> exists r :: r in routes && q.Matches(r)
  {
    if r :| r in routes && q.Matches(r) {
      var best := BestExists(q, routes, r);
      assert q.Keeps(routes, best) && best in Selected(q, routes);
    }
    if Selected(q, routes) != [] { assert Selected(q, routes)[0] in Selected(q, routes); }
  }

  /** The order and the multiplicity of the routes do not matter. */
  lemma OrderIrrelevant(q: Query, a: seq<Route>, b: seq<Route>)
    requires forall r :: r in a <==> r in b
    ensures forall r :: r in Selected(q, a) <==> r in Selected(q, b)
  {
    forall r ensures q.Keeps(a, r) <==> q.Keeps(b, r) {}
  }

  /** A group keeps its best rank, and with it the reason why each of its routes was kept. */
  lemma KeptAgain(q: Query, routes: seq<Route>, r: Route)
    requires r in Selected(q, routes)
    ensures q.Keeps(Selected(q, routes), r)
  {
    if !IsOpen(Segments(q.call)) && !q.IsBest(routes, r) {
      forall other | other in Selected(q, routes) && q.Rivals(r, other) ensures q.RankOf(other).guesses != 0 {}
    }
  }

  lemma {:induction false} KeptAll(q: Query, all: seq<Route>, routes: seq<Route>)
    requires forall r :: r in routes ==> q.Keeps(all, r)
    ensures Kept(q, all, routes) == routes
  {
    if routes != [] {
      var n := |routes| - 1;
      assert routes == routes[..n] + [routes[n]];
      KeptAll(q, all, routes[..n]);
    }
  }

  /** Selecting among the selected routes changes nothing. */
  lemma SelectIdempotent(q: Query, routes: seq<Route>)
    ensures Selected(q, Selected(q, routes)) == Selected(q, routes)
  {
    forall r | r in Selected(q, routes) ensures q.Keeps(Selected(q, routes), r) { KeptAgain(q, routes, r); }
    KeptAll(q, Selected(q, routes), Selected(q, routes));
  }

  /** For a call that does not end in `**`, a group keeps exactly its routes of minimum rank,
      unless the minimum needs a guess: then it keeps all. */
  lemma GroupKeeps(q: Query, routes: seq<Route>, r: Route, best: Route)
    requires r in routes && q.Matches(r) && !IsOpen(Segments(q.call))
    requires best in routes && q.Rivals(r, best) && q.IsBest(routes, best)
    ensures r in Selected(q, routes) <==> q.RankOf(best).guesses != 0 || q.RankOf(r) == q.RankOf(best)
  {
    assert q.Rivals(best, r);
    if q.RankOf(r) == q.RankOf(best) { assert q.IsBest(routes, r); }
    if q.RankOf(best).guesses != 0 { assert q.AllGuess(routes, r); }
  }

  // ----- the method

  method FilterCandidates(q: Query, routes: seq<Route>) returns (candidates: seq<Route>)
    ensures forall r :: r in candidates <==> r in routes && q.Matches(r)
    ensures candidates == Matching(q, routes)
  {
    candidates := [];
    for i := 0 to |routes|
      invariant candidates == Matching(q, routes[..i])
    {
      assert routes[..i + 1][..i] == routes[..i];
      if q.Matches(routes[i]) { candidates := candidates + [routes[i]]; }
    }
    assert routes[..|routes|] == routes;
  }

  function Matching(q: Query, routes: seq<Route>): (r: seq<Route>)
    ensures forall x :: x in r <==> x in routes && q.Matches(x)
  {
    if routes == [] then [] else
      var last := routes[|routes| - 1];
      assert routes == routes[..|routes| - 1] + [last];
      Matching(q, routes[..|routes| - 1]) + (if q.Matches(last) then [last] else [])
  }

  ghost predicate Groups(q: Query, groups: map<string, seq<Route>>, candidates: seq<Route>) {
    forall key :: IsGroup(q, Filed(groups, key), key, candidates)
  }

  ghost predicate IsGroup(q: Query, group: seq<Route>, key: string, candidates: seq<Route>) {
    forall r :: r in group <==> r in candidates && q.GroupOf(r) == key
  }

  lemma FileOne(q: Query, groups: map<string, seq<Route>>, candidates: seq<Route>, i: nat)
    requires i < |candidates| && Groups(q, groups, candidates[..i])
    ensures var key := q.GroupOf(candidates[i]);
      Groups(q, groups[key := Filed(groups, key) + [candidates[i]]], candidates[..i + 1])
  {
    var r, key := candidates[i], q.GroupOf(candidates[i]);
    var after := groups[key := Filed(groups, key) + [r]];
    assert candidates[..i + 1] == candidates[..i] + [r];
    forall k ensures IsGroup(q, Filed(after, k), k, candidates[..i + 1]) {
      assert IsGroup(q, Filed(groups, k), k, candidates[..i]);
      assert Filed(after, k) == if k == key then Filed(groups, k) + [r] else Filed(groups, k);
    }
  }

  method GroupByMethod(q: Query, candidates: seq<Route>) returns (groups: map<string, seq<Route>>)
    ensures Groups(q, groups, candidates) && forall key :: key in groups ==> groups[key] != []
  {
    groups := map[];
    for i := 0 to |candidates|
      invariant Groups(q, groups, candidates[..i]) && forall key :: key in groups ==> groups[key] != []
    {
      var r := candidates[i];
      FileOne(q, groups, candidates, i);
      groups := groups[q.GroupOf(r) := Filed(groups, q.GroupOf(r)) + [r]];
    }
    assert candidates[..|candidates|] == candidates;
  }

  /** The ids that one group contributes. */
  method SelectFromGroup(q: Query, group: seq<Route>) returns (ids: set<string>)
    requires group != [] && forall r :: r in group ==> q.Matches(r)
    requires forall a, b :: a in group && b in group ==> q.GroupOf(a) == q.GroupOf(b)
    requires DistinctIds(group)
    ensures forall r :: r in group ==> (r.id in ids <==> q.IsBest(group, r) || q.AllGuess(group, r))
    ensures forall id :: id in ids ==> exists r :: r in group && r.id == id
  {
    var best := group[0];
    for i := 1 to |group|
      invariant best in group[..i]
      invariant forall r :: r in group[..i] ==> RankLe(q.RankOf(best), q.RankOf(r))
    {
      assert group[..i + 1] == group[..i] + [group[i]];
      var next := if RankLe(q.RankOf(best), q.RankOf(group[i])) then best else group[i];
      forall r | r in group[..i + 1] ensures RankLe(q.RankOf(next), q.RankOf(r)) {
        RankTotal(q.RankOf(group[i]), q.RankOf(best), q.RankOf(r));
      }
      best := next;
    }
    assert group[..|group|] == group;
    var rank := q.RankOf(best);
    if rank.guesses != 0 {
      ids := set r | r in group :: r.id;
    } else {
      ids := set r | r in group && q.RankOf(r) == rank :: r.id;
    }
  }

  /** Within its group a route is judged as among all routes. */
  lemma GroupDecides(q: Query, routes: seq<Route>, groups: map<string, seq<Route>>, candidates: seq<Route>, r: Route)
    requires forall x :: x in candidates <==> x in routes && q.Matches(x)
    requires Groups(q, groups, candidates) && r in candidates
    ensures q.IsBest(Filed(groups, q.GroupOf(r)), r) <==> q.IsBest(routes, r)
    ensures q.AllGuess(Filed(groups, q.GroupOf(r)), r) <==> q.AllGuess(routes, r)
  {
    var group := Filed(groups, q.GroupOf(r));
    assert IsGroup(q, group, q.GroupOf(r), candidates);
    forall other | other in routes && q.Rivals(r, other) ensures other in group { assert other in candidates; }
    forall other | other in group ensures other in routes { assert other in candidates; }
  }

  method SelectIds(q: Query, routes: seq<Route>, candidates: seq<Route>) returns (ids: set<string>)
    requires DistinctIds(routes) && forall x :: x in candidates <==> x in routes && q.Matches(x)
    ensures forall r :: r in candidates ==> (r.id in ids <==> q.IsBest(routes, r) || q.AllGuess(routes, r))
  {
    var groups := GroupByMethod(q, candidates);
    ids := {};
    var todo := groups.Keys;
    forall r | r in candidates ensures q.GroupOf(r) in groups {
      assert IsGroup(q, Filed(groups, q.GroupOf(r)), q.GroupOf(r), candidates);
    }
    while todo != {}
      invariant todo <= groups.Keys
      invariant forall r :: r in candidates && q.GroupOf(r) !in todo ==> (r.id in ids <==> q.IsBest(routes, r) || q.AllGuess(routes, r))
      invariant forall r :: r in candidates && q.GroupOf(r) in todo ==> r.id !in ids
      decreases todo
    {
      var key :| key in todo;
      var chosen := ChooseInGroup(q, routes, candidates, groups, key);
      ids := ids + chosen;
      todo := todo - {key};
    }
  }

  method ChooseInGroup(q: Query, ghost routes: seq<Route>, ghost candidates: seq<Route>, groups: map<string, seq<Route>>, key: string) returns (ids: set<string>)
    requires DistinctIds(routes) && forall x :: x in candidates <==> x in routes && q.Matches(x)
    requires Groups(q, groups, candidates) && key in groups && groups[key] != []
    ensures forall r :: r in candidates ==>
      (r.id in ids <==> q.GroupOf(r) == key && (q.IsBest(routes, r) || q.AllGuess(routes, r)))
  {
    var group := groups[key];
    assert IsGroup(q, Filed(groups, key), key, candidates);
    ids := SelectFromGroup(q, group);
    forall r | r in candidates
      ensures r.id in ids <==> q.GroupOf(r) == key && (q.IsBest(routes, r) || q.AllGuess(routes, r))
    {
      if q.GroupOf(r) == key { GroupDecides(q, routes, groups, candidates, r); }
    }
  }

  /** `select_matching_routes`: exactly the routes that the rules keep, in their order. */
  method SelectMatchingRoutes(q: Query, routes: seq<Route>) returns (selected: seq<Route>)
    requires DistinctIds(routes)
    ensures selected == Selected(q, routes)
  {
    var candidates := FilterCandidates(q, routes);
    KeptMatching(q, routes, routes);
    if |candidates| < 2 || IsOpen(Segments(q.call)) {
      forall r | r in candidates ensures q.Keeps(routes, r) {
        if |candidates| < 2 { OnlyCandidate(q, routes, candidates, r); }
      }
      KeptAll(q, routes, candidates);
      return candidates;
    }
    var ids := SelectIds(q, routes, candidates);
    selected := PickIds(q, routes, candidates, ids);
  }

  /** The candidates whose ids were chosen. */
  method PickIds(q: Query, ghost routes: seq<Route>, candidates: seq<Route>, ids: set<string>) returns (selected: seq<Route>)
    requires forall r :: r in candidates ==> (r.id in ids <==> q.Keeps(routes, r))
    ensures selected == Kept(q, routes, candidates)
  {
    selected := [];
    for i := 0 to |candidates|
      invariant selected == Kept(q, routes, candidates[..i])
    {
      assert candidates[..i + 1] == candidates[..i] + [candidates[i]] && candidates[i] in candidates;
      KeptAppend(q, routes, candidates[..i], candidates[i]);
      if candidates[i].id in ids { selected := selected + [candidates[i]]; }
    }
    assert candidates[..|candidates|] == candidates;
  }

  lemma KeptAppend(q: Query, all: seq<Route>, routes: seq<Route>, r: Route)
    ensures Kept(q, all, routes + [r]) == Kept(q, all, routes) + (if q.Keeps(all, r) then [r] else [])
  {
    assert (routes + [r])[..|routes|] == routes;
  }

  lemma {:induction false} KeptMatching(q: Query, all: seq<Route>, routes: seq<Route>)
    ensures Kept(q, all, Matching(q, routes)) == Kept(q, all, routes)
  {
    if routes != [] {
      var n := |routes| - 1;
      assert routes == routes[..n] + [routes[n]];
      KeptMatching(q, all, routes[..n]);
      KeptAppend(q, all, routes[..n], routes[n]);
      if q.Matches(routes[n]) {
        KeptAppend(q, all, Matching(q, routes[..n]), routes[n]);
        assert Matching(q, routes) == Matching(q, routes[..n]) + [routes[n]];
      } else {
        assert !q.Keeps(all, routes[n]);
        assert Matching(q, routes) == Matching(q, routes[..n]);
      }
    }
  }

  lemma OnlyCandidate(q: Query, routes: seq<Route>, candidates: seq<Route>, r: Route)
    requires |candidates| < 2 && (forall x :: x in candidates <==> x in routes && q.Matches(x))
    requires r in routes && q.Matches(r)
    ensures q.IsBest(routes, r)
  {
    forall other | other in routes && q.Rivals(r, other) ensures other == r {
      assert r in candidates && other in candidates && candidates[0] == r == other;
    }
  }
}
