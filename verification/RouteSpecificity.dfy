/** Which of several matching routes a call reaches, read off the topics (domain/graph.py). */
module RouteSpecificity {
  import opened Basics
  import opened RouteMatching
  import opened RouteSelection

  /** The route needs a value of the call to be guessed: a literal against a template of the call. */
  predicate Guesses(call: string, serve: string) {
    var c, s := Segments(call), Segments(serve);
    !IsOpen(s) && exists i | 0 <= i < |c| && i < |s| :: IsTemplate(c[i]) && !IsTemplate(s[i])
  }

  /** Where a template of the route stands against a literal of the call. */
  function Bound(call: string, serve: string): set<int> {
    var c, s := Segments(call), Segments(serve);
    set i | 0 <= i < |s| && i < |c| && IsTemplate(s[i]) && !IsTemplate(c[i])
  }

  /** Any method, where the call has one. */
  predicate Vague(call: string, serve: string) { Method(serve) == "ANY" && Method(call) != "ANY" }

  /** Both are routes of the call's method: a call with any method takes each method apart. */
  predicate SameMethod(call: string, a: string, b: string) { Method(call) == "ANY" ==> Method(a) == Method(b) }

  /** `a` is more specific than `b`: it needs no guess, or it does not end in `**`, or of two that
      do it is shorter, or it binds fewer literals to templates, or it names the method. */
  predicate Beats(call: string, a: string, b: string) {
    if Guesses(call, a) != Guesses(call, b) then !Guesses(call, a)
    else if IsOpen(Segments(a)) != IsOpen(Segments(b)) then !IsOpen(Segments(a))
    else
      var m, n := if IsOpen(Segments(a)) then |Segments(a)| else |Bound(call, a)|, if IsOpen(Segments(b)) then |Segments(b)| else |Bound(call, b)|;
      if m != n then m < n else !Vague(call, a) && Vague(call, b)
  }

  // ----- the ranks of the code

  lemma {:induction false} TemplatesCounted(a: seq<string>, b: seq<string>, n: nat)
    requires n <= |a| && n <= |b|
    ensures TemplatesOver(a, b, n) == |set i | 0 <= i < n && IsTemplate(a[i]) && !IsTemplate(b[i])|
  {
    if n != 0 {
      TemplatesCounted(a, b, n - 1);
      var before := set i | 0 <= i < n - 1 && IsTemplate(a[i]) && !IsTemplate(b[i]);
      var all := set i | 0 <= i < n && IsTemplate(a[i]) && !IsTemplate(b[i]);
      if IsTemplate(a[n - 1]) && !IsTemplate(b[n - 1]) { assert all == before + {n - 1}; } else { assert all == before; }
    }
  }

  lemma {:induction false} TemplatesFound(a: seq<string>, b: seq<string>, n: nat)
    requires n <= |a| && n <= |b|
    ensures TemplatesOver(a, b, n) != 0 <==> exists i :: 0 <= i < n && IsTemplate(a[i]) && !IsTemplate(b[i])
  {
    if n != 0 { TemplatesFound(a, b, n - 1); }
  }

  lemma RankMeans(call: string, serve: string)
    ensures var rank, s := TopicRank(call, serve), Segments(serve);
      && (rank.guesses == if Guesses(call, serve) then 1 else 0) && (rank.wildcard == if IsOpen(s) then 1 else 0)
      && (rank.bound == if IsOpen(s) then |s| else |Bound(call, serve)|) && (rank.anyMethod == if Vague(call, serve) then 1 else 0)
  {
    var c, s := Segments(call), Segments(serve);
    var n := Min(|c|, |s|);
    TemplatesFound(c, s, n);
    TemplatesCounted(s, c, n);
    assert Bound(call, serve) == set i | 0 <= i < n && IsTemplate(s[i]) && !IsTemplate(c[i]);
  }

  lemma BeatsIff(call: string, a: string, b: string)
    ensures RankLe(TopicRank(call, a), TopicRank(call, b)) <==> !Beats(call, b, a)
  {
    RankMeans(call, a);
    RankMeans(call, b);
  }

  // ----- what is selected

  /** Another route of the list that the call matches with the same method. */
  ghost predicate Competes(q: Query, routes: seq<Route>, r: Route, other: Route) {
    other in routes && PathsMatch(q.fits, q.call, other.topic) && SameMethod(q.call, r.topic, other.topic)
  }

  /** No competing route is more specific, or all of them need a guess, or the call itself ends
      in `**`. */
  ghost predicate Survives(q: Query, routes: seq<Route>, r: Route) {
    || IsOpen(Segments(q.call))
    || (forall other :: Competes(q, routes, r, other) ==> !Beats(q.call, other.topic, r.topic))
    || (forall other :: Competes(q, routes, r, other) ==> Guesses(q.call, other.topic))
  }

  /** Exactly the matching routes that survive are selected. */
  lemma SelectedIff(q: Query, routes: seq<Route>, r: Route)
    ensures r in Selected(q, routes) <==> r in routes && PathsMatch(q.fits, q.call, r.topic) && Survives(q, routes, r)
  {
    forall other ensures Competes(q, routes, r, other) <==> other in routes && q.Rivals(r, other) {}
    forall other ensures RankLe(q.RankOf(r), q.RankOf(other)) <==> !Beats(q.call, other.topic, r.topic) {
      BeatsIff(q.call, r.topic, other.topic);
    }
    forall other ensures q.RankOf(other).guesses != 0 <==> Guesses(q.call, other.topic) { RankMeans(q.call, other.topic); }
  }

  /** A more specific route that needs no guess shuts the other one out. */
  lemma BeatenIsOut(q: Query, routes: seq<Route>, a: Route, b: Route)
    requires !IsOpen(Segments(q.call)) && a in routes && PathsMatch(q.fits, q.call, a.topic) && SameMethod(q.call, b.topic, a.topic)
    requires Beats(q.call, a.topic, b.topic) && !Guesses(q.call, a.topic)
    ensures b !in Selected(q, routes)
  {
    SelectedIff(q, routes, b);
    assert Competes(q, routes, b, a);
  }

  /** `a` has a literal of its own where `b` has a template against a literal of the call, at least
      once, and is equal to `b` elsewhere. */
  predicate SharperThan(call: seq<string>, a: seq<string>, b: seq<string>) {
    && |a| == |b|
    && (forall i | 0 <= i < |a| :: a[i] == b[i] || Sharper(call, a, b, i))
    && exists i | 0 <= i < |a| :: Sharper(call, a, b, i)
  }

  predicate Sharper(call: seq<string>, a: seq<string>, b: seq<string>, i: int)
    requires 0 <= i < |a| == |b|
  {
    i < |call| && !IsTemplate(call[i]) && !IsTemplate(a[i]) && IsTemplate(b[i])
  }

  lemma SharperBeats(call: string, a: string, b: string)
    requires SharperThan(Segments(call), Segments(a), Segments(b)) && !IsOpen(Segments(a)) && !IsOpen(Segments(b))
    ensures Beats(call, a, b) && (Guesses(call, a) <==> Guesses(call, b))
  {
    var c, s, t := Segments(call), Segments(a), Segments(b);
    var i :| 0 <= i < |s| && Sharper(c, s, t, i);
    assert i in Bound(call, b) && i !in Bound(call, a) && Bound(call, a) <= Bound(call, b) - {i};
    SubsetSize(Bound(call, a), Bound(call, b) - {i});
    forall j | 0 <= j < |c| && j < |s| && IsTemplate(c[j]) ensures s[j] == t[j] {}
  }

  /** A literal wins over a template: `GET /items/count` over `GET /items/{id}`. */
  lemma LiteralWins(q: Query, routes: seq<Route>, a: Route, b: Route)
    requires !IsOpen(Segments(q.call)) && a in routes && PathsMatch(q.fits, q.call, a.topic) && SameMethod(q.call, b.topic, a.topic)
    requires SharperThan(Segments(q.call), Segments(a.topic), Segments(b.topic))
    requires !IsOpen(Segments(a.topic)) && !IsOpen(Segments(b.topic)) && !Guesses(q.call, a.topic)
    ensures b !in Selected(q, routes)
  {
    SharperBeats(q.call, a.topic, b.topic);
    BeatenIsOut(q, routes, a, b);
  }

  /** A route without `**` that needs no guess wins over one that ends in it; of two that end in
      it the shorter one wins. */
  lemma WildcardLoses(q: Query, routes: seq<Route>, a: Route, b: Route)
    requires !IsOpen(Segments(q.call)) && a in routes && PathsMatch(q.fits, q.call, a.topic) && SameMethod(q.call, b.topic, a.topic)
    requires IsOpen(Segments(b.topic)) && !Guesses(q.call, a.topic)
    requires IsOpen(Segments(a.topic)) ==> |Segments(a.topic)| < |Segments(b.topic)|
    ensures b !in Selected(q, routes)
  {
    BeatenIsOut(q, routes, a, b);
  }

  /** On one path an explicit method wins over `ANY`. */
  lemma MethodWins(q: Query, routes: seq<Route>, a: Route, b: Route)
    requires !IsOpen(Segments(q.call)) && a in routes && PathsMatch(q.fits, q.call, a.topic) && Method(q.call) != "ANY"
    requires Path(a.topic) == Path(b.topic) && Method(a.topic) != "ANY" && Method(b.topic) == "ANY" && !Guesses(q.call, a.topic)
    ensures b !in Selected(q, routes)
  {
    BeatenIsOut(q, routes, a, b);
  }

  /** A route that needs a guess never survives beside one that needs none. */
  lemma GuessLoses(q: Query, routes: seq<Route>, a: Route, b: Route)
    requires !IsOpen(Segments(q.call)) && a in routes && PathsMatch(q.fits, q.call, a.topic) && SameMethod(q.call, b.topic, a.topic)
    requires !Guesses(q.call, a.topic) && Guesses(q.call, b.topic)
    ensures b !in Selected(q, routes)
  {
    BeatenIsOut(q, routes, a, b);
  }
}
