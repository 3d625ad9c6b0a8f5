/** What the topics of routes stand for: requests with a method and concrete path segments
    (domain/graph.py). */
module RouteLanguage {
  import opened RouteMatching

  // ----- the requests a topic stands for

  /** A literal segment that the segment of a route stands for. */
  predicate StandsFor(fits: Constraint, segment: string, v: string) {
    !IsTemplate(v) && if IsTemplate(segment) then fits(v, segment) else v == segment
  }

  /** The segments before a final `**`. */
  function Fixed(pattern: seq<string>): nat { if IsOpen(pattern) then |pattern| - 1 else |pattern| }

  /** The path has a segment for each one of the pattern, and more only if that ends in `**`. */
  ghost predicate Denotes(fits: Constraint, pattern: seq<string>, path: seq<string>) {
    && (if pattern != [] && pattern[|pattern| - 1] == "**" then |path| >= |pattern| else |path| == |pattern|)
    && forall i :: 0 <= i < Fixed(pattern) ==> StandsFor(fits, pattern[i], path[i])
  }

  ghost predicate IsShared(fits: Constraint, c: seq<string>, s: seq<string>, path: seq<string>) {
    path != [] && Denotes(fits, c, path) && Denotes(fits, s, path)
  }

  /** A literal that whatever the two patterns have at this place stands for. */
  predicate FitsBoth(fits: Constraint, c: seq<string>, s: seq<string>, i: nat, v: string) {
    (i < Fixed(c) ==> StandsFor(fits, c[i], v)) && (i < Fixed(s) ==> StandsFor(fits, s[i], v))
  }

  predicate IsLiteralAt(p: seq<string>, i: nat) { i < Fixed(p) && !IsTemplate(p[i]) }

  /** The templates that meet no literal at their place have a value in common. */
  ghost predicate Satisfiable(fits: Constraint, c: seq<string>, s: seq<string>) {
    forall i: nat :: !IsLiteralAt(c, i) && !IsLiteralAt(s, i) ==> exists v :: FitsBoth(fits, c, s, i, v)
  }

  /** A template is a text in braces. */
  lemma TemplateIff(segment: string)
    ensures IsTemplate(segment) <==> exists inner: string :: segment == "{" + inner + "}"
  {
    if IsTemplate(segment) {
      var n := |segment| - 1;
      assert segment == "{" + segment[1..n] + "}";
    }
  }

  // ----- matching is having a path in common

  lemma SharedMatch(fits: Constraint, c: string, s: string, v: string)
    requires StandsFor(fits, c, v) && StandsFor(fits, s, v)
    ensures SegmentMatches(fits, c, s)
  {
  }

  lemma SharedMatchAll(fits: Constraint, c: seq<string>, s: seq<string>, path: seq<string>)
    requires Denotes(fits, c, path) && Denotes(fits, s, path)
    ensures forall i :: 0 <= i < Fixed(c) && i < Fixed(s) ==> SegmentMatches(fits, c[i], s[i]) && SegmentMatches(fits, s[i], c[i])
  {
    forall i | 0 <= i < Fixed(c) && i < Fixed(s)
      ensures SegmentMatches(fits, c[i], s[i]) && SegmentMatches(fits, s[i], c[i])
    {
      SharedMatch(fits, c[i], s[i], path[i]);
      SharedMatch(fits, s[i], c[i], path[i]);
    }
  }

  lemma SharedIsMatched(fits: Constraint, c: seq<string>, s: seq<string>, path: seq<string>)
    requires IsShared(fits, c, s, path)
    ensures SegmentsMatch(fits, c, s)
  {
    SharedMatchAll(fits, c, s, path);
    if IsOpen(c) && |c| <= |s| {
      assert MatchesWildcard(fits, c, s);
    } else if IsOpen(s) && |s| <= |c| {
      assert MatchesWildcard(fits, s, c);
    }
  }

  lemma SharedIsSatisfiable(fits: Constraint, c: seq<string>, s: seq<string>, path: seq<string>)
    requires IsShared(fits, c, s, path)
    ensures Satisfiable(fits, c, s)
  {
    forall i: nat | !IsLiteralAt(c, i) && !IsLiteralAt(s, i) ensures exists v :: FitsBoth(fits, c, s, i, v) {
      var v := if i < |path| then path[i] else "";
      assert FitsBoth(fits, c, s, i, v);
    }
  }

  /** Matching compares the fixed segments that both patterns have. */
  lemma MatchedAt(fits: Constraint, c: seq<string>, s: seq<string>, i: nat)
    requires SegmentsMatch(fits, c, s) && i < Fixed(c) && i < Fixed(s)
    ensures SegmentMatches(fits, c[i], s[i]) || SegmentMatches(fits, s[i], c[i])
  {
    if MatchesWildcard(fits, c, s) {
      assert c[..|c| - 1][i] == c[i];
    } else if MatchesWildcard(fits, s, c) {
      assert s[..|s| - 1][i] == s[i];
    }
  }

  lemma MatchedLengths(fits: Constraint, c: seq<string>, s: seq<string>)
    requires SegmentsMatch(fits, c, s)
    ensures !IsOpen(c) ==> |s| <= |c|
    ensures !IsOpen(s) ==> |c| <= |s|
  {
  }

  lemma FitsAt(fits: Constraint, c: seq<string>, s: seq<string>, i: nat)
    requires SegmentsMatch(fits, c, s) && Satisfiable(fits, c, s)
    ensures exists v :: FitsBoth(fits, c, s, i, v)
  {
    if i < Fixed(c) && i < Fixed(s) { MatchedAt(fits, c, s, i); }
    if IsLiteralAt(c, i) {
      assert FitsBoth(fits, c, s, i, c[i]);
    } else if IsLiteralAt(s, i) {
      assert FitsBoth(fits, c, s, i, s[i]);
    }
  }

  lemma MatchedIsShared(fits: Constraint, c: seq<string>, s: seq<string>) returns (path: seq<string>)
    requires SegmentsMatch(fits, c, s) && Satisfiable(fits, c, s)
    ensures IsShared(fits, c, s, path)
  {
    MatchedLengths(fits, c, s);
    var n := if |c| < |s| then |s| else |c|;
    path := [];
    while |path| < n
      invariant |path| <= n
      invariant forall i: nat :: i < |path| ==> FitsBoth(fits, c, s, i, path[i])
    {
      FitsAt(fits, c, s, |path|);
      var v :| FitsBoth(fits, c, s, |path|, v);
      path := path + [v];
    }
    forall i | 0 <= i < Fixed(c) ensures StandsFor(fits, c[i], path[i]) { assert FitsBoth(fits, c, s, i, path[i]); }
    forall i | 0 <= i < Fixed(s) ensures StandsFor(fits, s[i], path[i]) { assert FitsBoth(fits, c, s, i, path[i]); }
  }

  /** Two paths have a request in common exactly if they match and their templates leave one. */
  lemma SharedIff(fits: Constraint, c: seq<string>, s: seq<string>)
    ensures (exists path :: IsShared(fits, c, s, path)) <==> SegmentsMatch(fits, c, s) && Satisfiable(fits, c, s)
  {
    if path :| IsShared(fits, c, s, path) {
      SharedIsMatched(fits, c, s, path);
      SharedIsSatisfiable(fits, c, s, path);
    }
    if SegmentsMatch(fits, c, s) && Satisfiable(fits, c, s) { var path := MatchedIsShared(fits, c, s); }
  }

  // ----- whole topics

  /** A request of this method and path is one of the topic. */
  ghost predicate IsRequest(fits: Constraint, topic: string, method_: string, path: seq<string>) {
    (Method(topic) == method_ || Method(topic) == "ANY") && Denotes(fits, Segments(topic), path)
  }

  ghost predicate HaveRequest(fits: Constraint, call: string, serve: string) {
    exists method_, path :: path != [] && IsRequest(fits, call, method_, path) && IsRequest(fits, serve, method_, path)
  }

  /** A call with a known path matches a route exactly if one request is of both, or would be if
      their templates had a value in common. */
  lemma PathsMatchIff(fits: Constraint, call: string, serve: string)
    requires Path(call) != "<dynamic>"
    ensures HaveRequest(fits, call, serve) <==> PathsMatch(fits, call, serve) && Satisfiable(fits, Segments(call), Segments(serve))
  {
    SharedIff(fits, Segments(call), Segments(serve));
    if PathsMatch(fits, call, serve) && Satisfiable(fits, Segments(call), Segments(serve)) {
      var path :| IsShared(fits, Segments(call), Segments(serve), path);
      var method_ := if Method(call) == "ANY" then Method(serve) else Method(call);
      assert IsRequest(fits, call, method_, path) && IsRequest(fits, serve, method_, path);
    }
    if HaveRequest(fits, call, serve) {
      var method_, path :| path != [] && IsRequest(fits, call, method_, path) && IsRequest(fits, serve, method_, path);
      assert IsShared(fits, Segments(call), Segments(serve), path);
    }
  }

  /** Without constraints every two templates have a value in common. */
  lemma UnconstrainedSatisfiable(fits: Constraint, c: seq<string>, s: seq<string>)
    requires forall v, t :: fits(v, t)
    ensures Satisfiable(fits, c, s)
  {
    forall i: nat | !IsLiteralAt(c, i) && !IsLiteralAt(s, i) ensures exists v :: FitsBoth(fits, c, s, i, v) {
      assert FitsBoth(fits, c, s, i, "");
    }
  }

  // ----- how a topic is read

  function PathText(segments: seq<string>): string {
    if segments == [] then "" else "/" + segments[0] + PathText(segments[1..])
  }

  /** The text of a topic, with or without a query. */
  function TopicText(method_: string, segments: seq<string>, query: string): string {
    method_ + " " + (PathText(segments) + QueryText(query))
  }

  function QueryText(query: string): string { if query == "" then "" else "?" + query }

  predicate IsSegment(s: string) { s != "" && '/' !in s && '?' !in s }

  lemma {:induction false} SplitAt(a: string, c: char, rest: string)
    requires c !in a
    ensures Before(a + [c] + rest, c) == a && After(a + [c] + rest, c) == rest
  {
    var s := a + [c] + rest;
    if a == "" {
      assert s[1..] == rest;
    } else {
      assert s[1..] == a[1..] + [c] + rest;
      SplitAt(a[1..], c, rest);
    }
  }

  lemma {:induction false} NoneOf(s: string, c: char)
    requires c !in s
    ensures Before(s, c) == s
  {
    if s != "" { NoneOf(s[1..], c); }
  }

  lemma {:induction false} PiecesOf(piece: string, more: string, rest: string)
    requires '/' !in more
    ensures Pieces(more + rest, piece) == Pieces(rest, piece + more)
    decreases |more|
  {
    if more == "" {
      assert more + rest == rest && piece + more == piece;
    } else {
      assert (more + rest)[1..] == more[1..] + rest && piece + more == (piece + [more[0]]) + more[1..];
      PiecesOf(piece + [more[0]], more[1..], rest);
    }
  }

  lemma {:induction false} PiecesAre(segments: seq<string>, piece: string)
    requires forall s :: s in segments ==> IsSegment(s)
    ensures Pieces(PathText(segments), piece) == (if piece == "" then [] else [piece]) + segments
    decreases |segments|
  {
    if segments != [] {
      var first, rest := segments[0], PathText(segments[1..]);
      assert first in segments && PathText(segments)[1..] == first + rest;
      PiecesOf("", first, rest);
      assert "" + first == first;
      PiecesAre(segments[1..], first);
      assert [first] + segments[1..] == segments;
    }
  }

  lemma {:induction false} NoQuery(segments: seq<string>)
    requires forall s :: s in segments ==> IsSegment(s)
    ensures '?' !in PathText(segments)
  {
    if segments != [] {
      NoQuery(segments[1..]);
      assert segments[0] in segments;
    }
  }

  /** A path is read as its segments; a query is ignored. */
  lemma PathReads(segments: seq<string>, query: string)
    requires forall s :: s in segments ==> IsSegment(s)
    ensures SplitPath(PathText(segments) + QueryText(query)) == segments
  {
    var path := PathText(segments);
    NoQuery(segments);
    if query == "" {
      assert path + QueryText(query) == path;
      NoneOf(path, '?');
    } else {
      assert path + QueryText(query) == path + ['?'] + query;
      SplitAt(path, '?', query);
    }
    PiecesAre(segments, "");
  }

  /** A topic is read as the method and the segments it was written with. */
  lemma TopicReads(method_: string, segments: seq<string>, query: string)
    requires ' ' !in method_ && forall s :: s in segments ==> IsSegment(s)
    ensures Method(TopicText(method_, segments, query)) == method_ && Segments(TopicText(method_, segments, query)) == segments
  {
    var rest := PathText(segments) + QueryText(query);
    assert TopicText(method_, segments, query) == method_ + [' '] + rest;
    SplitAt(method_, ' ', rest);
    PathReads(segments, query);
  }
}
