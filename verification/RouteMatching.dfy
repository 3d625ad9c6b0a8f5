/** Which served routes an HTTP call may reach (domain/graph.py). */
module RouteMatching {

  // ----- topics: a method, a space, a path

  function Before(s: string, c: char): string {
    if s == "" || s[0] == c then "" else [s[0]] + Before(s[1..], c)
  }

  /** What follows the first `c`, if there is one. */
  function After(s: string, c: char): string {
    if s == "" then "" else if s[0] == c then s[1..] else After(s[1..], c)
  }

  function Method(topic: string): string { Before(topic, ' ') }

  function Path(topic: string): string { After(topic, ' ') }

  /** The pieces of `s` between slashes that are not empty; `piece` is the one being read. */
  function Pieces(s: string, piece: string): seq<string> {
    if s == "" then (if piece == "" then [] else [piece])
    else if s[0] == '/' then (if piece == "" then [] else [piece]) + Pieces(s[1..], "")
    else Pieces(s[1..], piece + [s[0]])
  }

  function SplitPath(path: string): seq<string> { Pieces(Before(path, '?'), "") }

  function Segments(topic: string): seq<string> { SplitPath(Path(topic)) }

  // ----- segments

  predicate IsTemplate(s: string) { s != "" && s[0] == '{' && s[|s| - 1] == '}' }

  /** `fits(literal, template)` stands for the constraint of a `{name:regex}` template. */
  type Constraint = (string, string) -> bool

  predicate SegmentMatches(fits: Constraint, call: string, serve: string) {
    if IsTemplate(call) && IsTemplate(serve) then true
    else if IsTemplate(serve) then fits(call, serve)
    else if IsTemplate(call) then fits(serve, call)
    else call == serve
  }

  predicate IsOpen(pattern: seq<string>) { pattern != [] && pattern[|pattern| - 1] == "**" }

  /** `all(... for ... in zip(a, b))`. */
  predicate AllMatch(fits: Constraint, a: seq<string>, b: seq<string>) {
    forall i | 0 <= i < |a| && i < |b| :: SegmentMatches(fits, a[i], b[i])
  }

  predicate MatchesWildcard(fits: Constraint, pattern: seq<string>, concrete: seq<string>) {
    && IsOpen(pattern) && |concrete| >= |pattern|
    && AllMatch(fits, pattern[..|pattern| - 1], concrete)
  }

  predicate SegmentsMatch(fits: Constraint, call: seq<string>, serve: seq<string>) {
    call != [] &&
    (MatchesWildcard(fits, call, serve) || MatchesWildcard(fits, serve, call) ||
     (|call| == |serve| && AllMatch(fits, call, serve)))
  }

  predicate MethodsMatch(call: string, serve: string) {
    Method(call) == Method(serve) || Method(call) == "ANY" || Method(serve) == "ANY"
  }

  /** `paths_match`. */
  predicate PathsMatch(fits: Constraint, call: string, serve: string) {
    Path(call) != "<dynamic>" && MethodsMatch(call, serve) && SegmentsMatch(fits, Segments(call), Segments(serve))
  }

  lemma SegmentSymmetric(fits: Constraint, a: string, b: string)
    ensures SegmentMatches(fits, a, b) <==> SegmentMatches(fits, b, a)
  {
  }

  lemma AllSymmetric(fits: Constraint, a: seq<string>, b: seq<string>)
    ensures AllMatch(fits, a, b) <==> AllMatch(fits, b, a)
  {
    forall i | 0 <= i < |a| && i < |b| ensures SegmentMatches(fits, a[i], b[i]) <==> SegmentMatches(fits, b[i], a[i]) {
      SegmentSymmetric(fits, a[i], b[i]);
    }
  }

  /** Matching does not depend on which side calls: neither side may be empty. */
  lemma SegmentsSymmetric(fits: Constraint, a: seq<string>, b: seq<string>)
    ensures SegmentsMatch(fits, a, b) <==> SegmentsMatch(fits, b, a)
  {
    AllSymmetric(fits, a, b);
  }

  predicate IsDynamic(topic: string) { Path(topic) == "<dynamic>" }

  /** For topics, this fails exactly when the paths would match but one of them alone is
      `<dynamic>`: such a call matches nothing, such a route is matched like any other. */
  lemma PathsSymmetric(fits: Constraint, a: string, b: string)
    ensures (PathsMatch(fits, a, b) <==> PathsMatch(fits, b, a)) <==>
      (IsDynamic(a) == IsDynamic(b) || !MethodsMatch(a, b) || !SegmentsMatch(fits, Segments(a), Segments(b)))
  {
    SegmentsSymmetric(fits, Segments(a), Segments(b));
  }
}
