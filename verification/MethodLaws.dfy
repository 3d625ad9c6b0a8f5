/** Chains of calls and their order, read off the calls and the qualified names
    (application/code_flows.py, domain/dispatch.py). */
module MethodLaws {
  import opened Dispatch
  import opened MethodPath
  import Text

  // ----- qualified names

  /** A qualified name is its class, a dot and a name without dots; without a dot it has no class. */
  ghost predicate IsOf(name: string, owner: string, simple: string) {
    '.' !in simple && (name == owner + "." + simple || (owner == "" && name == simple))
  }

  ghost predicate SameClass(a: string, b: string) { exists owner, s, t :: IsOf(a, owner, s) && IsOf(b, owner, t) }

  ghost predicate SameName(a: string, b: string) { exists simple, o, p :: IsOf(a, o, simple) && IsOf(b, p, simple) }

  lemma PartsAre(name: string)
    ensures IsOf(name, Owner(name), SimpleName(name))
  {
    var d := LastDot(name);
    if d < 0 {
      assert SimpleName(name) == name;
    } else {
      assert name == name[..d] + [name[d]] + name[d + 1..];
    }
  }

  lemma OneParts(name: string, owner: string, simple: string)
    requires IsOf(name, owner, simple)
    ensures Owner(name) == owner && SimpleName(name) == simple
  {
    Partition(owner, simple);
  }

  lemma ClassIff(a: string, b: string)
    ensures SameClass(a, b) <==> Owner(a) == Owner(b)
  {
    PartsAre(a);
    PartsAre(b);
    if owner, s, t :| IsOf(a, owner, s) && IsOf(b, owner, t) {
      OneParts(a, owner, s);
      OneParts(b, owner, t);
    }
  }

  lemma NameIff(a: string, b: string)
    ensures SameName(a, b) <==> SimpleName(a) == SimpleName(b)
  {
    PartsAre(a);
    PartsAre(b);
    if simple, o, p :| IsOf(a, o, simple) && IsOf(b, p, simple) {
      OneParts(a, o, simple);
      OneParts(b, p, simple);
    }
  }

  // ----- the calls that may be followed

  /** The same line calls a method of the same name on the class of the entry. */
  ghost predicate HasOwn(g: CallGraph, e: CallEdge) {
    exists o :: IsOwn(g, e, o)
  }

  ghost predicate IsOwn(g: CallGraph, e: CallEdge, o: CallEdge) {
    && e.caller in g.adjacency && o in g.adjacency[e.caller] && o.path == e.path && o.line == e.line
    && o.callee in g.methods && e.callee in g.methods
    && SameName(g.methods[o.callee], g.methods[e.callee]) && SameClass(g.methods[o.callee], g.entry)
  }

  /** A call from another class to another class is only followed if its line has no such call. */
  ghost predicate MayFollow(g: CallGraph, e: CallEdge) {
    && e.caller in g.methods && e.callee in g.methods
    && (SameClass(g.methods[e.caller], g.entry) || SameClass(g.methods[e.callee], g.entry) || !HasOwn(g, e))
  }

  lemma OwnIff(g: CallGraph, e: CallEdge, o: CallEdge)
    requires g.Valid() && e in g.Calls(e.caller) && o in g.Calls(e.caller)
    ensures OnEntryClass(g, e, o) <==> IsOwn(g, e, o)
  {
    NameIff(g.methods[o.callee], g.methods[e.callee]);
    ClassIff(g.methods[o.callee], g.entry);
  }

  lemma FollowIff(g: CallGraph, e: CallEdge)
    requires g.Valid() && e in g.Calls(e.caller)
    ensures g.Allowed(e) <==> MayFollow(g, e)
  {
    AllowedMeans(g, e);
    ClassIff(g.methods[e.caller], g.entry);
    ClassIff(g.methods[e.callee], g.entry);
    forall o | o in g.Calls(e.caller) ensures OnEntryClass(g, e, o) <==> IsOwn(g, e, o) { OwnIff(g, e, o); }
    if o :| IsOwn(g, e, o) { assert o in g.Calls(e.caller); }
  }

  // ----- chains and their order

  function At(start: string, p: Chain, i: nat): string
    requires i <= |p|
  {
    if i == 0 then start else p[i - 1].callee
  }

  /** Each call stands in the method that the one before it calls. */
  ghost predicate LeadsOn(g: CallGraph, start: string, p: Chain) {
    forall i :: 0 <= i < |p| ==> LeadsOnAt(g, start, p, i)
  }

  ghost predicate LeadsOnAt(g: CallGraph, start: string, p: Chain, i: nat)
    requires i < |p|
  {
    At(start, p, i) in g.adjacency && p[i] in g.adjacency[At(start, p, i)] && MayFollow(g, p[i])
  }

  lemma StepIff(g: CallGraph, start: string, p: Chain, i: nat)
    requires g.Valid() && i < |p|
    ensures Follows(g, At(start, p, i), p[i]) <==> LeadsOnAt(g, start, p, i)
  {
    if p[i] in g.Calls(At(start, p, i)) { FollowIff(g, p[i]); }
  }

  lemma FrontLeads(g: CallGraph, start: string, p: Chain, n: nat)
    requires |p| == n + 1
    ensures LeadsOn(g, start, p) <==> LeadsOn(g, start, p[..n]) && LeadsOnAt(g, start, p, n)
  {
    forall i | 0 <= i < n ensures LeadsOnAt(g, start, p[..n], i) <==> LeadsOnAt(g, start, p, i) {
      assert At(start, p[..n], i) == At(start, p, i);
    }
    if LeadsOn(g, start, p[..n]) && LeadsOnAt(g, start, p, n) {
      forall i | 0 <= i < |p| ensures LeadsOnAt(g, start, p, i) { assert i < n ==> LeadsOnAt(g, start, p[..n], i); }
    }
  }

  lemma {:induction false} ChainIff(g: CallGraph, start: string, p: Chain)
    requires g.Valid()
    ensures IsChain(g, start, p) <==> LeadsOn(g, start, p)
    decreases |p|
  {
    if p != [] {
      var n := |p| - 1;
      ChainIff(g, start, Front(p));
      FrontLeads(g, start, p, n);
      StepIff(g, start, p, n);
      assert End(start, Front(p)) == At(start, p, n);
    }
  }

  predicate SameCall(e: CallEdge, f: CallEdge) { e.path == f.path && e.line == f.line && e.callee == f.callee }

  /** By file, then line, then method called. */
  predicate IsSooner(e: CallEdge, f: CallEdge) {
    || (e.path != f.path && Text.Le(e.path, f.path))
    || (e.path == f.path && e.line < f.line)
    || (e.path == f.path && e.line == f.line && e.callee != f.callee && Text.Le(e.callee, f.callee))
  }

  /** Both chains make the same calls before `k`, and there the first one has the sooner call. */
  predicate SoonerAt(p: Chain, q: Chain, k: int) {
    0 <= k < |p| && k < |q| && (forall i | 0 <= i < k :: SameCall(p[i], q[i])) && IsSooner(p[k], q[k])
  }

  lemma {:induction false} SameIff(p: Chain, q: Chain)
    ensures SameKeys(p, q) <==> |p| == |q| && forall i :: 0 <= i < |p| ==> SameCall(p[i], q[i])
    decreases |p|
  {
    if |p| == |q| && p != [] {
      SameIff(Front(p), Front(q));
      if SameKeys(p, q) {
        forall i | 0 <= i < |p| ensures SameCall(p[i], q[i]) { if i < |p| - 1 { assert SameCall(Front(p)[i], Front(q)[i]); } }
      }
    }
  }

  lemma {:induction false} LessIff(p: Chain, q: Chain)
    requires |p| == |q|
    ensures LexLess(p, q) <==> exists k :: SoonerAt(p, q, k)
    decreases |p|
  {
    if p != [] {
      var n := |p| - 1;
      LessIff(Front(p), Front(q));
      SameIff(Front(p), Front(q));
      if k :| SoonerAt(Front(p), Front(q), k) { assert SoonerAt(p, q, k); }
      if k :| SoonerAt(p, q, k) {
        if k < n { assert SoonerAt(Front(p), Front(q), k); }
      }
      if LexLess(p, q) && !LexLess(Front(p), Front(q)) {
        forall i | 0 <= i < n ensures SameCall(p[i], q[i]) { assert SameCall(Front(p)[i], Front(q)[i]); }
        assert SoonerAt(p, q, n);
      }
    }
  }

  /** Shorter, or of the same length with the sooner call at the first difference. */
  ghost predicate Precedes(p: Chain, q: Chain) {
    || |p| < |q|
    || (|p| == |q| && ((exists k :: SoonerAt(p, q, k)) || forall i :: 0 <= i < |p| ==> SameCall(p[i], q[i])))
  }

  lemma PrecedesIff(p: Chain, q: Chain)
    ensures Before(p, q) <==> Precedes(p, q)
  {
    SameIff(p, q);
    if |p| == |q| { LessIff(p, q); }
  }

  /** The path reported: from the start over the methods called to the target, along calls that
      may be followed, and before every other such chain to the target. */
  lemma PathMeans(g: CallGraph, start: string, target: string, r: (seq<string>, Chain))
    requires g.Valid() && First(g, start, r.1) && End(start, r.1) == target && r.0 == Stops(start, r.1)
    ensures LeadsOn(g, start, r.1)
    ensures |r.0| == |r.1| + 1 && r.0[0] == start && r.0[|r.1|] == target && forall i :: 0 <= i < |r.1| ==> r.0[i + 1] == r.1[i].callee
    ensures forall q :: LeadsOn(g, start, q) && At(start, q, |q|) == target ==> Precedes(r.1, q)
  {
    ChainIff(g, start, r.1);
    forall q | LeadsOn(g, start, q) && At(start, q, |q|) == target ensures Precedes(r.1, q) {
      ChainIff(g, start, q);
      PrecedesIff(r.1, q);
    }
  }

  /** No path is reported exactly if no such chain leads to the target. */
  lemma NoPathIff(g: CallGraph, start: string, target: string)
    requires g.Valid()
    ensures (forall p :: IsChain(g, start, p) ==> End(start, p) != target) <==> forall p :: LeadsOn(g, start, p) ==> At(start, p, |p|) != target
  {
    forall p ensures IsChain(g, start, p) <==> LeadsOn(g, start, p) { ChainIff(g, start, p); }
    forall p ensures End(start, p) == At(start, p, |p|) {}
  }
}
