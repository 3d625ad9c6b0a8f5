/** The persisted call graph and the rule that keeps an inherited call site on the entry's
    own override (domain/code_flows.py). */
module Dispatch {

  datatype CallEdge = CallEdge(caller: string, callee: string, path: string, line: int, confidence: string, inferred: bool)

  // ----- rpartition(".")

  /** The position of the last dot, or -1. */
  function LastDot(s: string): (d: int)
    ensures -1 <= d < |s|
    ensures d >= 0 ==> s[d] == '.'
    ensures forall i :: d < i < |s| ==> s[i] != '.'
  {
    if s == "" then -1 else if s[|s| - 1] == '.' then |s| - 1 else LastDot(s[..|s| - 1])
  }

  function Owner(method_: string): string {
    var d := LastDot(method_);
    if d < 0 then "" else method_[..d]
  }

  function SimpleName(method_: string): string { method_[LastDot(method_) + 1..] }

  /** `rpartition`: a name is its owner, a dot and a simple name, or a simple name alone. */
  lemma Partition(owner: string, name: string)
    requires '.' !in name
    ensures Owner(owner + "." + name) == owner && SimpleName(owner + "." + name) == name
    ensures Owner(name) == "" && SimpleName(name) == name
  {
    var whole := owner + "." + name;
    assert whole[|owner|] == '.' && whole[|owner| + 1..] == name;
    forall i | |owner| < i < |whole| ensures whole[i] != '.' { assert whole[i] == name[i - |owner| - 1]; }
    assert name[-1 + 1..] == name;
  }

  // ----- entry_dispatch_allowed

  predicate EntryDispatchAllowed(entryMethod: string, callerMethod: string, calleeMethod: string, siteCallees: set<string>) {
    var entryOwner := Owner(entryMethod);
    if Owner(callerMethod) == entryOwner then true else
      var overrides := set c | c in siteCallees && SimpleName(c) == SimpleName(calleeMethod) :: Owner(c);
      if |overrides| < 2 || entryOwner !in overrides then true else Owner(calleeMethod) == entryOwner
  }

  /** One call graph seen from the method that starts a flow. */
  datatype CallGraph = CallGraph(adjacency: map<string, seq<CallEdge>>, methods: map<string, string>, entry: string) {
    /** Edges are filed under their caller, and both of their ends are known methods. */
    ghost predicate Valid() {
      forall u, e :: u in adjacency && e in adjacency[u] ==> e.caller == u && u in methods && e.callee in methods
    }

    function Calls(u: string): seq<CallEdge> {
      if u in adjacency then adjacency[u] else []
    }

    function SiteCallees(e: CallEdge): set<string> {
      set s | s in Calls(e.caller) && s.path == e.path && s.line == e.line && s.callee in methods :: methods[s.callee]
    }

    /** `_call_graph_edge_allowed`. */
    predicate Allowed(e: CallEdge)
      requires e.caller in methods && e.callee in methods
    {
      EntryDispatchAllowed(entry, methods[e.caller], methods[e.callee], SiteCallees(e))
    }
  }

  /** `o` calls a method of the same name from the same site as `e`, on the entry's class. */
  predicate OnEntryClass(g: CallGraph, e: CallEdge, o: CallEdge)
    requires e.callee in g.methods && o.callee in g.methods
  {
    && o.caller == e.caller && o.path == e.path && o.line == e.line
    && SimpleName(g.methods[o.callee]) == SimpleName(g.methods[e.callee])
    && Owner(g.methods[o.callee]) == Owner(g.entry)
  }

  ghost predicate HasOwnOverride(g: CallGraph, e: CallEdge)
    requires g.Valid() && e in g.Calls(e.caller)
  {
    exists o :: o in g.Calls(e.caller) && OnEntryClass(g, e, o)
  }

  /** The rule without counting: an edge is excluded exactly when the caller is not of
      the entry's class and the site has an override on that class which is not it. */
  lemma AllowedMeans(g: CallGraph, e: CallEdge)
    requires g.Valid() && e in g.Calls(e.caller)
    ensures g.Allowed(e) <==>
      Owner(g.methods[e.caller]) == Owner(g.entry) || Owner(g.methods[e.callee]) == Owner(g.entry) || !HasOwnOverride(g, e)
  {
    var overrides := Overrides(g, e);
    OwnOverride(g, e);
    assert Owner(g.methods[e.callee]) in overrides by { assert g.methods[e.callee] in g.SiteCallees(e); }
    if Owner(g.entry) in overrides && Owner(g.methods[e.callee]) != Owner(g.entry) {
      TwoMembers(overrides, Owner(g.entry), Owner(g.methods[e.callee]));
    }
  }

  /** The classes whose override of the called name the site may reach. */
  function Overrides(g: CallGraph, e: CallEdge): set<string>
    requires e.callee in g.methods
  {
    set c | c in g.SiteCallees(e) && SimpleName(c) == SimpleName(g.methods[e.callee]) :: Owner(c)
  }

  lemma OwnOverride(g: CallGraph, e: CallEdge)
    requires g.Valid() && e in g.Calls(e.caller)
    ensures Owner(g.entry) in Overrides(g, e) <==> HasOwnOverride(g, e)
  {
    if Owner(g.entry) in Overrides(g, e) { FromOverrides(g, e); }
    if o :| o in g.Calls(e.caller) && OnEntryClass(g, e, o) { InOverrides(g, e, o); }
  }

  lemma FromOverrides(g: CallGraph, e: CallEdge)
    requires g.Valid() && e in g.Calls(e.caller) && Owner(g.entry) in Overrides(g, e)
    ensures HasOwnOverride(g, e)
  {
  }

  lemma InOverrides(g: CallGraph, e: CallEdge, o: CallEdge)
    requires g.Valid() && e in g.Calls(e.caller) && o in g.Calls(e.caller) && OnEntryClass(g, e, o)
    ensures Owner(g.entry) in Overrides(g, e)
  {
    assert g.methods[o.callee] in g.SiteCallees(e);
  }

  lemma TwoMembers(s: set<string>, a: string, b: string)
    requires a in s && b in s && a != b
    ensures |s| >= 2
  {
    assert s == {a, b} + (s - {a, b}) && |{a, b}| == 2;
  }

  /** No call site loses all of its edges: next to an excluded edge stands an allowed one
      on the entry's own class. */
  lemma ExcludedHasSibling(g: CallGraph, e: CallEdge) returns (o: CallEdge)
    requires g.Valid() && e in g.Calls(e.caller) && !g.Allowed(e)
    ensures o in g.Calls(e.caller) && OnEntryClass(g, e, o) && g.Allowed(o)
  {
    AllowedMeans(g, e);
    o :| o in g.Calls(e.caller) && OnEntryClass(g, e, o);
    AllowedMeans(g, o);
  }

  /** A method that calls anything keeps an allowed call. */
  lemma SomeCallAllowed(g: CallGraph, u: string) returns (o: CallEdge)
    requires g.Valid() && g.Calls(u) != []
    ensures o in g.Calls(u) && g.Allowed(o)
  {
    o := g.Calls(u)[0];
    if !g.Allowed(o) { o := ExcludedHasSibling(g, o); }
  }
}
