/** The data types that Kafka messages refer to, directly or through their fields
    (indexing/dto_inventory.py). */
module DtoClosure {
  import opened Basics
  import opened Digraph
  import Text

  /** A Java type found in the sources: for each field, the types its text resolves to. */
  datatype Candidate = Candidate(name: string, fields: seq<set<string>>)
  type Candidates = map<string, Candidate>

  datatype Definition = Definition(id: string, known: bool, fields: seq<seq<string>>)

  /** The references of a type: every resolved type of every field. */
  function References(c: Candidate): set<string> {
    set i, x | 0 <= i < |c.fields| && x in c.fields[i] :: x
  }

  function ReferenceGraph(candidates: Candidates): Graph<string> {
    map id | id in candidates :: References(candidates[id])
  }

  function SortedFields(fields: seq<set<string>>): seq<seq<string>> {
    if fields == [] then [] else SortedFields(fields[..|fields| - 1]) + [Text.Sorted(fields[|fields| - 1])]
  }

  function DefinitionOf(candidates: Candidates, id: string): Definition {
    if id in candidates then Definition(id, true, SortedFields(candidates[id].fields)) else Definition(id, false, [])
  }

  ghost predicate FromRoot(g: Graph<string>, roots: set<string>, id: string) {
    exists r :: r in roots && Reach(g, r, id)
  }

  ghost predicate ClosedUnder(g: Graph<string>, s: set<string>) {
    forall id :: id in s ==> Succ(g, id) <= s
  }

  /** The roots and all that they refer to, through any number of references. */
  ghost function Closure(candidates: Candidates, roots: set<string>): set<string> {
    set id | id in Universe(candidates, roots) && FromRoot(ReferenceGraph(candidates), roots, id)
  }

  ghost function Universe(candidates: Candidates, roots: set<string>): set<string> {
    roots + set id, x | id in candidates && x in References(candidates[id]) :: x
  }

  lemma ReferenceReached(candidates: Candidates, roots: set<string>, id: string, x: string)
    requires FromRoot(ReferenceGraph(candidates), roots, id) && x in Succ(ReferenceGraph(candidates), id)
    ensures x in Closure(candidates, roots)
  {
    var g := ReferenceGraph(candidates);
    var r :| r in roots && Reach(g, r, id);
    ReachEdge(g, id, x);
    ReachTransitive(g, r, id, x);
  }

  lemma ClosureIsClosed(candidates: Candidates, roots: set<string>)
    ensures roots <= Closure(candidates, roots) && ClosedUnder(ReferenceGraph(candidates), Closure(candidates, roots))
  {
    var g := ReferenceGraph(candidates);
    forall r | r in roots ensures FromRoot(g, roots, r) { ReachSelf(g, r); }
    forall id, x | id in Closure(candidates, roots) && x in Succ(g, id) ensures x in Closure(candidates, roots) {
      ReferenceReached(candidates, roots, id, x);
    }
  }

  /** The closure is the least set that holds the roots and the references of its members. */
  lemma ClosureIsLeast(candidates: Candidates, roots: set<string>, t: set<string>)
    requires roots <= t && ClosedUnder(ReferenceGraph(candidates), t)
    ensures Closure(candidates, roots) <= t
  {
    var g := ReferenceGraph(candidates);
    forall id | id in Closure(candidates, roots) ensures id in t {
      var r :| r in roots && Reach(g, r, id);
      var p :| IsWalk(g, p, r, id);
      ReachStaysInside(g, t, p, r, id);
    }
  }

  // ----- the worklist

  /** The references of one type that are queued: all but the type itself. */
  function Without(id: string, refs: seq<string>): (r: seq<string>)
    ensures forall x :: x in r <==> x in refs && x != id
  {
    if refs == [] then [] else
      assert refs == refs[..|refs| - 1] + [refs[|refs| - 1]];
      Without(id, refs[..|refs| - 1]) + (if refs[|refs| - 1] == id then [] else [refs[|refs| - 1]])
  }

  function UpTo(fields: seq<set<string>>, n: nat): set<string>
    requires n <= |fields|
  {
    if n == 0 then {} else UpTo(fields, n - 1) + fields[n - 1]
  }

  lemma ElementsJoin(s: seq<string>, t: seq<string>)
    ensures Elements(s + t) == Elements(s) + Elements(t)
  {
  }

  lemma ElementsFirst(s: seq<string>)
    requires s != []
    ensures Elements(s) == {s[0]} + Elements(s[1..])
  {
    assert s == [s[0]] + s[1..];
  }

  lemma ElementsWithout(id: string, refs: seq<string>, s: set<string>)
    requires forall x :: x in refs <==> x in s
    ensures Elements(Without(id, refs)) == s - {id}
  {
  }

  lemma {:induction false} UpToMeans(fields: seq<set<string>>, n: nat)
    requires n <= |fields|
    ensures forall x :: x in UpTo(fields, n) <==> exists i :: 0 <= i < n && x in fields[i]
  {
    if n != 0 { UpToMeans(fields, n - 1); }
  }

  lemma AllReferences(candidates: Candidates, id: string)
    requires id in candidates
    ensures UpTo(candidates[id].fields, |candidates[id].fields|) == Succ(ReferenceGraph(candidates), id)
  {
    UpToMeans(candidates[id].fields, |candidates[id].fields|);
  }

  lemma QueueNext(pending: seq<string>, before: set<string>, fields: seq<set<string>>, i: nat, id: string, nested: seq<string>)
    requires i < |fields| && Elements(pending) == before + (UpTo(fields, i) - {id})
    requires forall x :: x in nested <==> x in fields[i]
    ensures Elements(pending + Without(id, nested)) == before + (UpTo(fields, i + 1) - {id})
  {
    ElementsWithout(id, nested, fields[i]);
    ElementsJoin(pending, Without(id, nested));
  }

  lemma SortedFieldsNext(fields: seq<set<string>>, i: nat)
    requires i < |fields|
    ensures SortedFields(fields[..i + 1]) == SortedFields(fields[..i]) + [Text.Sorted(fields[i])]
  {
    assert fields[..i + 1][..i] == fields[..i];
  }

  /** Describes one type and queues what its fields refer to. */
  method Describe(candidates: Candidates, id: string, pending: seq<string>) returns (definition: Definition, pending': seq<string>)
    ensures definition == DefinitionOf(candidates, id)
    ensures Elements(pending') == Elements(pending) + (Succ(ReferenceGraph(candidates), id) - {id})
  {
    pending' := pending;
    if id !in candidates { return Definition(id, false, []), pending; }
    var fields, described: seq<seq<string>> := candidates[id].fields, [];
    for i := 0 to |fields|
      invariant described == SortedFields(fields[..i])
      invariant Elements(pending') == Elements(pending) + (UpTo(fields, i) - {id})
    {
      SortedFieldsNext(fields, i);
      var nested := Text.Sorted(fields[i]);
      QueueNext(pending', Elements(pending), fields, i, id, nested);
      pending' := pending' + Without(id, nested);
      described := described + [nested];
    }
    assert fields[..|fields|] == fields;
    AllReferences(candidates, id);
    definition := Definition(id, true, described);
  }

  /** Nothing outside `all` is described or waits, and no reference is lost in between. */
  ghost predicate Progress(g: Graph<string>, roots: set<string>, all: set<string>, done: set<string>, waiting: set<string>) {
    && roots <= done + waiting <= all
    && forall id :: id in done ==> Succ(g, id) <= done + waiting
  }

  lemma StepKeeps(g: Graph<string>, roots: set<string>, all: set<string>, done: set<string>, id: string, rest: set<string>)
    requires Progress(g, roots, all, done, {id} + rest) && ClosedUnder(g, all)
    ensures Progress(g, roots, all, done + {id}, rest + (Succ(g, id) - {id})) && id in all
  {
  }

  lemma SkipKeeps(g: Graph<string>, roots: set<string>, all: set<string>, done: set<string>, id: string, rest: set<string>)
    requires Progress(g, roots, all, done, {id} + rest) && id in done
    ensures Progress(g, roots, all, done, rest)
  {
    assert done + ({id} + rest) == done + rest;
  }

  ghost predicate Described(candidates: Candidates, definitions: map<string, Definition>) {
    forall id :: id in definitions ==> definitions[id] == DefinitionOf(candidates, id)
  }

  ghost predicate EachOnce(computed: seq<string>, done: set<string>) {
    Elements(computed) == done && forall i, j :: 0 <= i < j < |computed| ==> computed[i] != computed[j]
  }

  /** The state of the loop: `computed` lists the types described so far. */
  ghost predicate Working(candidates: Candidates, roots: set<string>, all: set<string>, definitions: map<string, Definition>, computed: seq<string>, pending: seq<string>) {
    && Progress(ReferenceGraph(candidates), roots, all, definitions.Keys, Elements(pending))
    && Described(candidates, definitions) && EachOnce(computed, definitions.Keys)
  }

  lemma OneMore(computed: seq<string>, done: set<string>, id: string)
    requires EachOnce(computed, done) && id !in done
    ensures EachOnce(computed + [id], done + {id})
  {
    ElementsJoin(computed, [id]);
    assert Elements([id]) == {id};
  }

  /** One iteration on a type that was not described yet. */
  method Treat(candidates: Candidates, ghost roots: set<string>, ghost all: set<string>, definitions: map<string, Definition>, ghost computed: seq<string>, pending: seq<string>)
    returns (definitions': map<string, Definition>, pending': seq<string>)
    requires Working(candidates, roots, all, definitions, computed, pending) && ClosedUnder(ReferenceGraph(candidates), all)
    requires pending != [] && pending[0] !in definitions
    ensures Working(candidates, roots, all, definitions', computed + [pending[0]], pending')
    ensures all - definitions'.Keys < all - definitions.Keys
  {
    var id := pending[0];
    ElementsFirst(pending);
    StepKeeps(ReferenceGraph(candidates), roots, all, definitions.Keys, id, Elements(pending[1..]));
    OneMore(computed, definitions.Keys, id);
    var definition: Definition;
    definition, pending' := Describe(candidates, id, pending[1..]);
    definitions' := definitions[id := definition];
    assert definitions'.Keys == definitions.Keys + {id};
  }

  lemma Skip(candidates: Candidates, roots: set<string>, all: set<string>, definitions: map<string, Definition>, computed: seq<string>, pending: seq<string>)
    requires Working(candidates, roots, all, definitions, computed, pending)
    requires pending != [] && pending[0] in definitions
    ensures Working(candidates, roots, all, definitions, computed, pending[1..])
  {
    ElementsFirst(pending);
    SkipKeeps(ReferenceGraph(candidates), roots, all, definitions.Keys, pending[0], Elements(pending[1..]));
  }

  lemma Starts(candidates: Candidates, roots: set<string>)
    ensures Working(candidates, roots, Closure(candidates, roots), map[], [], Text.Sorted(roots))
  {
    ClosureIsClosed(candidates, roots);
    assert Elements(Text.Sorted(roots)) == roots;
  }

  /** The definitions are those of the least closed set of types, each computed once
      although a type may be queued many times. */
  method DtoDefinitions(candidates: Candidates, roots: set<string>) returns (definitions: map<string, Definition>, ghost computed: seq<string>)
    ensures definitions.Keys == Closure(candidates, roots)
    ensures forall id :: id in definitions ==> definitions[id] == DefinitionOf(candidates, id)
    ensures EachOnce(computed, definitions.Keys)
  {
    ghost var all := Closure(candidates, roots);
    ClosureIsClosed(candidates, roots);
    definitions, computed := map[], [];
    var pending := Text.Sorted(roots);
    Starts(candidates, roots);
    while pending != []
      invariant Working(candidates, roots, all, definitions, computed, pending)
      decreases all - definitions.Keys, |pending|
    {
      var id := pending[0];
      if id in definitions {
        Skip(candidates, roots, all, definitions, computed, pending);
        pending := pending[1..];
        continue;
      }
      definitions, pending := Treat(candidates, roots, all, definitions, computed, pending);
      computed := computed + [id];
    }
    NothingLeft(candidates, roots, definitions.Keys);
  }

  lemma NothingLeft(candidates: Candidates, roots: set<string>, done: set<string>)
    requires Progress(ReferenceGraph(candidates), roots, Closure(candidates, roots), done, Elements([]))
    ensures done == Closure(candidates, roots)
  {
    assert done + Elements([]) == done;
    ClosureIsLeast(candidates, roots, done);
  }

  // ----- what a definition says

  predicate Mentions(c: Candidate, i: int, id: string) { 0 <= i < |c.fields| && id in c.fields[i] }

  /** A type leads exactly to those that one of its fields mentions. */
  lemma RefersIff(candidates: Candidates, id: string, x: string)
    ensures x in Succ(ReferenceGraph(candidates), id) <==> id in candidates && exists i :: Mentions(candidates[id], i, x)
  {
    if id in candidates {
      var fields := candidates[id].fields;
      if x in References(candidates[id]) {
        var i :| 0 <= i < |fields| && x in fields[i];
        assert Mentions(candidates[id], i, x);
      }
    }
  }

  /** A known type lists for each field what it mentions, in order; an unknown one lists nothing. */
  ghost predicate Tells(candidates: Candidates, id: string, d: Definition) {
    && d.id == id && (d.known <==> id in candidates) && |d.fields| == (if id in candidates then |candidates[id].fields| else 0)
    && forall i :: 0 <= i < |d.fields| ==> Text.Increasing(d.fields[i]) && forall x :: x in d.fields[i] <==> x in candidates[id].fields[i]
  }

  lemma {:induction false} FieldsTell(fields: seq<set<string>>)
    ensures |SortedFields(fields)| == |fields|
    ensures forall i :: 0 <= i < |fields| ==> SortedFields(fields)[i] == Text.Sorted(fields[i])
  {
    if fields != [] { FieldsTell(fields[..|fields| - 1]); }
  }

  lemma DefinitionTells(candidates: Candidates, id: string)
    ensures Tells(candidates, id, DefinitionOf(candidates, id))
  {
    if id in candidates { FieldsTell(candidates[id].fields); }
  }
}
