/** Merging repeated observations of one graph fact (domain/models.py). */
module MergeFacts {
  import opened Wrappers
  import opened Json
  import opened GraphFacts

  // ----- merge_graph_facts

  function ConfidenceRank(c: string): int {
    if c == "unknown" then 0 else if c == "low" then 1 else if c == "medium" then 2 else if c == "high" then 3 else -1
  }

  function StatusRank(s: string): int {
    if s == "ambiguous" || s == "unresolved" then 0 else if s == "proposed" then 1 else if s == "confirmed" then 2 else -1
  }

  /** The pair (confidence, status) as one number with the same order. */
  function Quality(f: Fact): int { 4 * ConfidenceRank(f.confidence) + StatusRank(f.status) }

  lemma QualityOrder(a: Fact, b: Fact)
    ensures Quality(a) <= Quality(b) <==>
      ConfidenceRank(a.confidence) < ConfidenceRank(b.confidence) ||
      (ConfidenceRank(a.confidence) == ConfidenceRank(b.confidence) && StatusRank(a.status) <= StatusRank(b.status))
  {
  }

  predicate LessConfident(a: string, b: string) {
    || (b == "high" && a != "high")
    || (b == "medium" && a != "high" && a != "medium")
    || (b == "low" && a != "high" && a != "medium" && a != "low")
    || (b == "unknown" && a != "high" && a != "medium" && a != "low" && a != "unknown")
  }

  predicate LessSettled(a: string, b: string) {
    || (b == "confirmed" && a != "confirmed")
    || (b == "proposed" && a != "confirmed" && a != "proposed")
    || ((b == "ambiguous" || b == "unresolved") && a != "confirmed" && a != "proposed" && a != "ambiguous" && a != "unresolved")
  }

  /** Confidence decides; status only among facts of one confidence. */
  lemma QualityMeans(a: Fact, b: Fact)
    ensures Quality(a) < Quality(b) <==>
      || LessConfident(a.confidence, b.confidence)
      || (!LessConfident(b.confidence, a.confidence) && LessSettled(a.status, b.status))
  {
  }

  /** `a or b` on an optional string, an optional number, a document value. */
  function OrText(a: Option<string>, b: Option<string>): Option<string> { if a.Some? && a.value != "" then a else b }

  function OrLine(a: Option<int>, b: Option<int>): Option<int> { if a.Some? && a.value != 0 then a else b }

  function OrValue(a: Value, b: Value): Value { if Truthy(a) then a else b }

  function Stronger(existing: Fact, incoming: Fact): Fact {
    if Quality(incoming) >= Quality(existing) then incoming else existing
  }

  function Weaker(existing: Fact, incoming: Fact): Fact {
    if Quality(incoming) >= Quality(existing) then existing else incoming
  }

  /** The strong fact with its gaps filled from the weak one. */
  function Filled(strong: Fact, weak: Fact): Fact {
    strong.(
      evidencePath := OrText(strong.evidencePath, weak.evidencePath),
      evidenceLine := OrLine(strong.evidenceLine, weak.evidenceLine),
      note := OrText(strong.note, weak.note),
      technology := OrText(strong.technology, weak.technology),
      moduleName := OrText(strong.moduleName, weak.moduleName),
      passId := OrValue(strong.passId, weak.passId),
      sourceRevision := OrValue(strong.sourceRevision, weak.sourceRevision),
      metadata := Some(MetadataOf(weak) + MetadataOf(strong)))
  }

  /** `None` stands for the error raised on different identities. */
  function Merge(existing: Fact, incoming: Fact): Option<Fact> {
    if existing.id != incoming.id then None
    else Some(Filled(Stronger(existing, incoming), Weaker(existing, incoming)))
  }

  /** The stored fact after observing `facts` one after the other. */
  function MergeAll(facts: seq<Fact>): Option<Fact>
    requires facts != []
  {
    if |facts| == 1 then Some(facts[0]) else
      var before :- MergeAll(facts[..|facts| - 1]);
      Merge(before, facts[|facts| - 1])
  }

  ghost predicate OneId(facts: seq<Fact>) { forall i, j :: 0 <= i < |facts| && 0 <= j < |facts| ==> facts[i].id == facts[j].id }

  // ----- the payload of the best observation

  /** Everything but the fields that a weaker observation may fill. */
  function Payload(f: Fact): Fact {
    f.(evidencePath := None, evidenceLine := None, note := None, technology := None, moduleName := None,
       passId := Null, sourceRevision := Null, metadata := None)
  }

  /** `k` is the last observation of the highest quality. */
  ghost predicate IsBest(facts: seq<Fact>, k: nat) {
    && k < |facts|
    && (forall i :: 0 <= i < |facts| ==> Quality(facts[i]) <= Quality(facts[k]))
    && (forall i :: k < i < |facts| ==> Quality(facts[i]) < Quality(facts[k]))
  }

  lemma MergeIsStronger(existing: Fact, incoming: Fact)
    requires existing.id == incoming.id
    ensures var merged := Merge(existing, incoming).value;
      Payload(merged) == Payload(Stronger(existing, incoming)) && Quality(merged) == Quality(Stronger(existing, incoming))
  {
  }

  lemma BestOneMore(facts: seq<Fact>, j: nat)
    requires |facts| > 1 && IsBest(facts[..|facts| - 1], j)
    ensures IsBest(facts, if Quality(facts[|facts| - 1]) >= Quality(facts[j]) then |facts| - 1 else j)
  {
    assert forall i :: 0 <= i < |facts| - 1 ==> facts[..|facts| - 1][i] == facts[i];
  }

  lemma PayloadSame(f: Fact, g: Fact)
    requires Payload(f) == Payload(g)
    ensures f.id == g.id && Quality(f) == Quality(g)
  {
    assert Payload(f).id == f.id && Payload(g).id == g.id;
    assert Payload(f).confidence == f.confidence && Payload(g).confidence == g.confidence;
    assert Payload(f).status == f.status && Payload(g).status == g.status;
  }

  /** Observations of one fact always merge; the result has the highest quality observed
      and the payload of the last observation that attains it. */
  lemma {:induction false} MergeTakesBest(facts: seq<Fact>) returns (k: nat)
    requires facts != [] && OneId(facts)
    ensures IsBest(facts, k) && MergeAll(facts).Some? && Payload(MergeAll(facts).value) == Payload(facts[k])
  {
    if |facts| == 1 {
      k := 0;
    } else {
      var n := |facts| - 1;
      var j := MergeTakesBest(facts[..n]);
      k := if Quality(facts[n]) >= Quality(facts[j]) then n else j;
      PayloadSame(MergeAll(facts[..n]).value, facts[j]);
      BestOneMore(facts, j);
      MergeIsStronger(MergeAll(facts[..n]).value, facts[n]);
    }
  }

  lemma OneIdNext(facts: seq<Fact>, n: nat)
    requires 0 < n < |facts|
    ensures OneId(facts[..n + 1]) <==> OneId(facts[..n]) && facts[n].id == facts[0].id
  {
    var front, all := facts[..n], facts[..n + 1];
    assert all == front + [facts[n]];
    if OneId(all) {
      forall i | 0 <= i < n ensures front[i].id == front[0].id { assert all[i] == front[i]; }
      assert all[n].id == all[0].id;
    }
  }

  /** Nothing merges across identities. */
  lemma {:induction false} MergeNeedsOneId(facts: seq<Fact>)
    requires facts != []
    ensures MergeAll(facts).Some? <==> OneId(facts)
    ensures MergeAll(facts).Some? ==> MergeAll(facts).value.id == facts[0].id
  {
    if |facts| > 1 {
      var n := |facts| - 1;
      MergeNeedsOneId(facts[..n]);
      OneIdNext(facts, n);
      assert facts[..n + 1] == facts;
    }
  }

  // ----- the fields that are filled

  /** A field that a merge takes from the stronger fact if it is given there. */
  ghost predicate Fills<T(!new)>(field: Fact -> T, given: T -> bool) {
    forall strong, weak ::
      field(Filled(strong, weak)) == if given(field(strong)) then field(strong) else field(weak)
  }

  /** The observation at `k` was no weaker than all before it, or found the field not given. */
  ghost predicate TakesOver<T(!new)>(facts: seq<Fact>, field: Fact -> T, given: T -> bool, k: int)
    requires 0 <= k < |facts|
  {
    || (forall i :: 0 <= i < k ==> Quality(facts[i]) <= Quality(facts[k]))
    || (forall i :: 0 <= i < k ==> !given(field(facts[i])))
  }

  /** `k` supplies the field: of the observations that give it, the last to take over. */
  ghost predicate Supplies<T(!new)>(facts: seq<Fact>, field: Fact -> T, given: T -> bool, k: int) {
    && 0 <= k < |facts| && given(field(facts[k])) && TakesOver(facts, field, given, k)
    && forall i :: k < i < |facts| && given(field(facts[i])) ==> !TakesOver(facts, field, given, i)
  }

  /** A field is given after the merge exactly when some observation gave it, and then it
      is the value of the observation that supplies it. */
  ghost predicate FilledFrom<T(!new)>(facts: seq<Fact>, field: Fact -> T, given: T -> bool, v: T) {
    && (given(v) <==> exists i :: 0 <= i < |facts| && given(field(facts[i])))
    && (given(v) ==> exists k :: Supplies(facts, field, given, k) && v == field(facts[k]))
  }

  lemma TakesOverPrefix<T(!new)>(facts: seq<Fact>, n: nat, field: Fact -> T, given: T -> bool, k: int)
    requires 0 <= k < n <= |facts|
    ensures TakesOver(facts[..n], field, given, k) <==> TakesOver(facts, field, given, k)
  {
    assert forall i :: 0 <= i < n ==> facts[..n][i] == facts[i];
  }

  lemma SuppliesStill<T(!new)>(facts: seq<Fact>, field: Fact -> T, given: T -> bool, k: int)
    requires facts != [] && Supplies(facts[..|facts| - 1], field, given, k)
    requires given(field(facts[|facts| - 1])) ==> !TakesOver(facts, field, given, |facts| - 1)
    ensures Supplies(facts, field, given, k)
  {
    var n := |facts| - 1;
    forall i | 0 <= i < n ensures TakesOver(facts[..n], field, given, i) <==> TakesOver(facts, field, given, i) {
      TakesOverPrefix(facts, n, field, given, i);
    }
    assert forall i :: 0 <= i < n ==> facts[..n][i] == facts[i];
  }

  lemma FilledOneMore<T(!new)>(facts: seq<Fact>, field: Fact -> T, given: T -> bool, was: T, v: T, strong: bool)
    requires |facts| > 1 && FilledFrom(facts[..|facts| - 1], field, given, was)
    requires strong <==> forall i :: 0 <= i < |facts| - 1 ==> Quality(facts[i]) <= Quality(facts[|facts| - 1])
    requires var now := field(facts[|facts| - 1]);
      v == if strong then (if given(now) then now else was) else (if given(was) then was else now)
    ensures FilledFrom(facts, field, given, v)
  {
    var n := |facts| - 1;
    var now := field(facts[n]);
    assert forall i :: 0 <= i < n ==> facts[..n][i] == facts[i];
    if given(now) && (strong || !given(was)) {
      assert Supplies(facts, field, given, n);
    } else if given(was) {
      var k :| Supplies(facts[..n], field, given, k) && was == field(facts[..n][k]);
      SuppliesStill(facts, field, given, k);
    }
  }

  lemma {:induction false} MergeFills<T(!new)>(facts: seq<Fact>, field: Fact -> T, given: T -> bool)
    requires facts != [] && OneId(facts) && Fills(field, given)
    ensures MergeAll(facts).Some? && FilledFrom(facts, field, given, field(MergeAll(facts).value))
  {
    var n := |facts| - 1;
    if n == 0 {
      if given(field(facts[0])) { assert Supplies(facts, field, given, 0); }
    } else {
      MergeFills(facts[..n], field, given);
      var j := MergeTakesBest(facts[..n]);
      var before := MergeAll(facts[..n]).value;
      PayloadSame(before, facts[j]);
      NoWeaker(facts, j);
      FilledOneMore(facts, field, given, field(before), field(MergeAll(facts).value), Quality(facts[n]) >= Quality(before));
    }
  }

  lemma NoWeaker(facts: seq<Fact>, j: nat)
    requires |facts| > 1 && IsBest(facts[..|facts| - 1], j)
    ensures var last := facts[|facts| - 1];
      Quality(last) >= Quality(facts[j]) <==> forall i :: 0 <= i < |facts| - 1 ==> Quality(facts[i]) <= Quality(last)
  {
    assert forall i :: 0 <= i < |facts| - 1 ==> facts[..|facts| - 1][i] == facts[i];
  }

  lemma FieldsFill()
    ensures Fills((f: Fact) => f.evidencePath, (v: Option<string>) => v.Some? && v.value != "")
    ensures Fills((f: Fact) => f.evidenceLine, (v: Option<int>) => v.Some? && v.value != 0)
    ensures Fills((f: Fact) => f.note, (v: Option<string>) => v.Some? && v.value != "")
    ensures Fills((f: Fact) => f.technology, (v: Option<string>) => v.Some? && v.value != "")
    ensures Fills((f: Fact) => f.moduleName, (v: Option<string>) => v.Some? && v.value != "")
    ensures Fills((f: Fact) => f.passId, (v: Value) => Truthy(v))
    ensures Fills((f: Fact) => f.sourceRevision, (v: Value) => Truthy(v))
  {
  }

  function Entry(f: Fact, key: Key): Option<Value> {
    if key in MetadataOf(f) then Some(MetadataOf(f)[key]) else None
  }

  /** Each metadata entry is filled like a field of its own. */
  lemma EntriesFill(key: Key)
    ensures Fills((f: Fact) => Entry(f, key), (v: Option<Value>) => v.Some?)
  {
  }

  /** A strictly weaker observation replaces nothing that is given. */
  lemma WeakerOnlyFills<T(!new)>(existing: Fact, incoming: Fact, field: Fact -> T, given: T -> bool)
    requires existing.id == incoming.id && Quality(incoming) < Quality(existing) && Fills(field, given)
    ensures var merged := Merge(existing, incoming).value;
      && Payload(merged) == Payload(existing)
      && (given(field(existing)) ==> field(merged) == field(existing))
  {
  }
}
