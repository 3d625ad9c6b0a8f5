/** A selection whose second export differs from the first (application/ai_graph.py). */
module ManifestDrift {
  import opened Wrappers
  import opened Basics
  import opened Json
  import opened GraphFacts
  import opened Manifest
  import opened ManifestElements
  import opened ManifestRoundTrip

  /** An edge from a service to itself whose name has a space in front. */
  function LooseEdge(namespace: string): Fact {
    Fact("e", "edge", "calls", None, Some("service"), Some(" a"), Some("service"), Some(" a"), Some("calls"), "ai", "high",
         None, None, None, None, None, namespace, "confirmed", None, Null, Null)
  }

  lemma StripLoose()
    ensures Strip(" a") == "a" && Strip("service") == "service" && Strip("calls") == "calls" && Strip("e") == "e"
  {
    assert StripLeft(" a") == StripLeft("a") by { assert " a"[1..] == "a"; }
    StripTrims("a");
    StripTrims("service");
    StripTrims("calls");
    StripTrims("e");
  }

  lemma LooseReference(namespace: string)
    ensures Selection([], [LooseEdge(namespace)]).References() == [("service", " a")]
  {
    var e := LooseEdge(namespace);
    assert [e][..0] == [] && Refs(map[], [e][..0]) == [];
  }

  lemma LooseElementsOk(namespace: string)
    ensures RefOk(("service", " a")) && EdgeOk(LooseEdge(namespace))
  {
    StripLoose();
  }

  lemma LooseShown(namespace: string)
    ensures Distinct(StripAll(ShownIds(Selection([], [LooseEdge(namespace)]))))
  {
    var s := Selection([], [LooseEdge(namespace)]);
    LooseReference(namespace);
    StripTrims("ref:service: a");
    StripTrims("e");
    assert RefId(("service", " a")) == "ref:service: a";
    assert ShownIds(s) == ["ref:service: a", "e"];
  }

  lemma LooseStored(namespace: string)
    ensures Distinct(IdsOf(Selection([], [LooseEdge(namespace)]).Imported(namespace)))
  {
    var s := Selection([], [LooseEdge(namespace)]);
    LooseReference(namespace);
    StripTrims("ref:service: a");
    assert RefId(("service", " a")) == "ref:service: a";
    assert |FactId(namespace, "node", "ref:service: a")| > 1;
    assert IdsOf(s.Imported(namespace)) == [FactId(namespace, "node", "ref:service: a"), "e"];
  }

  lemma LooseExportable(namespace: string)
    ensures Exportable(Selection([], [LooseEdge(namespace)]), namespace)
  {
    LooseReference(namespace);
    LooseElementsOk(namespace);
    LooseShown(namespace);
    LooseStored(namespace);
  }

  /** Exporting what was imported, and importing it again, changes the facts. */
  lemma RoundsDiffer(namespace: string, complete: bool)
    requires !Blank(namespace)
    ensures var s := Selection([], [LooseEdge(namespace)]); var facts := s.Imported(namespace);
      && Exportable(s, namespace)
      && Loaded(ManifestOf(facts, namespace, complete), None, None, None) != Some(Import(facts, namespace, complete))
  {
    var s := Selection([], [LooseEdge(namespace)]);
    LooseExportable(namespace);
    assert LooseEdge(namespace) in s.edges && !Trimmed(SourceEnd(LooseEdge(namespace)).1);
    FixedPoint(s, namespace, complete);
  }

  // ----- ids that meet once they are stripped

  /** An edge from a service to itself whose id is that of the service's reference node, but for
      a space at its end. */
  function MeetingEdge(namespace: string): Fact {
    Fact(FactId(namespace, "node", "ref:service:a") + " ", "edge", "calls", None, Some("service"), Some("a"), Some("service"), Some("a"),
         Some("calls"), "ai", "high", None, None, None, None, None, namespace, "confirmed", None, Null, Null)
  }

  lemma SpaceBehind(x: string)
    requires x != "" && Trimmed(x)
    ensures Strip(x + " ") == x && Strip(x) == x
  {
    var y := x + " ";
    assert y[0] == x[0] && StripLeft(y) == y;
    assert y[..|y| - 1] == x && y[|y| - 1] == ' ';
    assert StripRight(y) == StripRight(x) == x;
    StripTrims(x);
  }

  lemma MeetingIds(namespace: string)
    requires namespace != "" && Trimmed(namespace)
    ensures var id := FactId(namespace, "node", "ref:service:a");
      id != "" && Trimmed(id) && |id| > |"ref:service:a"| && Strip(id + " ") == id && Strip(id) == id
  {
    var id := FactId(namespace, "node", "ref:service:a");
    assert id[0] == namespace[0] && id[|id| - 1] == 'a';
    SpaceBehind(id);
  }

  lemma MeetingReference(namespace: string)
    ensures Selection([], [MeetingEdge(namespace)]).References() == [("service", "a")]
  {
    var e := MeetingEdge(namespace);
    assert [e][..0] == [] && Refs(map[], [e][..0]) == [];
  }

  lemma MeetingElementsOk(namespace: string)
    requires namespace != "" && Trimmed(namespace)
    ensures RefOk(("service", "a")) && EdgeOk(MeetingEdge(namespace))
  {
    MeetingIds(namespace);
    StripTrims("a");
    StripTrims("service");
    StripTrims("calls");
  }

  lemma MeetingShown(namespace: string)
    requires namespace != "" && Trimmed(namespace)
    ensures Distinct(StripAll(ShownIds(Selection([], [MeetingEdge(namespace)]))))
  {
    var s, id := Selection([], [MeetingEdge(namespace)]), FactId(namespace, "node", "ref:service:a");
    MeetingReference(namespace);
    MeetingIds(namespace);
    StripTrims("ref:service:a");
    assert RefId(("service", "a")) == "ref:service:a";
    assert ShownIds(s) == ["ref:service:a", id + " "];
    assert StripAll(ShownIds(s)) == ["ref:service:a", id];
  }

  lemma MeetingStored(namespace: string)
    requires namespace != "" && Trimmed(namespace)
    ensures var stored := IdsOf(Selection([], [MeetingEdge(namespace)]).Imported(namespace));
      Distinct(stored) && !Distinct(StripAll(stored))
  {
    var s, id := Selection([], [MeetingEdge(namespace)]), FactId(namespace, "node", "ref:service:a");
    MeetingReference(namespace);
    MeetingIds(namespace);
    StripTrims("ref:service:a");
    assert RefId(("service", "a")) == "ref:service:a";
    var stored := IdsOf(s.Imported(namespace));
    assert stored == [id, id + " "];
    assert StripAll(stored) == [id, id];
    assert StripAll(stored)[0] == StripAll(stored)[1];
  }

  lemma MeetingExportable(namespace: string)
    requires namespace != "" && Trimmed(namespace)
    ensures Exportable(Selection([], [MeetingEdge(namespace)]), namespace)
  {
    MeetingReference(namespace);
    MeetingElementsOk(namespace);
    MeetingShown(namespace);
    MeetingStored(namespace);
  }

  lemma MeetingTrimmed(namespace: string)
    ensures EndsTrimmed(Selection([], [MeetingEdge(namespace)])) && Typed(Selection([], [MeetingEdge(namespace)]))
  {
  }

  /** With every edge end trimmed, the facts that an import has stored may be refused when they
      are exported and imported again. */
  lemma IdsMeetOnceStripped(namespace: string, complete: bool)
    requires namespace != "" && Trimmed(namespace)
    ensures var s := Selection([], [MeetingEdge(namespace)]); var facts := s.Imported(namespace);
      && Exportable(s, namespace) && EndsTrimmed(s)
      && Loaded(ManifestOf(facts, namespace, complete), None, None, None) != Some(Import(facts, namespace, complete))
  {
    MeetingExportable(namespace);
    MeetingTrimmed(namespace);
    MeetingStored(namespace);
    StripTrims(namespace);
    FixedPoint(Selection([], [MeetingEdge(namespace)]), namespace, complete);
  }
}
