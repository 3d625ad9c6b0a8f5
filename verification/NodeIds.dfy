/** The ids of nodes in the dependency topology (application/dependency_analysis.py). */
module NodeIds {

  /** An empty service stands for none. */
  function NodeId(kind: string, name: string, service: string): string {
    if service != "" then kind + ":" + service + ":" + name else kind + ":" + name
  }

  lemma SameTail(prefix: string, a: string, b: string)
    requires prefix + a == prefix + b
    ensures a == b
  {
    assert (prefix + a)[|prefix|..] == a && (prefix + b)[|prefix|..] == b;
  }

  function LocalName(name: string, service: string): string {
    if service != "" then service + ":" + name else name
  }

  lemma IdIsLocal(kind: string, name: string, service: string)
    ensures NodeId(kind, name, service) == kind + ":" + LocalName(name, service)
  {
    assert kind + ":" + (service + ":" + name) == kind + ":" + service + ":" + name;
  }

  /** What `service'` has beyond `service`, `name` has in front of `name'`. */
  ghost predicate Shifted(service: string, name: string, service': string, name': string) {
    exists more :: service' == LocalName(more, service) && service' != "" && name == more + ":" + name'
  }

  lemma ShiftedMeet(service: string, name: string, service': string, name': string)
    requires Shifted(service, name, service', name')
    ensures LocalName(name, service) == LocalName(name', service')
  {
    var more :| service' == LocalName(more, service) && service' != "" && name == more + ":" + name';
    assert service + ":" + (more + ":" + name') == service + ":" + more + ":" + name';
  }

  /** The longer service starts with the shorter one and a colon. */
  lemma LongerService(service: string, name: string, service': string, name': string)
    requires service != "" && |service| < |service'| && service + ":" + name == service' + ":" + name'
    ensures Shifted(service, name, service', name')
  {
    var whole, n := service + ":" + name, |service| + 1;
    assert whole[..n] == service + ":" && whole[n..] == name;
    assert whole[..|service'|] == service' && whole[|service'|..] == ":" + name';
    var more := service'[n..];
    assert service' == service + ":" + more;
    assert whole[n..] == service'[n..] + (":" + name');
    assert name == more + ":" + name';
  }

  lemma SameLength(service: string, name: string, service': string, name': string)
    requires |service| == |service'| && service + ":" + name == service' + ":" + name'
    ensures service == service' && name == name'
  {
    var whole, n := service + ":" + name, |service|;
    assert whole[..n] == service && whole[n + 1..] == name;
    assert whole[..n] == service' && whole[n + 1..] == name';
  }

  lemma LocalNamesMeet(service: string, name: string, service': string, name': string)
    requires LocalName(name, service) == LocalName(name', service')
    ensures (name == name' && service == service') || Shifted(service, name, service', name') || Shifted(service', name', service, name)
  {
    if service != "" && service' != "" {
      if |service| < |service'| {
        LongerService(service, name, service', name');
      } else if |service'| < |service| {
        LongerService(service', name', service, name);
      } else {
        SameLength(service, name, service', name');
      }
    } else if service' != "" {
      assert service' == LocalName(service', service);
    } else if service != "" {
      assert service == LocalName(service, service');
    }
  }

  /** Within a kind two nodes share an id exactly if they are the same, or if the name of one
      starts with what its service lacks of the other's service. */
  lemma IdsMeetIff(kind: string, name: string, service: string, name': string, service': string)
    ensures NodeId(kind, name, service) == NodeId(kind, name', service') <==>
      (name == name' && service == service') || Shifted(service, name, service', name') || Shifted(service', name', service, name)
  {
    IdIsLocal(kind, name, service);
    IdIsLocal(kind, name', service');
    if NodeId(kind, name, service) == NodeId(kind, name', service') {
      SameTail(kind + ":", LocalName(name, service), LocalName(name', service'));
      LocalNamesMeet(service, name, service', name');
    }
    if Shifted(service, name, service', name') { ShiftedMeet(service, name, service', name'); }
    if Shifted(service', name', service, name) { ShiftedMeet(service', name', service, name); }
  }

  /** Dynamic topics are kept apart per service: names without a colon never meet. */
  lemma IdsDiffer(kind: string, name: string, service: string, name': string, service': string)
    requires ':' !in name && ':' !in name' && NodeId(kind, name, service) == NodeId(kind, name', service')
    ensures name == name' && service == service'
  {
    IdsMeetIff(kind, name, service, name', service');
    NoColonNoShift(service, name, service', name');
    NoColonNoShift(service', name', service, name);
  }

  lemma NoColonNoShift(service: string, name: string, service': string, name': string)
    requires ':' !in name
    ensures !Shifted(service, name, service', name')
  {
    forall more ensures name != more + ":" + name' {
      assert (more + ":" + name')[|more|] == ':';
    }
  }

  /** A static topic and a dynamic one of a service meet exactly if the static name is the
      service, a colon and the dynamic name. */
  lemma StaticMeetsDynamic(fixed: string, service: string, dynamic: string)
    requires service != ""
    ensures NodeId("topic", fixed, "") == NodeId("topic", dynamic, service) <==> fixed == service + ":" + dynamic
  {
    IdIsLocal("topic", fixed, "");
    IdIsLocal("topic", dynamic, service);
    if NodeId("topic", fixed, "") == NodeId("topic", dynamic, service) {
      SameTail("topic" + ":", fixed, service + ":" + dynamic);
    }
  }

  lemma FirstColon(kind: string, rest: string, kind': string, rest': string)
    requires ':' !in kind && kind + ":" + rest == kind' + ":" + rest'
    ensures |kind| <= |kind'|
  {
    var whole := kind + ":" + rest;
    assert forall k :: 0 <= k < |kind| ==> whole[k] == kind[k];
    assert (kind' + ":" + rest')[|kind'|] == ':';
  }

  /** Ids of two kinds without a colon never meet, whatever the names are. */
  lemma KindsApart(kind: string, name: string, service: string, kind': string, name': string, service': string)
    requires ':' !in kind && ':' !in kind' && NodeId(kind, name, service) == NodeId(kind', name', service')
    ensures kind == kind'
  {
    IdIsLocal(kind, name, service);
    IdIsLocal(kind', name', service');
    var a, b := LocalName(name, service), LocalName(name', service');
    FirstColon(kind, a, kind', b);
    FirstColon(kind', b, kind, a);
    assert (kind + ":" + a)[..|kind|] == kind && (kind' + ":" + b)[..|kind|] == kind';
  }
}
