/** Where the value of a key comes from along resolved calls
    (indexing/java_value_origins.py). */
module ValueOrigins {
  import opened Wrappers
  import opened JavaMethods

  datatype Origin = FromLiteral(text: string) | FromParameter(index: nat)

  // ----- _parameter_index

  /** The positions of a name among the first `n` parameters. */
  function Named(params: seq<Param>, name: string, n: nat): (r: seq<nat>)
    requires n <= |params|
    ensures forall i: nat :: i in r <==> i < n && params[i].name == name
  {
    if n == 0 then [] else
      Named(params, name, n - 1) + (if params[n - 1].name == name then [n - 1] else [])
  }

  /** The only parameter of that name. */
  predicate IsTheParameter(m: MethodNode, name: string, i: nat) {
    && i < |m.params| && m.params[i].name == name
    && forall j: nat | j < |m.params| :: m.params[j].name == name ==> j == i
  }

  /** `is_reassigned`: the text of some write is the name. */
  predicate IsReassigned(m: MethodNode, name: string) {
    exists i | 0 <= i < |m.body| :: IsWrite(m.body[i]) && m.body[i].bare && m.body[i].target == name
  }

  function ParameterIndexOf(m: MethodNode, e: Expr): (r: Option<nat>)
    ensures r.Some? ==> e.Name? && !IsReassigned(m, e.id) && IsTheParameter(m, e.id, r.value)
  {
    if !e.Name? then None else
      var candidates := Named(m.params, e.id, |m.params|);
      if |candidates| != 1 then None else
        assert candidates[0] in candidates;
        assert forall j: nat :: j < |m.params| && m.params[j].name == e.id ==> j in candidates;
        if !m.params[candidates[0]].scalar || IsReassigned(m, e.id) then None else Some(candidates[0])
  }

  method ParameterIndex(m: MethodNode, e: Expr) returns (r: Option<nat>)
    ensures r == ParameterIndexOf(m, e)
  {
    if !e.Name? { return None; }
    var candidates: seq<nat> := [];
    for index := 0 to |m.params|
      invariant candidates == Named(m.params, e.id, index)
    {
      if m.params[index].name == e.id {
        candidates := candidates + [index];
      }
    }
    if |candidates| != 1 { return None; }
    assert candidates[0] in candidates;
    if !m.params[candidates[0]].scalar || IsReassigned(m, e.id) { return None; }
    return Some(candidates[0]);
  }

  // ----- _expression_origin

  /** A scalar local of that name with an initializer and marked as final, declared by `line`. */
  predicate IsAlias(m: MethodNode, name: string, line: nat, k: nat) {
    k < |m.body| && m.body[k].Local? && IsOwn(m, m.body[k].at) && m.body[k].name == name && m.body[k].line <= line &&
    m.body[k].marked && m.body[k].scalar && m.body[k].init.Some?
  }

  function AliasesIn(m: MethodNode, name: string, line: nat, n: nat): (r: seq<nat>)
    requires n <= |m.body|
    ensures forall k: nat :: k in r <==> k < n && IsAlias(m, name, line, k)
  {
    if n == 0 then [] else
      AliasesIn(m, name, line, n - 1) + (if IsAlias(m, name, line, n - 1) then [n - 1] else [])
  }

  /** The declaration a name is resolved to: the only alias of that name. */
  function AliasOf(m: MethodNode, name: string, line: nat): (r: Option<nat>)
    ensures r.Some? ==> IsAlias(m, name, line, r.value)
  {
    var declarations := AliasesIn(m, name, line, |m.body|);
    if |declarations| != 1 then None else
      assert declarations[0] in declarations;
      Some(declarations[0])
  }

  function LocalNames(m: MethodNode): set<string> {
    set i | 0 <= i < |m.body| && m.body[i].Local? :: m.body[i].name
  }

  /** Termination on cyclic aliases: `visited` grows inside the declared names. */
  function OriginOf(m: MethodNode, e: Expr, line: nat, visited: set<string>): Option<Origin>
    decreases |LocalNames(m) - visited|
  {
    if e.Literal? then Some(FromLiteral(e.text)) else
      var index := ParameterIndexOf(m, e);
      if index.Some? then Some(FromParameter(index.value)) else
        if !e.Name? || e.id in visited then None else
          match AliasOf(m, e.id, line)
          case None => None
          case Some(k) =>
            Fewer(m, visited, k);
            OriginOf(m, m.body[k].init.value, m.body[k].line, visited + {e.id})
  }

  lemma Fewer(m: MethodNode, visited: set<string>, k: nat)
    requires k < |m.body| && m.body[k].Local? && m.body[k].name !in visited
    ensures |LocalNames(m) - (visited + {m.body[k].name})| < |LocalNames(m) - visited|
  {
    var names, x := LocalNames(m), m.body[k].name;
    assert names - visited == (names - (visited + {x})) + {x};
  }

  // ----- _call_argument

  predicate IsCallSite(m: MethodNode, callLine: nat, callee: string, i: nat) {
    i < |m.body| && m.body[i].Invoke? && m.body[i].line <= callLine <= m.body[i].last && m.body[i].callee == callee
  }

  function CallSites(m: MethodNode, callLine: nat, callee: string, n: nat): (r: seq<nat>)
    requires n <= |m.body|
    ensures forall i: nat :: i in r <==> i < n && IsCallSite(m, callLine, callee, i)
  {
    if n == 0 then [] else
      CallSites(m, callLine, callee, n - 1) + (if IsCallSite(m, callLine, callee, n - 1) then [n - 1] else [])
  }

  /** The only invocation of that name at that line. */
  function CallSiteOf(m: MethodNode, callLine: nat, callee: string): (r: Option<nat>)
    ensures r.Some? ==> IsCallSite(m, callLine, callee, r.value)
  {
    var sites := CallSites(m, callLine, callee, |m.body|);
    if |sites| != 1 then None else
      assert sites[0] in sites;
      Some(sites[0])
  }

  lemma OnlyCallSite(m: MethodNode, callLine: nat, callee: string, i: nat)
    requires CallSiteOf(m, callLine, callee).Some? && IsCallSite(m, callLine, callee, i)
    ensures CallSiteOf(m, callLine, callee) == Some(i)
  {
    assert i in CallSites(m, callLine, callee, |m.body|);
  }

  function CallArgumentOf(m: MethodNode, callLine: nat, callee: string, index: nat): Option<Expr> {
    match CallSiteOf(m, callLine, callee)
    case None => None
    case Some(site) =>
      if index >= |m.body[site].args| then None else Some(m.body[site].args[index])
  }

  method CallArgument(m: MethodNode, callLine: nat, callee: string, index: nat) returns (r: Option<Expr>)
    ensures r == CallArgumentOf(m, callLine, callee, index)
  {
    var candidates: seq<nat> := [];
    for i := 0 to |m.body|
      invariant candidates == CallSites(m, callLine, callee, i)
    {
      if IsCallSite(m, callLine, callee, i) {
        candidates := candidates + [i];
      }
    }
    if |candidates| != 1 { return None; }
    assert candidates[0] in candidates;
    var args := m.body[candidates[0]].args;
    if index >= |args| { return None; }
    return Some(args[index]);
  }

  // ----- trace_scalar_key_identity

  datatype IntegrationMethod =
    IntegrationMethod(id: string, qualified: string, simpleName: string, path: string, first: nat, last: nat)
  datatype MethodCall = MethodCall(caller: string, callerPath: string, callLine: nat)
  datatype Hop = Hop(target: IntegrationMethod, call: MethodCall)

  datatype KeyIdentity =
    | LiteralKey(resource: string, text: string)
    | ParameterKey(resource: string, methodId: string, index: nat)

  /** The parsed declaration of each method that was located without ambiguity. */
  type Sources = map<string, MethodNode>

  function CallerOf(entry: IntegrationMethod, route: seq<Hop>, j: nat): IntegrationMethod
    requires j < |route|
  {
    if j == 0 then entry else route[j - 1].target
  }

  predicate CallBelongs(call: MethodCall, caller: IntegrationMethod) {
    call.caller == caller.qualified && call.callerPath == caller.path && caller.first <= call.callLine <= caller.last
  }

  /** Where the caller of hop `n - 1` takes the argument at `index` from. */
  function HopOrigin(sources: Sources, entry: IntegrationMethod, route: seq<Hop>, n: nat, index: nat): Option<Origin>
    requires 0 < n <= |route|
  {
    var Hop(target, call) := route[n - 1];
    var caller := CallerOf(entry, route, n - 1);
    if caller.id !in sources then None else
      var argument := CallArgumentOf(sources[caller.id], call.callLine, target.simpleName, index);
      if argument.None? then None else OriginOf(sources[caller.id], argument.value, call.callLine, {})
  }

  /** `hops(n, index)` is where the argument at `index` of hop `n - 1` comes from. */
  type Hops = (nat, nat) -> Option<Origin>

  function HopsOf(sources: Sources, entry: IntegrationMethod, route: seq<Hop>): Hops {
    (n: nat, index: nat) => if 0 < n <= |route| then HopOrigin(sources, entry, route, n, index) else None
  }

  /** Where parameter `index` of `current` comes from, through the first `n` hops. */
  function TraceBack(hops: Hops, entry: IntegrationMethod, route: seq<Hop>, n: nat, current: IntegrationMethod, index: nat, resource: string): Option<KeyIdentity>
    requires n <= |route|
  {
    if n == 0 then Some(ParameterKey(resource, current.id, index)) else
      var caller := CallerOf(entry, route, n - 1);
      if route[n - 1].target.id != current.id || !CallBelongs(route[n - 1].call, caller) then None else
        match hops(n, index)
        case None => None
        case Some(FromLiteral(text)) => Some(LiteralKey(resource, text))
        case Some(FromParameter(i)) => TraceBack(hops, entry, route, n - 1, caller, i, resource)
  }

  function TraceOf(sources: Sources, route: seq<Hop>, entry: IntegrationMethod, current: IntegrationMethod, key: Option<Expr>, resource: string): Option<KeyIdentity> {
    if key.None? || resource == "" then None
    else if key.value.Literal? then Some(LiteralKey(resource, key.value.text))
    else if current.id !in sources then None
    else
      match OriginOf(sources[current.id], key.value, current.last, {})
      case None => None
      case Some(FromLiteral(text)) => Some(LiteralKey(resource, text))
      case Some(FromParameter(i)) => TraceBack(HopsOf(sources, entry, route), entry, route, |route|, current, i, resource)
  }

  method ArgumentOrigin(sources: Sources, entry: IntegrationMethod, route: seq<Hop>, n: nat, parameter: nat) returns (origin: Option<Origin>)
    requires 0 < n <= |route|
    ensures origin == HopOrigin(sources, entry, route, n, parameter)
  {
    var Hop(target, call) := route[n - 1];
    var caller := CallerOf(entry, route, n - 1);
    if caller.id !in sources { return None; }
    var node := sources[caller.id];
    var argument := CallArgument(node, call.callLine, target.simpleName, parameter);
    if argument.None? { return None; }
    if argument.value.Literal? { return Some(FromLiteral(argument.value.text)); }
    return OriginOf(node, argument.value, call.callLine, {});
  }

  method TraceScalarKeyIdentity(sources: Sources, route: seq<Hop>, entry: IntegrationMethod, current: IntegrationMethod, key: Option<Expr>, resource: string)
    returns (r: Option<KeyIdentity>)
    ensures r == TraceOf(sources, route, entry, current, key, resource)
  {
    if key.None? || resource == "" { return None; }
    if key.value.Literal? { return Some(LiteralKey(resource, key.value.text)); }
    if current.id !in sources { return None; }
    var origin := OriginOf(sources[current.id], key.value, current.last, {});
    if origin.None? { return None; }
    if origin.value.FromLiteral? { return Some(LiteralKey(resource, origin.value.text)); }
    var here, parameter := current, origin.value.index;
    var index: nat := |route|;
    while index > 0
      invariant index <= |route|
      invariant TraceBack(HopsOf(sources, entry, route), entry, route, index, here, parameter, resource) ==
                TraceOf(sources, route, entry, current, key, resource)
    {
      index := index - 1;
      var Hop(target, call) := route[index];
      if target.id != here.id { return None; }
      var caller := CallerOf(entry, route, index);
      if !CallBelongs(call, caller) { return None; }
      var callerOrigin := ArgumentOrigin(sources, entry, route, index + 1, parameter);
      if callerOrigin.None? { return None; }
      if callerOrigin.value.FromLiteral? { return Some(LiteralKey(resource, callerOrigin.value.text)); }
      parameter := callerOrigin.value.index;
      here := caller;
    }
    return Some(ParameterKey(resource, here.id, parameter));
  }
}
