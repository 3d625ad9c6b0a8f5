/** When exactly a key is traced, and to what (indexing/java_value_origins.py). */
module TraceLaws {
  import opened Wrappers
  import opened JavaMethods
  import opened ValueOrigins

  // ----- one method

  /** The only parameter of that name, a scalar that no bare write names. */
  predicate NamesParameter(m: MethodNode, name: string, i: nat) {
    && i < |m.params| && m.params[i].name == name && m.params[i].scalar
    && (forall j | 0 <= j < |m.params| && j != i :: m.params[j].name != name)
    && forall w | 0 <= w < |m.body| :: !((m.body[w].Assign? || m.body[w].Update?) && m.body[w].bare && m.body[w].target == name)
  }

  /** A local of the method itself that is declared by `line` with an initializer and marked as
      final, of a scalar type. */
  predicate MayAlias(m: MethodNode, name: string, line: nat, k: int) {
    && 0 <= k < |m.body| && m.body[k].Local? && m.body[k].name == name && m.body[k].line <= line
    && m.body[k].marked && m.body[k].scalar && m.body[k].init.Some? && IsOwn(m, m.body[k].at)
  }

  predicate NamesAlias(m: MethodNode, name: string, line: nat, k: nat) {
    MayAlias(m, name, line, k) && forall j | 0 <= j < |m.body| :: MayAlias(m, name, line, j) ==> j == k
  }

  /** Following the aliases in `chain` an expression leads to the origin. */
  ghost predicate Resolves(m: MethodNode, e: Expr, line: nat, visited: set<string>, chain: seq<nat>, o: Origin)
    decreases |chain|
  {
    if chain == [] then
      match e
      case Literal(text) => o == FromLiteral(text)
      case Name(x) => o.FromParameter? && NamesParameter(m, x, o.index)
      case Other(_) => false
    else
      && e.Name? && e.id !in visited && (forall i :: !NamesParameter(m, e.id, i)) && NamesAlias(m, e.id, line, chain[0])
      && Resolves(m, m.body[chain[0]].init.value, m.body[chain[0]].line, visited + {e.id}, chain[1..], o)
  }

  ghost predicate ResolvesBy(m: MethodNode, e: Expr, line: nat, chain: seq<nat>, o: Origin) { Resolves(m, e, line, {}, chain, o) }

  lemma ParameterIff(m: MethodNode, e: Expr, i: nat)
    ensures ParameterIndexOf(m, e) == Some(i) <==> e.Name? && NamesParameter(m, e.id, i)
  {
    if e.Name? {
      var candidates := Named(m.params, e.id, |m.params|);
      if NamesParameter(m, e.id, i) {
        assert i in candidates;
        OnlyNamed(m, e.id, i, |m.params|);
      }
    }
  }

  lemma {:induction false} OnlyNamed(m: MethodNode, name: string, i: nat, n: nat)
    requires NamesParameter(m, name, i) && n <= |m.params|
    ensures Named(m.params, name, n) == if i < n then [i] else []
  {
    if n != 0 {
      OnlyNamed(m, name, i, n - 1);
      assert m.params[n - 1].name == name <==> n - 1 == i;
    }
  }

  lemma AliasMeans(m: MethodNode, name: string, line: nat, k: nat)
    ensures IsAlias(m, name, line, k) <==> MayAlias(m, name, line, k)
  {
  }

  lemma AliasIff(m: MethodNode, name: string, line: nat, k: nat)
    ensures AliasOf(m, name, line) == Some(k) <==> NamesAlias(m, name, line, k)
  {
    var all := AliasesIn(m, name, line, |m.body|);
    if AliasOf(m, name, line) == Some(k) {
      AliasMeans(m, name, line, k);
      forall j | 0 <= j < |m.body| && MayAlias(m, name, line, j) ensures j == k {
        AliasMeans(m, name, line, j);
        assert j in all;
      }
    }
    if NamesAlias(m, name, line, k) { OnlyAlias(m, name, line, k, |m.body|); }
  }

  lemma {:induction false} OnlyAlias(m: MethodNode, name: string, line: nat, k: nat, n: nat)
    requires NamesAlias(m, name, line, k) && n <= |m.body|
    ensures AliasesIn(m, name, line, n) == if k < n then [k] else []
  {
    if n != 0 {
      OnlyAlias(m, name, line, k, n - 1);
      AliasMeans(m, name, line, n - 1);
    }
  }

  /** An expression has exactly the origin that some chain of aliases leads to. */
  lemma OriginIff(m: MethodNode, e: Expr, line: nat, o: Origin)
    ensures OriginOf(m, e, line, {}) == Some(o) <==> exists chain: seq<nat> :: ResolvesBy(m, e, line, chain, o)
  {
    if OriginOf(m, e, line, {}) == Some(o) {
      var chain := OriginResolves(m, e, line, {}, o);
      assert ResolvesBy(m, e, line, chain, o);
    }
    if chain: seq<nat> :| ResolvesBy(m, e, line, chain, o) { ResolvesOrigin(m, e, line, {}, chain, o); }
  }

  lemma {:induction false} OriginResolves(m: MethodNode, e: Expr, line: nat, visited: set<string>, o: Origin) returns (chain: seq<nat>)
    requires OriginOf(m, e, line, visited) == Some(o)
    ensures Resolves(m, e, line, visited, chain, o)
    decreases |LocalNames(m) - visited|
  {
    chain := [];
    if !e.Literal? {
      forall i: nat ensures ParameterIndexOf(m, e) == Some(i) <==> e.Name? && NamesParameter(m, e.id, i) { ParameterIff(m, e, i); }
      if ParameterIndexOf(m, e).None? {
        var k := AliasOf(m, e.id, line).value;
        AliasIff(m, e.id, line, k);
        Fewer(m, visited, k);
        var rest := OriginResolves(m, m.body[k].init.value, m.body[k].line, visited + {e.id}, o);
        chain := [k] + rest;
        assert chain[1..] == rest;
      }
    }
  }

  lemma {:induction false} ResolvesOrigin(m: MethodNode, e: Expr, line: nat, visited: set<string>, chain: seq<nat>, o: Origin)
    requires Resolves(m, e, line, visited, chain, o)
    ensures OriginOf(m, e, line, visited) == Some(o)
    decreases |chain|
  {
    if e.Name? {
      forall i: nat ensures ParameterIndexOf(m, e) == Some(i) <==> NamesParameter(m, e.id, i) { ParameterIff(m, e, i); }
      if chain != [] {
        AliasIff(m, e.id, line, chain[0]);
        Fewer(m, visited, chain[0]);
        ResolvesOrigin(m, m.body[chain[0]].init.value, m.body[chain[0]].line, visited + {e.id}, chain[1..], o);
      }
    }
  }

  // ----- one hop

  /** The item invokes `callee` on a span of lines that holds `line`. */
  predicate Invokes(m: MethodNode, line: nat, callee: string, i: int) {
    0 <= i < |m.body| && m.body[i].Invoke? && m.body[i].callee == callee && m.body[i].line <= line && line <= m.body[i].last
  }

  ghost predicate SoleSite(m: MethodNode, line: nat, callee: string, site: nat) {
    Invokes(m, line, callee, site) && forall i :: Invokes(m, line, callee, i) ==> i == site
  }

  lemma SiteIff(m: MethodNode, line: nat, callee: string, site: nat)
    ensures CallSiteOf(m, line, callee) == Some(site) <==> SoleSite(m, line, callee, site)
  {
    if CallSiteOf(m, line, callee) == Some(site) {
      forall i | Invokes(m, line, callee, i) ensures i == site { OnlyCallSite(m, line, callee, i); }
    }
    if SoleSite(m, line, callee, site) { OnlySite(m, line, callee, site, |m.body|); }
  }

  lemma {:induction false} OnlySite(m: MethodNode, line: nat, callee: string, site: nat, n: nat)
    requires SoleSite(m, line, callee, site) && n <= |m.body|
    ensures CallSites(m, line, callee, n) == if site < n then [site] else []
  {
    if n != 0 {
      OnlySite(m, line, callee, site, n - 1);
      assert IsCallSite(m, line, callee, n - 1) <==> Invokes(m, line, callee, n - 1);
    }
  }

  /** The call of hop `n` passes something of this origin at `index`. */
  ghost predicate PassesOn(sources: Sources, entry: IntegrationMethod, route: seq<Hop>, n: nat, index: nat, o: Origin)
    requires 0 < n <= |route|
  {
    var caller, call, callee := if n == 1 then entry else route[n - 2].target, route[n - 1].call, route[n - 1].target.simpleName;
    caller.id in sources && Passes(sources[caller.id], call.callLine, callee, index, o)
  }

  ghost predicate Passes(m: MethodNode, line: nat, callee: string, index: nat, o: Origin) {
    exists site: nat, chain: seq<nat> :: PassesAt(m, line, callee, site, index, chain, o)
  }

  ghost predicate PassesAt(m: MethodNode, line: nat, callee: string, site: nat, index: nat, chain: seq<nat>, o: Origin) {
    SoleSite(m, line, callee, site) && index < |m.body[site].args| && ResolvesBy(m, m.body[site].args[index], line, chain, o)
  }

  /** The call of hop `n` stands in the method before it. */
  predicate Stands(entry: IntegrationMethod, route: seq<Hop>, n: nat)
    requires 0 < n <= |route|
  {
    var caller, call := if n == 1 then entry else route[n - 2].target, route[n - 1].call;
    call.caller == caller.qualified && call.callerPath == caller.path && caller.first <= call.callLine && call.callLine <= caller.last
  }

  lemma SiteOrigin(m: MethodNode, line: nat, callee: string, index: nat, o: Origin)
    ensures Passes(m, line, callee, index, o) <==>
      CallArgumentOf(m, line, callee, index).Some? && OriginOf(m, CallArgumentOf(m, line, callee, index).value, line, {}) == Some(o)
  {
    if CallArgumentOf(m, line, callee, index).Some? {
      var site := CallSiteOf(m, line, callee).value;
      SiteIff(m, line, callee, site);
      OriginIff(m, m.body[site].args[index], line, o);
      if chain: seq<nat> :| ResolvesBy(m, m.body[site].args[index], line, chain, o) {
        assert PassesAt(m, line, callee, site, index, chain, o);
      }
    }
    if site: nat, chain: seq<nat> :| PassesAt(m, line, callee, site, index, chain, o) {
      SiteIff(m, line, callee, site);
      OriginIff(m, m.body[site].args[index], line, o);
    }
  }

  lemma HopIff(sources: Sources, entry: IntegrationMethod, route: seq<Hop>, n: nat, index: nat, o: Origin)
    requires 0 < n <= |route|
    ensures HopsOf(sources, entry, route)(n, index) == Some(o) <==> PassesOn(sources, entry, route, n, index, o)
  {
    var caller, line, callee := CallerOf(entry, route, n - 1), route[n - 1].call.callLine, route[n - 1].target.simpleName;
    assert HopsOf(sources, entry, route)(n, index) == HopOrigin(sources, entry, route, n, index);
    if caller.id in sources { SiteOrigin(sources[caller.id], line, callee, index, o); }
    CallerIs(entry, route, n);
    ArgumentAt(sources, entry, route, n, index, caller, line, callee);
  }

  lemma CallerIs(entry: IntegrationMethod, route: seq<Hop>, n: nat)
    requires 0 < n <= |route|
    ensures CallerOf(entry, route, n - 1) == if n == 1 then entry else route[n - 2].target
  {
  }

  lemma ArgumentAt(sources: Sources, entry: IntegrationMethod, route: seq<Hop>, n: nat, index: nat, caller: IntegrationMethod, line: nat, callee: string)
    requires 0 < n <= |route| && caller == CallerOf(entry, route, n - 1)
    requires line == route[n - 1].call.callLine && callee == route[n - 1].target.simpleName
    ensures HopOrigin(sources, entry, route, n, index) ==
      if caller.id !in sources || CallArgumentOf(sources[caller.id], line, callee, index).None? then None
      else OriginOf(sources[caller.id], CallArgumentOf(sources[caller.id], line, callee, index).value, line, {})
  {
  }

  // ----- a whole route

  /** From hop `n` down to hop `low + 1` each call passes a parameter of its method on, from
      `indices[j]` back to `indices[j - 1]`. */
  ghost predicate Handed(sources: Sources, entry: IntegrationMethod, route: seq<Hop>, indices: seq<nat>, low: nat, n: nat) {
    && low <= n <= |route| && |indices| == n + 1
    && forall j :: low < j <= n ==> HandedAt(sources, entry, route, indices, j)
  }

  ghost predicate HandedAt(sources: Sources, entry: IntegrationMethod, route: seq<Hop>, indices: seq<nat>, j: int)
    requires |indices| <= |route| + 1
  {
    && 0 < j < |indices| && Stands(entry, route, j)
    && PassesOn(sources, entry, route, j, indices[j], FromParameter(indices[j - 1]))
  }

  /** The route ends in the method that the trace starts from. */
  predicate EndsIn(route: seq<Hop>, n: nat, current: IntegrationMethod)
    requires n <= |route|
  {
    n > 0 ==> route[n - 1].target.id == current.id
  }

  /** One iteration that finds a parameter. */
  lemma StepBack(hops: Hops, entry: IntegrationMethod, route: seq<Hop>, n: nat, current: IntegrationMethod, index: nat, resource: string, i: nat)
    requires 0 < n && EndsInAt(route, n, current) && Stands(entry, route, n) && hops(n, index) == Some(FromParameter(i))
    ensures TraceBack(hops, entry, route, n, current, index, resource) == TraceBack(hops, entry, route, n - 1, CallerOf(entry, route, n - 1), i, resource)
  {
  }

  lemma LastStep(hops: Hops, entry: IntegrationMethod, route: seq<Hop>, n: nat, current: IntegrationMethod, index: nat, resource: string, text: string)
    requires 0 < n && EndsInAt(route, n, current) && Stands(entry, route, n) && hops(n, index) == Some(FromLiteral(text))
    ensures TraceBack(hops, entry, route, n, current, index, resource) == Some(LiteralKey(resource, text))
  {
  }

  lemma {:induction false} BackToEntry(sources: Sources, entry: IntegrationMethod, route: seq<Hop>, n: nat, current: IntegrationMethod, index: nat, resource: string, k: KeyIdentity) returns (indices: seq<nat>)
    requires n <= |route| && TraceBack(HopsOf(sources, entry, route), entry, route, n, current, index, resource) == Some(k) && k.ParameterKey?
    ensures EndsIn(route, n, current) && Handed(sources, entry, route, indices, 0, n) && indices[n] == index
    ensures k == ParameterKey(resource, if n == 0 then current.id else entry.id, indices[0])
  {
    if n == 0 {
      indices := [index];
    } else {
      var i := HopsOf(sources, entry, route)(n, index).value.index;
      HopIff(sources, entry, route, n, index, FromParameter(i));
      var front := BackToEntry(sources, entry, route, n - 1, CallerOf(entry, route, n - 1), i, resource, k);
      indices := front + [index];
      HandedMore(sources, entry, route, front, index, 0, n);
    }
  }

  lemma HandedMore(sources: Sources, entry: IntegrationMethod, route: seq<Hop>, front: seq<nat>, index: nat, low: nat, n: nat)
    requires low < n <= |route| && Handed(sources, entry, route, front, low, n - 1)
    requires Stands(entry, route, n) && PassesOn(sources, entry, route, n, index, FromParameter(front[n - 1]))
    ensures Handed(sources, entry, route, front + [index], low, n)
  {
    var indices := front + [index];
    forall j | low < j <= n ensures HandedAt(sources, entry, route, indices, j) {
      if j < n { assert HandedAt(sources, entry, route, front, j); }
    }
  }

  lemma {:induction false} EntryIsBack(sources: Sources, entry: IntegrationMethod, route: seq<Hop>, n: nat, current: IntegrationMethod, indices: seq<nat>, resource: string)
    requires EndsInAt(route, n, current) && Handed(sources, entry, route, indices, 0, n)
    ensures TraceBack(HopsOf(sources, entry, route), entry, route, n, current, indices[n], resource) ==
      Some(ParameterKey(resource, if n == 0 then current.id else entry.id, indices[0]))
  {
    if n > 0 {
      assert HandedAt(sources, entry, route, indices, n);
      HopIff(sources, entry, route, n, indices[n], FromParameter(indices[n - 1]));
      StepBack(HopsOf(sources, entry, route), entry, route, n, current, indices[n], resource, indices[n - 1]);
      HandedLess(sources, entry, route, indices, 0, n);
      EntryIsBack(sources, entry, route, n - 1, CallerOf(entry, route, n - 1), indices[..n], resource);
    }
  }

  predicate EndsInAt(route: seq<Hop>, n: nat, current: IntegrationMethod) { n <= |route| && EndsIn(route, n, current) }

  lemma HandedLess(sources: Sources, entry: IntegrationMethod, route: seq<Hop>, indices: seq<nat>, low: nat, n: nat)
    requires low < n && Handed(sources, entry, route, indices, low, n)
    ensures Handed(sources, entry, route, indices[..n], low, n - 1)
  {
    forall j | low < j <= n - 1 ensures HandedAt(sources, entry, route, indices[..n], j) {
      assert HandedAt(sources, entry, route, indices, j);
    }
  }

  /** Hop `low` passes a literal, which the later hops hand on. */
  ghost predicate LiteralAt(sources: Sources, entry: IntegrationMethod, route: seq<Hop>, indices: seq<nat>, low: nat, n: nat, text: string) {
    && 0 < low <= n && Handed(sources, entry, route, indices, low, n)
    && Stands(entry, route, low) && PassesOn(sources, entry, route, low, indices[low], FromLiteral(text))
  }

  lemma {:induction false} BackToLiteral(sources: Sources, entry: IntegrationMethod, route: seq<Hop>, n: nat, current: IntegrationMethod, index: nat, resource: string, k: KeyIdentity) returns (low: nat, indices: seq<nat>)
    requires n <= |route| && TraceBack(HopsOf(sources, entry, route), entry, route, n, current, index, resource) == Some(k) && k.LiteralKey?
    ensures EndsIn(route, n, current) && k.resource == resource
    ensures LiteralAt(sources, entry, route, indices, low, n, k.text) && indices[n] == index
  {
    var o := HopsOf(sources, entry, route)(n, index).value;
    HopIff(sources, entry, route, n, index, o);
    if o.FromLiteral? {
      low, indices := n, seq(n, _ => 0) + [index];
    } else {
      var front;
      low, front := BackToLiteral(sources, entry, route, n - 1, CallerOf(entry, route, n - 1), o.index, resource, k);
      indices := front + [index];
      HandedMore(sources, entry, route, front, index, low, n);
    }
  }

  lemma {:induction false} LiteralIsBack(sources: Sources, entry: IntegrationMethod, route: seq<Hop>, n: nat, current: IntegrationMethod, indices: seq<nat>, low: nat, resource: string, text: string)
    requires EndsInAt(route, n, current) && LiteralAt(sources, entry, route, indices, low, n, text)
    ensures TraceBack(HopsOf(sources, entry, route), entry, route, n, current, indices[n], resource) == Some(LiteralKey(resource, text))
  {
    if low == n {
      HopIff(sources, entry, route, n, indices[n], FromLiteral(text));
      LastStep(HopsOf(sources, entry, route), entry, route, n, current, indices[n], resource, text);
    } else {
      assert HandedAt(sources, entry, route, indices, n);
      HopIff(sources, entry, route, n, indices[n], FromParameter(indices[n - 1]));
      StepBack(HopsOf(sources, entry, route), entry, route, n, current, indices[n], resource, indices[n - 1]);
      HandedLess(sources, entry, route, indices, low, n);
      LiteralIsBack(sources, entry, route, n - 1, CallerOf(entry, route, n - 1), indices[..n], low, resource, text);
    }
  }

  // ----- when a key is traced

  ghost predicate KeyResolves(sources: Sources, current: IntegrationMethod, key: Option<Expr>, o: Origin) {
    key.Some? && current.id in sources && exists chain: seq<nat> :: ResolvesBy(sources[current.id], key.value, current.last, chain, o)
  }

  lemma KeyOrigin(sources: Sources, current: IntegrationMethod, key: Option<Expr>, o: Origin)
    requires key.Some? && current.id in sources
    ensures OriginOf(sources[current.id], key.value, current.last, {}) == Some(o) <==> KeyResolves(sources, current, key, o)
  {
    OriginIff(sources[current.id], key.value, current.last, o);
  }

  /** A key is traced to a parameter of the entry exactly if it names a resource, resolves to a
      parameter of the current method, and every call of the route hands that parameter on. */
  ghost predicate FromEntry(sources: Sources, route: seq<Hop>, entry: IntegrationMethod, current: IntegrationMethod, key: Option<Expr>, resource: string, indices: seq<nat>) {
    && resource != "" && EndsIn(route, |route|, current) && Handed(sources, entry, route, indices, 0, |route|)
    && KeyResolves(sources, current, key, FromParameter(indices[|route|]))
  }

  ghost predicate TracedTo(sources: Sources, route: seq<Hop>, entry: IntegrationMethod, current: IntegrationMethod, key: Option<Expr>, resource: string, k: KeyIdentity, indices: seq<nat>) {
    && FromEntry(sources, route, entry, current, key, resource, indices)
    && k == ParameterKey(resource, if route == [] then current.id else entry.id, indices[0])
  }

  lemma ParameterTraced(sources: Sources, route: seq<Hop>, entry: IntegrationMethod, current: IntegrationMethod, key: Option<Expr>, resource: string, k: KeyIdentity)
    requires k.ParameterKey?
    ensures TraceOf(sources, route, entry, current, key, resource) == Some(k) <==>
      exists indices: seq<nat> :: TracedTo(sources, route, entry, current, key, resource, k, indices)
  {
    if TraceOf(sources, route, entry, current, key, resource) == Some(k) {
      var o := OriginOf(sources[current.id], key.value, current.last, {}).value;
      KeyOrigin(sources, current, key, o);
      var indices := BackToEntry(sources, entry, route, |route|, current, o.index, resource, k);
      assert TracedTo(sources, route, entry, current, key, resource, k, indices);
    }
    if indices: seq<nat> :| TracedTo(sources, route, entry, current, key, resource, k, indices) {
      KeyOrigin(sources, current, key, FromParameter(indices[|route|]));
      EntryIsBack(sources, entry, route, |route|, current, indices, resource);
      LiteralIsNoParameter(sources[current.id], key.value, current.last, FromParameter(indices[|route|]));
      TraceStarts(sources, route, entry, current, key, resource, indices[|route|]);
    }
  }

  lemma LiteralIsNoParameter(m: MethodNode, e: Expr, line: nat, o: Origin)
    requires OriginOf(m, e, line, {}) == Some(o) && o.FromParameter?
    ensures !e.Literal?
  {
  }

  /** A key is traced to a literal exactly if it is one, resolves to one in the current method, or
      resolves to a parameter that the calls hand on from a literal. */
  ghost predicate FromText(sources: Sources, route: seq<Hop>, entry: IntegrationMethod, current: IntegrationMethod, key: Option<Expr>, text: string) {
    || key == Some(Literal(text))
    || KeyResolves(sources, current, key, FromLiteral(text))
    || exists indices: seq<nat>, low: nat :: FromCall(sources, route, entry, current, key, text, indices, low)
  }

  ghost predicate FromCall(sources: Sources, route: seq<Hop>, entry: IntegrationMethod, current: IntegrationMethod, key: Option<Expr>, text: string, indices: seq<nat>, low: nat) {
    && EndsIn(route, |route|, current) && LiteralAt(sources, entry, route, indices, low, |route|, text)
    && KeyResolves(sources, current, key, FromParameter(indices[|route|]))
  }

  lemma LiteralTraced(sources: Sources, route: seq<Hop>, entry: IntegrationMethod, current: IntegrationMethod, key: Option<Expr>, resource: string, k: KeyIdentity)
    requires k.LiteralKey?
    ensures TraceOf(sources, route, entry, current, key, resource) == Some(k) <==>
      resource != "" && k.resource == resource && FromText(sources, route, entry, current, key, k.text)
  {
    if TraceOf(sources, route, entry, current, key, resource) == Some(k) { TracedText(sources, route, entry, current, key, resource, k); }
    if resource != "" && k.resource == resource && FromText(sources, route, entry, current, key, k.text) {
      TextTraced(sources, route, entry, current, key, resource, k);
    }
  }

  lemma TracedText(sources: Sources, route: seq<Hop>, entry: IntegrationMethod, current: IntegrationMethod, key: Option<Expr>, resource: string, k: KeyIdentity)
    requires k.LiteralKey? && TraceOf(sources, route, entry, current, key, resource) == Some(k)
    ensures resource != "" && k.resource == resource && FromText(sources, route, entry, current, key, k.text)
  {
    if !key.value.Literal? {
      var o := OriginOf(sources[current.id], key.value, current.last, {}).value;
      KeyOrigin(sources, current, key, o);
      if o.FromParameter? {
        var low, indices := BackToLiteral(sources, entry, route, |route|, current, o.index, resource, k);
        assert FromCall(sources, route, entry, current, key, k.text, indices, low);
      }
    }
  }

  lemma TextTraced(sources: Sources, route: seq<Hop>, entry: IntegrationMethod, current: IntegrationMethod, key: Option<Expr>, resource: string, k: KeyIdentity)
    requires k.LiteralKey? && resource != "" && k.resource == resource && FromText(sources, route, entry, current, key, k.text)
    ensures TraceOf(sources, route, entry, current, key, resource) == Some(k)
  {
    if KeyResolves(sources, current, key, FromLiteral(k.text)) {
      KeyOrigin(sources, current, key, FromLiteral(k.text));
    } else if indices: seq<nat>, low: nat :| FromCall(sources, route, entry, current, key, k.text, indices, low) {
      CalledTraced(sources, route, entry, current, key, resource, k, indices, low);
    }
  }

  lemma CalledTraced(sources: Sources, route: seq<Hop>, entry: IntegrationMethod, current: IntegrationMethod, key: Option<Expr>, resource: string, k: KeyIdentity, indices: seq<nat>, low: nat)
    requires k.LiteralKey? && resource != "" && k.resource == resource && FromCall(sources, route, entry, current, key, k.text, indices, low)
    ensures TraceOf(sources, route, entry, current, key, resource) == Some(k)
  {
    KeyOrigin(sources, current, key, FromParameter(indices[|route|]));
    LiteralIsNoParameter(sources[current.id], key.value, current.last, FromParameter(indices[|route|]));
    LiteralIsBack(sources, entry, route, |route|, current, indices, low, resource, k.text);
    TraceStarts(sources, route, entry, current, key, resource, indices[|route|]);
  }

  lemma TraceStarts(sources: Sources, route: seq<Hop>, entry: IntegrationMethod, current: IntegrationMethod, key: Option<Expr>, resource: string, i: nat)
    requires key.Some? && resource != "" && current.id in sources && !key.value.Literal?
    requires OriginOf(sources[current.id], key.value, current.last, {}) == Some(FromParameter(i))
    ensures TraceOf(sources, route, entry, current, key, resource) ==
      TraceBack(HopsOf(sources, entry, route), entry, route, |route|, current, i, resource)
  {
  }
}
