/** When key tracing may mistake a name: exactly when another declaration of a name that it
    follows is in sight, be it the key, an alias or the argument of a call, or when something
    writes what the name stands for. */
module KeyRivals {
  import opened Wrappers
  import opened JavaMethods
  import opened ValueOrigins
  import opened KeySoundness

  // ----- exactly when names are bound as the trace assumes

  /** The compiler binds every name that the resolution follows to what the trace picks, and
      binds no write to it. */
  ghost predicate Follows(m: MethodNode, scope: Scope, site: nat, e: Expr, line: nat, visited: set<string>)
    requires site < |m.body|
    decreases |LocalNames(m) - visited|
  {
    match Picked(m, e, line, visited)
    case None => true
    case Some(b) =>
      (scope(site, e.id).Unbound? || scope(site, e.id) == b) && Keeps(m, scope, b) &&
      match b
      case Variable(k) =>
        Fewer(m, visited, k);
        Follows(m, scope, k, m.body[k].init.value, m.body[k].line, visited + {e.id})
      case _ => true
  }

  lemma {:induction false} ClearFollows(m: MethodNode, fields: set<string>, scope: Scope, site: nat, e: Expr, line: nat, visited: set<string>)
    requires Legal(m, fields, scope) && site < |m.body| && Clear(m, fields, site, e, line, visited)
    ensures Follows(m, scope, site, e, line, visited)
    decreases |LocalNames(m) - visited|
  {
    if Picked(m, e, line, visited).Some? {
      var b := Picked(m, e, line, visited).value;
      ClearBinds(m, fields, scope, site, e, line, visited);
      ClearKeeps(m, fields, scope, site, e, line, visited);
      if b.Variable? {
        Fewer(m, visited, b.item);
        ClearFollows(m, fields, scope, b.item, m.body[b.item].init.value, m.body[b.item].line, visited + {e.id});
      }
    }
  }

  function Rebound(base: Scope, at: nat, name: string, b: Binding): Scope {
    (site: nat, x: string) => if site == at && x == name then b else base(site, x)
  }

  lemma RebindingIsLegal(m: MethodNode, fields: set<string>, site: nat, name: string, b: Binding, base: Scope)
    requires Legal(m, fields, base) && site < |m.body| && MayMean(m, fields, site, name, b)
    requires IsWrite(m.body[site]) ==> WriteAllowed(m, m.body[site].at, b)
    ensures Legal(m, fields, Rebound(base, site, name, b))
  {
    var scope := Rebound(base, site, name, b);
    forall s: nat, x | s < |m.body| ensures MayMean(m, fields, s, x, scope(s, x)) {
      assert MayMean(m, fields, s, x, base(s, x));
    }
    forall i: nat | i < |m.body| && IsWrite(m.body[i]) ensures WriteAllowed(m, m.body[i].at, scope(i, m.body[i].target)) {
      assert WriteAllowed(m, m.body[i].at, base(i, m.body[i].target));
    }
  }

  /** Where a followed name is not clear, some compiler binds it otherwise. */
  lemma {:induction false} Misbinds(m: MethodNode, fields: set<string>, base: Scope, site: nat, e: Expr, line: nat, visited: set<string>) returns (scope: Scope)
    requires Legal(m, fields, base) && site < |m.body| && !IsWrite(m.body[site])
    requires !Clear(m, fields, site, e, line, visited)
    ensures Legal(m, fields, scope) && !Follows(m, scope, site, e, line, visited)
    decreases |LocalNames(m) - visited|
  {
    var b := Picked(m, e, line, visited).value;
    if !Unwritten(m, fields, e.id, b) {
      var w: nat :| w < |m.body| && IsWrite(m.body[w]) && m.body[w].target == e.id && MayMean(m, fields, w, e.id, b) && WriteAllowed(m, m.body[w].at, b);
      RebindingIsLegal(m, fields, w, e.id, b, base);
      scope := Rebound(base, w, e.id, b);
      assert scope(w, m.body[w].target) == b;
    } else if SoleAt(m, fields, site, e.id, b) {
      Fewer(m, visited, b.item);
      scope := Misbinds(m, fields, base, b.item, m.body[b.item].init.value, m.body[b.item].line, visited + {e.id});
    } else {
      SoleMeans(m, fields, m.body[site].at, e.id, m.body[site].line, b);
      var other :| Candidate(m, fields, m.body[site].at, e.id, m.body[site].line, other) && !other.Unbound? && other != b;
      RebindingIsLegal(m, fields, site, e.id, other, base);
      scope := Rebound(base, site, e.id, other);
    }
  }

  /** In every program with this text, the names that the resolution of an expression follows
      mean what the trace takes them to mean and keep their values if and only if none of them
      has a rival or is written. The expression may stand at any item but an assignment: a key,
      an argument, an initializer. */
  lemma FollowedIffClear(m: MethodNode, fields: set<string>, base: Scope, site: nat, e: Expr, line: nat, visited: set<string>)
    requires Legal(m, fields, base) && site < |m.body| && !IsWrite(m.body[site])
    ensures Clear(m, fields, site, e, line, visited) <==>
      forall scope: Scope :: Legal(m, fields, scope) ==> Follows(m, scope, site, e, line, visited)
  {
    if Clear(m, fields, site, e, line, visited) {
      forall scope: Scope | Legal(m, fields, scope) ensures Follows(m, scope, site, e, line, visited) {
        ClearFollows(m, fields, scope, site, e, line, visited);
      }
    } else {
      var scope := Misbinds(m, fields, base, site, e, line, visited);
    }
  }

  // ----- the same for a whole route

  ghost predicate FollowsHop(sources: Sources, scopes: string -> Scope, entry: IntegrationMethod, route: seq<Hop>, n: nat, index: nat)
    requires 0 < n <= |route|
  {
    var Hop(target, call) := route[n - 1];
    var caller := CallerOf(entry, route, n - 1);
    caller.id in sources ==>
      match CallSiteOf(sources[caller.id], call.callLine, target.simpleName)
      case None => true
      case Some(site) =>
        index < |sources[caller.id].body[site].args| ==>
          Follows(sources[caller.id], scopes(caller.id), site, sources[caller.id].body[site].args[index], call.callLine, {})
  }

  ghost function FollowsOf(sources: Sources, scopes: string -> Scope, entry: IntegrationMethod, route: seq<Hop>): (nat, nat) -> bool {
    (n: nat, index: nat) => 0 < n <= |route| ==> FollowsHop(sources, scopes, entry, route, n, index)
  }

  /** Along the whole trace names are bound as it assumes. */
  ghost predicate FollowsRoute(p: Program, entry: IntegrationMethod, route: seq<Hop>, current: IntegrationMethod, site: nat, key: Expr)
    requires current.id in p.sources && site < |p.sources[current.id].body|
  {
    && Follows(p.sources[current.id], p.scopes(current.id), site, key, current.last, {})
    && match OriginOf(p.sources[current.id], key, current.last, {})
       case Some(FromParameter(i)) => AllBack(FollowsOf(p.sources, p.scopes, entry, route), HopsOf(p.sources, entry, route), |route|, i)
       case _ => true
  }

  /** The trace of parameter `index` of hop `n` passes parameter `i` of hop `j`. */
  ghost predicate OnTrace(hops: Hops, n: nat, index: nat, j: nat, i: nat) {
    n > 0 && ((j == n && i == index) ||
      match hops(n, index)
      case Some(FromParameter(k)) => OnTrace(hops, n - 1, k, j, i)
      case _ => false)
  }

  lemma {:induction false} AllBackMeans(ok: (nat, nat) -> bool, hops: Hops, n: nat, index: nat)
    ensures AllBack(ok, hops, n, index) <==> forall j: nat, i: nat :: OnTrace(hops, n, index, j, i) ==> ok(j, i)
  {
    if n > 0 {
      assert OnTrace(hops, n, index, n, index);
      match hops(n, index)
      case Some(FromParameter(k)) =>
        AllBackMeans(ok, hops, n - 1, k);
        forall j: nat, i: nat | OnTrace(hops, n - 1, k, j, i) ensures OnTrace(hops, n, index, j, i) {}
      case _ =>
    }
  }

  function WithScope(scopes: string -> Scope, id: string, scope: Scope): string -> Scope {
    (x: string) => if x == id then scope else scopes(x)
  }

  lemma WithScopeLegal(p: Program, id: string, scope: Scope)
    requires p.LegalMethods() && id in p.sources && Legal(p.sources[id], p.fields(id), scope)
    ensures p.(scopes := WithScope(p.scopes, id, scope)).LegalMethods()
  {
  }

  /** A hop that is not clear is bound otherwise by some compiler. */
  lemma MisbindsHop(p: Program, entry: IntegrationMethod, route: seq<Hop>, n: nat, index: nat) returns (q: Program)
    requires p.LegalMethods() && 0 < n <= |route| && !ClearHop(p.sources, p.fields, entry, route, n, index)
    ensures q.sources == p.sources && q.fields == p.fields && q.LegalMethods() && !FollowsHop(q.sources, q.scopes, entry, route, n, index)
  {
    var Hop(target, call) := route[n - 1];
    var id := CallerOf(entry, route, n - 1).id;
    var m, site := p.sources[id], CallSiteOf(p.sources[id], call.callLine, target.simpleName).value;
    var scope := Misbinds(m, p.fields(id), p.scopes(id), site, m.body[site].args[index], call.callLine, {});
    WithScopeLegal(p, id, scope);
    q := p.(scopes := WithScope(p.scopes, id, scope));
  }

  lemma ClearHopFollows(p: Program, entry: IntegrationMethod, route: seq<Hop>, n: nat, index: nat)
    requires p.LegalMethods() && 0 < n <= |route| && ClearHop(p.sources, p.fields, entry, route, n, index)
    ensures FollowsHop(p.sources, p.scopes, entry, route, n, index)
  {
    var Hop(target, call) := route[n - 1];
    var id := CallerOf(entry, route, n - 1).id;
    if id in p.sources && CallSiteOf(p.sources[id], call.callLine, target.simpleName).Some? {
      var m, site := p.sources[id], CallSiteOf(p.sources[id], call.callLine, target.simpleName).value;
      if index < |m.body[site].args| {
        ClearFollows(m, p.fields(id), p.scopes(id), site, m.body[site].args[index], call.callLine, {});
      }
    }
  }

  lemma HopsFollowed(p: Program, entry: IntegrationMethod, route: seq<Hop>, n: nat, index: nat)
    requires p.LegalMethods() && AllBack(ClearOf(p.sources, p.fields, entry, route), HopsOf(p.sources, entry, route), n, index)
    ensures AllBack(FollowsOf(p.sources, p.scopes, entry, route), HopsOf(p.sources, entry, route), n, index)
  {
    var clear, follows, hops := ClearOf(p.sources, p.fields, entry, route), FollowsOf(p.sources, p.scopes, entry, route), HopsOf(p.sources, entry, route);
    AllBackMeans(clear, hops, n, index);
    forall j: nat, i: nat | OnTrace(hops, n, index, j, i) ensures follows(j, i) {
      assert clear(j, i);
      if 0 < j <= |route| { ClearHopFollows(p, entry, route, j, i); }
    }
    AllBackMeans(follows, hops, n, index);
  }

  lemma HopsMisbound(p: Program, entry: IntegrationMethod, route: seq<Hop>, n: nat, index: nat) returns (q: Program)
    requires p.LegalMethods() && !AllBack(ClearOf(p.sources, p.fields, entry, route), HopsOf(p.sources, entry, route), n, index)
    ensures q.sources == p.sources && q.fields == p.fields && q.LegalMethods()
    ensures !AllBack(FollowsOf(q.sources, q.scopes, entry, route), HopsOf(p.sources, entry, route), n, index)
  {
    var clear, hops := ClearOf(p.sources, p.fields, entry, route), HopsOf(p.sources, entry, route);
    AllBackMeans(clear, hops, n, index);
    var j: nat, i: nat :| OnTrace(hops, n, index, j, i) && !clear(j, i);
    q := MisbindsHop(p, entry, route, j, i);
    assert !FollowsOf(q.sources, q.scopes, entry, route)(j, i);
    AllBackMeans(FollowsOf(q.sources, q.scopes, entry, route), hops, n, index);
  }

  /** The condition of TraceSound is exact: the names that the trace of a key follows, through
      aliases and call arguments back to the entry, mean what it takes them to mean and keep
      their values in every program with these sources if and only if none of them has a rival
      or is written. */
  lemma RouteFollowedIffClear(p: Program, entry: IntegrationMethod, route: seq<Hop>, current: IntegrationMethod, site: nat, key: Expr)
    requires p.LegalMethods() && current.id in p.sources && site < |p.sources[current.id].body|
    requires !IsWrite(p.sources[current.id].body[site])
    ensures ClearRoute(p.sources, p.fields, entry, route, current, site, key) <==>
      forall scopes: string -> Scope :: p.(scopes := scopes).LegalMethods() ==>
        FollowsRoute(p.(scopes := scopes), entry, route, current, site, key)
  {
    if ClearRoute(p.sources, p.fields, entry, route, current, site, key) {
      forall scopes: string -> Scope | p.(scopes := scopes).LegalMethods()
        ensures FollowsRoute(p.(scopes := scopes), entry, route, current, site, key)
      {
        RouteFollowed(p.(scopes := scopes), entry, route, current, site, key);
      }
    } else {
      var q := RouteMisbound(p, entry, route, current, site, key);
      assert q == p.(scopes := q.scopes);
    }
  }

  lemma RouteFollowed(p: Program, entry: IntegrationMethod, route: seq<Hop>, current: IntegrationMethod, site: nat, key: Expr)
    requires p.LegalMethods() && current.id in p.sources && site < |p.sources[current.id].body|
    requires ClearRoute(p.sources, p.fields, entry, route, current, site, key)
    ensures FollowsRoute(p, entry, route, current, site, key)
  {
    var m := p.sources[current.id];
    ClearFollows(m, p.fields(current.id), p.scopes(current.id), site, key, current.last, {});
    match OriginOf(m, key, current.last, {})
    case Some(FromParameter(i)) => HopsFollowed(p, entry, route, |route|, i);
    case _ =>
  }

  lemma RouteMisbound(p: Program, entry: IntegrationMethod, route: seq<Hop>, current: IntegrationMethod, site: nat, key: Expr) returns (q: Program)
    requires p.LegalMethods() && current.id in p.sources && site < |p.sources[current.id].body|
    requires !IsWrite(p.sources[current.id].body[site])
    requires !ClearRoute(p.sources, p.fields, entry, route, current, site, key)
    ensures q.sources == p.sources && q.fields == p.fields && q.LegalMethods()
    ensures !FollowsRoute(q, entry, route, current, site, key)
  {
    var m := p.sources[current.id];
    if Clear(m, p.fields(current.id), site, key, current.last, {}) {
      q := HopsMisbound(p, entry, route, |route|, OriginOf(m, key, current.last, {}).value.index);
    } else {
      var scope := Misbinds(m, p.fields(current.id), p.scopes(current.id), site, key, current.last, {});
      WithScopeLegal(p, current.id, scope);
      q := p.(scopes := WithScope(p.scopes, current.id, scope));
    }
  }

  // ----- rivals whose value the trace knows nothing about

  /** A field, a parameter of an inner member, or a variable that any value may be stored in. */
  predicate IsFree(m: MethodNode, b: Binding) {
    match b
    case Field => true
    case Argument(at, _) => at > 0
    case Variable(k) => k < |m.body| && (m.body[k].Bound? || (m.body[k].Local? && m.body[k].init.Some? && m.body[k].init.value.Other?))
    case Unbound => false
  }

  ghost predicate HasFreeRivalHere(m: MethodNode, fields: set<string>, site: nat, name: string, b: Binding)
    requires site < |m.body|
  {
    exists other :: MayMean(m, fields, site, name, other) && IsFree(m, other) && other != b
  }

  /** Something gives any value to what the name stands for. */
  ghost predicate IsOverwritten(m: MethodNode, fields: set<string>, site: nat, name: string, b: Binding)
    requires site < |m.body|
  {
    MayMean(m, fields, site, name, b) && exists w: nat :: Overwrites(m, fields, name, b, w)
  }

  ghost predicate Overwrites(m: MethodNode, fields: set<string>, name: string, b: Binding, w: nat) {
    && w < |m.body| && (m.body[w].Update? || (m.body[w].Assign? && m.body[w].from.Other?))
    && m.body[w].target == name && MayMean(m, fields, w, name, b) && WriteAllowed(m, m.body[w].at, b)
  }

  /** A name that the resolution follows has a free rival or is overwritten. */
  ghost predicate HasFreeRival(m: MethodNode, fields: set<string>, site: nat, e: Expr, line: nat, visited: set<string>)
    requires site < |m.body|
    decreases |LocalNames(m) - visited|
  {
    match Picked(m, e, line, visited)
    case None => false
    case Some(b) =>
      HasFreeRivalHere(m, fields, site, e.id, b) || IsOverwritten(m, fields, site, e.id, b) ||
      match b
      case Variable(k) =>
        Fewer(m, visited, k);
        MayMean(m, fields, site, e.id, b) && HasFreeRival(m, fields, k, m.body[k].init.value, m.body[k].line, visited + {e.id})
      case _ => false
  }

  /** An execution of loop headers, calls of others, and declarations and writes that concern
      none of `names`. */
  ghost predicate Avoids(m: MethodNode, steps: seq<Step>, names: set<string>) {
    forall st :: st in steps ==> st.item < |m.body| && ReadsNone(m.body[st.item], names)
  }

  predicate ReadsNone(item: Item, names: set<string>) {
    match item
    case Bound(_, _, _) => true
    case Local(_, _, _, _, _, _, init) => init.Some? && (init.value.Name? ==> init.value.id !in names)
    case Update(_, _, target, _) => target !in names
    case Assign(_, _, target, _, from) => target !in names && from.Other?
    case _ => false
  }

  lemma {:induction false} ReboundReaches(m: MethodNode, scope: Scope, args: seq<Value>, steps: seq<Step>, f: Frame, site: nat, name: string, b: Binding, names: set<string>)
    requires MayReach(m, scope, args, steps, f) && Avoids(m, steps, names) && name in names
    ensures MayReach(m, Rebound(scope, site, name, b), args, steps, f)
    decreases |steps|
  {
    if steps != [] {
      var last, rest := steps[|steps| - 1], steps[..|steps| - 1];
      var f0 :| MayReach(m, scope, args, rest, f0) && Executes(m, scope, f0, last.item, last.value, f);
      assert last in steps;
      ReboundReaches(m, scope, args, rest, f0, site, name, b, names);
      assert Executes(m, Rebound(scope, site, name, b), f0, last.item, last.value, f);
    }
  }

  /** Some legal execution gives the expression any value one likes. */
  ghost predicate MayEvaluate(m: MethodNode, fields: set<string>, scope: Scope, args: seq<Value>, steps: seq<Step>, f: Frame, site: nat, e: Expr, v: Value) {
    Legal(m, fields, scope) && MayReach(m, scope, args, steps, f) && Evaluates(scope, f, site, e, v)
  }

  lemma AnyValueHere(m: MethodNode, fields: set<string>, base: Scope, args: seq<Value>, site: nat, name: string, rival: Binding, v: Value, names: set<string>)
    returns (scope: Scope, steps: seq<Step>, f: Frame)
    requires Legal(m, fields, base) && site < |m.body| && !IsWrite(m.body[site])
    requires MayMean(m, fields, site, name, rival) && IsFree(m, rival)
    ensures MayEvaluate(m, fields, scope, args, steps, f, site, Name(name), v) && Avoids(m, steps, names)
  {
    var start := Frame(args, map[]);
    RebindingIsLegal(m, fields, site, name, rival, base);
    scope, steps, f := Rebound(base, site, name, rival), [], start;
    if rival.Variable? {
      steps, f := [Step(rival.item, v)], Stored(start, rival, v);
      ReachStep(m, scope, args, [], start, rival.item, v, f);
      assert [] + [Step(rival.item, v)] == steps;
    }
  }

  lemma AnyValueWritten(m: MethodNode, fields: set<string>, base: Scope, args: seq<Value>, site: nat, name: string, b: Binding, v: Value, names: set<string>)
    returns (scope: Scope, steps: seq<Step>, f: Frame)
    requires Legal(m, fields, base) && site < |m.body| && !IsWrite(m.body[site]) && name !in names
    requires IsOverwritten(m, fields, site, name, b) && (b.Variable? || (b.Argument? && b.at == 0 && b.index < |args|))
    ensures MayEvaluate(m, fields, scope, args, steps, f, site, Name(name), v) && Avoids(m, steps, names)
  {
    var w: nat :| Overwrites(m, fields, name, b, w);
    var start, first := Frame(args, map[]), Rebound(base, w, name, b);
    RebindingIsLegal(m, fields, w, name, b, base);
    RebindingIsLegal(m, fields, site, name, b, first);
    scope, steps, f := Rebound(first, site, name, b), [Step(w, v)], Stored(start, b, v);
    assert scope(w, name) == b;
    ReachStep(m, scope, args, [], start, w, v, f);
    assert [] + [Step(w, v)] == steps;
  }

  /** The names followed so far are aliases. */
  predicate NoParameter(m: MethodNode, names: set<string>) {
    forall x | x in names :: ParameterIndexOf(m, Name(x)).None?
  }

  lemma {:induction false} AnyValue(m: MethodNode, fields: set<string>, base: Scope, args: seq<Value>, site: nat, e: Expr, line: nat, visited: set<string>, v: Value)
    returns (scope: Scope, steps: seq<Step>, f: Frame)
    requires Legal(m, fields, base) && site < |m.body| && !IsWrite(m.body[site]) && |args| == |m.params|
    requires HasFreeRival(m, fields, site, e, line, visited) && NoParameter(m, visited)
    ensures MayEvaluate(m, fields, scope, args, steps, f, site, e, v) && Avoids(m, steps, visited)
    ensures e.id !in visited
    decreases |LocalNames(m) - visited|
  {
    var b := Picked(m, e, line, visited).value;
    if HasFreeRivalHere(m, fields, site, e.id, b) {
      var rival :| MayMean(m, fields, site, e.id, rival) && IsFree(m, rival) && rival != b;
      scope, steps, f := AnyValueHere(m, fields, base, args, site, e.id, rival, v, visited);
    } else if IsOverwritten(m, fields, site, e.id, b) {
      scope, steps, f := AnyValueWritten(m, fields, base, args, site, e.id, b, v, visited);
    } else {
      Fewer(m, visited, b.item);
      scope, steps, f := AnyValue(m, fields, base, args, b.item, m.body[b.item].init.value, m.body[b.item].line, visited + {e.id}, v);
      scope, steps, f := ThroughAlias(m, fields, scope, args, steps, f, site, e, b.item, visited, v);
    }
  }

  /** A value of the initializer becomes a value of the alias. */
  lemma ThroughAlias(m: MethodNode, fields: set<string>, scope: Scope, args: seq<Value>, steps: seq<Step>, f: Frame, site: nat, e: Expr, k: nat, visited: set<string>, v: Value)
    returns (scope': Scope, steps': seq<Step>, f': Frame)
    requires site < |m.body| && !IsWrite(m.body[site]) && e.Name? && MayMean(m, fields, site, e.id, Variable(k))
    requires k < |m.body| && m.body[k].Local? && m.body[k].init.Some?
    requires m.body[k].init.value.Name? && m.body[k].init.value.id !in visited + {e.id}
    requires MayEvaluate(m, fields, scope, args, steps, f, k, m.body[k].init.value, v) && Avoids(m, steps, visited + {e.id})
    ensures MayEvaluate(m, fields, scope', args, steps', f', site, e, v) && Avoids(m, steps', visited)
  {
    scope', steps', f' := Rebound(scope, site, e.id, Variable(k)), steps + [Step(k, v)], Stored(f, Variable(k), v);
    RebindingIsLegal(m, fields, site, e.id, Variable(k), scope);
    ReboundReaches(m, scope, args, steps, f, site, e.id, Variable(k), visited + {e.id});
    assert Evaluates(scope', f, k, m.body[k].init.value, v);
    ReachStep(m, scope', args, steps, f, k, v, f');
  }

  /** A legal execution in which the expression has another value than the traced origin. */
  ghost predicate Misled(m: MethodNode, fields: set<string>, scope: Scope, args: seq<Value>, steps: seq<Step>, f: Frame, site: nat, e: Expr, line: nat, v: Value) {
    && MayEvaluate(m, fields, scope, args, steps, f, site, e, v)
    && OriginOf(m, e, line, {}).Some? && !Denotes(OriginOf(m, e, line, {}).value, args, v)
  }

  /** Where a followed name has a free rival or is overwritten no traced origin can be relied on:
      of a key, of an alias, of the argument of a call. */
  lemma FreeRivalMisleads(m: MethodNode, fields: set<string>, base: Scope, args: seq<Value>, site: nat, e: Expr, line: nat)
    requires Legal(m, fields, base) && site < |m.body| && !IsWrite(m.body[site]) && |args| == |m.params|
    requires OriginOf(m, e, line, {}).Some? && HasFreeRival(m, fields, site, e, line, {})
    ensures exists scope, steps, f, v :: Misled(m, fields, scope, args, steps, f, site, e, line, v)
  {
    var v := if Denotes(OriginOf(m, e, line, {}).value, args, Datum(0)) then Datum(1) else Datum(0);
    var scope, steps, f := AnyValue(m, fields, base, args, site, e, line, {}, v);
    assert Misled(m, fields, scope, args, steps, f, site, e, line, v);
  }

  // ----- the smallest methods that the trace gets wrong

  function BindsTo(name: string, first: Binding, others: Binding): Scope {
    (site: nat, x: string) => if x != name then Unbound else if site == 0 then first else others
  }

  /** `{ final int k = 1; } { int k = 2; read(k); }` */
  const SIBLING := MethodNode([], [
    Local(1, 0, true, true, true, "k", Some(Literal("1"))),
    Local(2, 0, false, false, true, "k", Some(Literal("2"))),
    Invoke(2, 0, 2, "read", [Name("k")])], [])

  lemma SiblingIsLegal()
    ensures Legal(SIBLING, {}, BindsTo("k", Variable(0), Variable(1)))
  {
    var scope := BindsTo("k", Variable(0), Variable(1));
    forall site: nat, x | site < 3 ensures MayMean(SIBLING, {}, site, x, scope(site, x)) {
      assert SIBLING.body[0].line == 1 && SIBLING.body[1].line == 2 && SIBLING.body[2].line == 2;
    }
  }

  lemma SiblingTraced()
    ensures OriginOf(SIBLING, Name("k"), 3, {}) == Some(FromLiteral("1"))
  {
    assert !IsAlias(SIBLING, "k", 3, 1) && !IsAlias(SIBLING, "k", 3, 2);
    assert AliasesIn(SIBLING, "k", 3, 0) == [];
    assert AliasesIn(SIBLING, "k", 3, 1) == [0];
    assert AliasesIn(SIBLING, "k", 3, 2) == [0];
    assert AliasesIn(SIBLING, "k", 3, 3) == [0];
  }

  /** A sibling block declares the name without `final`: the key is the other variable. */
  lemma SiblingMisleads()
    ensures exists scope, steps, f, v :: Misled(SIBLING, {}, scope, [], steps, f, 2, Name("k"), 3, v)
  {
    var scope, start := BindsTo("k", Variable(0), Variable(1)), Frame([], map[]);
    var f := Stored(start, Variable(1), OfLiteral("2"));
    SiblingIsLegal();
    SiblingTraced();
    assert Executes(SIBLING, scope, start, 1, OfLiteral("2"), f);
    ReachStep(SIBLING, scope, [], [], start, 1, OfLiteral("2"), f);
    assert "1"[0] != "2"[0];
    assert Misled(SIBLING, {}, scope, [], [] + [Step(1, OfLiteral("2"))], f, 2, Name("k"), 3, OfLiteral("2"));
  }

  /** `load(int k) { visit(new Visitor() { on(int k) { read(k); } }); }` */
  const HIDDEN := MethodNode([Param("k", true)], [Invoke(2, 1, 2, "read", [Name("k")])], [Inner(0, true, [Param("k", true)], {})])

  lemma HiddenIsLegal()
    ensures Legal(HIDDEN, {}, BindsTo("k", Argument(1, 0), Unbound)) && MayMean(HIDDEN, {}, 0, "k", Argument(1, 0))
  {
    var scope := BindsTo("k", Argument(1, 0), Unbound);
    assert HIDDEN.inner[0].params[0].name == "k" && Param("k", true) in ParamsAt(HIDDEN, 1);
    forall site: nat, x | site < 1 ensures MayMean(HIDDEN, {}, site, x, scope(site, x)) {
      if x != "k" {
        assert !HasParam(HIDDEN, 1, x) && !HasParam(HIDDEN, 0, x) && Outer(HIDDEN, 1) == 0;
        assert Candidate(HIDDEN, {}, 0, x, 2, Unbound);
      }
    }
  }

  lemma HiddenTraced()
    ensures OriginOf(HIDDEN, Name("k"), 3, {}) == Some(FromParameter(0)) && Picked(HIDDEN, Name("k"), 3, {}) == Some(Argument(0, 0))
  {
    assert HIDDEN.params[0].name == "k" && !IsReassigned(HIDDEN, "k");
    assert Named(HIDDEN.params, "k", 0) == [] && Named(HIDDEN.params, "k", 1) == [0];
  }

  /** The parameter of an anonymous class's method hides the one that the trace reports,
      whatever its argument is. */
  lemma HiddenMisleads(a: Value)
    ensures exists scope, steps, f, v :: Misled(HIDDEN, {}, scope, [a], steps, f, 0, Name("k"), 3, v)
  {
    HiddenIsLegal();
    HiddenTraced();
    assert HasFreeRivalHere(HIDDEN, {}, 0, "k", Argument(0, 0));
    FreeRivalMisleads(HIDDEN, {}, BindsTo("k", Argument(1, 0), Unbound), [a], 0, Name("k"), 3);
  }

  /** `load(int key) { (key)++; read(key); }` */
  const SPELLED := MethodNode([Param("key", true)], [Update(1, 0, "key", false), Invoke(2, 0, 2, "read", [Name("key")])], [])

  lemma SpelledIsLegal()
    ensures Legal(SPELLED, {}, BindsTo("key", Argument(0, 0), Argument(0, 0)))
    ensures MayMean(SPELLED, {}, 0, "key", Argument(0, 0)) && MayMean(SPELLED, {}, 1, "key", Argument(0, 0))
  {
    assert SPELLED.params[0].name == "key" && Param("key", true) in ParamsAt(SPELLED, 0);
    var scope := BindsTo("key", Argument(0, 0), Argument(0, 0));
    forall site: nat, x | site < 2 ensures MayMean(SPELLED, {}, site, x, scope(site, x)) {
      if x != "key" { assert !HasParam(SPELLED, 0, x); }
    }
  }

  lemma SpelledTraced()
    ensures OriginOf(SPELLED, Name("key"), 3, {}) == Some(FromParameter(0)) && Picked(SPELLED, Name("key"), 3, {}) == Some(Argument(0, 0))
  {
    assert SPELLED.params[0].name == "key" && !IsReassigned(SPELLED, "key");
    assert Named(SPELLED.params, "key", 0) == [] && Named(SPELLED.params, "key", 1) == [0];
  }

  /** An update of the parameter is not recognised by its text: the key is not the argument that
      the trace reports, although no other declaration is in sight. */
  lemma SpelledMisleads(a: Value)
    ensures SoleAt(SPELLED, {}, 1, "key", Argument(0, 0))
    ensures exists scope, steps, f, v :: Misled(SPELLED, {}, scope, [a], steps, f, 1, Name("key"), 3, v)
  {
    SpelledIsLegal();
    SpelledTraced();
    assert Overwrites(SPELLED, {}, "key", Argument(0, 0), 0);
    FreeRivalMisleads(SPELLED, {}, BindsTo("key", Argument(0, 0), Argument(0, 0)), [a], 1, Name("key"), 3);
  }

  /** `@Note("a final word") int k = 1; k++; read(k);` */
  const ANNOTATED := MethodNode([], [
    Local(1, 0, false, true, true, "k", Some(Literal("1"))),
    Update(2, 0, "k", true),
    Invoke(3, 0, 3, "read", [Name("k")])], [])

  lemma AnnotatedIsLegal()
    ensures Legal(ANNOTATED, {}, BindsTo("k", Variable(0), Variable(0)))
    ensures MayMean(ANNOTATED, {}, 1, "k", Variable(0)) && MayMean(ANNOTATED, {}, 2, "k", Variable(0))
  {
    var scope := BindsTo("k", Variable(0), Variable(0));
    forall site: nat, x | site < 3 ensures MayMean(ANNOTATED, {}, site, x, scope(site, x)) {
      assert ANNOTATED.body[site].line == site + 1 && ANNOTATED.body[site].at == 0 && !HasParam(ANNOTATED, 0, x);
      if x == "k" { assert IsVariable(ANNOTATED, 0, "k", site + 1, 0); }
    }
    assert scope(1, "k") == Variable(0) && scope(2, "k") == Variable(0);
  }

  lemma AnnotatedTraced()
    ensures OriginOf(ANNOTATED, Name("k"), 4, {}) == Some(FromLiteral("1")) && Picked(ANNOTATED, Name("k"), 4, {}) == Some(Variable(0))
  {
    assert IsAlias(ANNOTATED, "k", 4, 0);
    assert AliasesIn(ANNOTATED, "k", 4, 0) == [];
    assert AliasesIn(ANNOTATED, "k", 4, 1) == [0];
    assert AliasesIn(ANNOTATED, "k", 4, 2) == [0];
    assert AliasesIn(ANNOTATED, "k", 4, 3) == [0];
  }

  /** A variable that only an annotation calls final is traced to its initializer. */
  lemma AnnotatedMisleads()
    ensures SoleAt(ANNOTATED, {}, 2, "k", Variable(0))
    ensures exists scope, steps, f, v :: Misled(ANNOTATED, {}, scope, [], steps, f, 2, Name("k"), 4, v)
  {
    AnnotatedIsLegal();
    AnnotatedTraced();
    assert Overwrites(ANNOTATED, {}, "k", Variable(0), 1);
    FreeRivalMisleads(ANNOTATED, {}, BindsTo("k", Variable(0), Variable(0)), [], 2, Name("k"), 4);
  }
}
