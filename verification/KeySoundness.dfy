/** Key tracing against the meaning of Java methods: what a traced origin guarantees,
    and exactly which names it may mistake. */
module KeySoundness {
  import opened Wrappers
  import opened JavaMethods
  import opened ValueOrigins

  ghost predicate Denotes(o: Origin, args: seq<Value>, v: Value) {
    match o
    case FromLiteral(text) => v == OfLiteral(text)
    case FromParameter(i) => i < |args| && v == args[i]
  }

  // ----- what the trace takes a name to mean

  /** The declaration that the resolution of an expression follows. */
  function Picked(m: MethodNode, e: Expr, line: nat, visited: set<string>): (r: Option<Binding>)
    ensures r.Some? ==> e.Name? && !r.value.Field? && !r.value.Unbound?
    ensures r.Some? && r.value.Variable? ==> e.id !in visited && IsAlias(m, e.id, line, r.value.item)
  {
    if !e.Name? then None else
      var index := ParameterIndexOf(m, e);
      if index.Some? then Some(Argument(0, index.value))
      else if e.id in visited then None
      else
        match AliasOf(m, e.id, line)
        case None => None
        case Some(k) => Some(Variable(k))
  }

  /** No declaration of the name but `b` is in sight of a member: no parameter, variable or
      field of it or of the members around it, up to the first that hides all others. */
  predicate Sole(m: MethodNode, fields: set<string>, a: nat, name: string, line: nat, b: Binding)
    decreases a
  {
    if HasParam(m, a, name) then
      b.Argument? && b.at == a && forall i | 0 <= i < |ParamsAt(m, a)| :: ParamsAt(m, a)[i].name == name ==> i == b.index
    else
      && (forall k: nat | k < |m.body| :: IsVariable(m, a, name, line, k) ==> b == Variable(k))
      && (if name in FieldsAt(m, fields, a) then b.Field? else a == 0 || Sole(m, fields, Outer(m, a), name, line, b))
  }

  predicate SoleAt(m: MethodNode, fields: set<string>, site: nat, name: string, b: Binding)
    requires site < |m.body|
  {
    Sole(m, fields, m.body[site].at, name, m.body[site].line, b)
  }

  /** No write of the name may be bound to `b`, however it is spelled. */
  predicate Unwritten(m: MethodNode, fields: set<string>, name: string, b: Binding) {
    forall w | 0 <= w < |m.body| && IsWrite(m.body[w]) && m.body[w].target == name ::
      MayMean(m, fields, w, name, b) ==> !WriteAllowed(m, m.body[w].at, b)
  }

  /** Every name that the resolution follows has no other declaration in sight, and nothing
      writes what it follows. */
  predicate Clear(m: MethodNode, fields: set<string>, site: nat, e: Expr, line: nat, visited: set<string>)
    requires site < |m.body|
    decreases |LocalNames(m) - visited|
  {
    match Picked(m, e, line, visited)
    case None => true
    case Some(b) =>
      SoleAt(m, fields, site, e.id, b) && Unwritten(m, fields, e.id, b) &&
      match b
      case Variable(k) =>
        Fewer(m, visited, k);
        Clear(m, fields, k, m.body[k].init.value, m.body[k].line, visited + {e.id})
      case _ => true
  }

  /** `Sole` is what it says: any declaration the compiler may bind the name to is `b`. */
  lemma {:induction false} SoleMeans(m: MethodNode, fields: set<string>, a: nat, name: string, line: nat, b: Binding)
    ensures Sole(m, fields, a, name, line, b) <==>
      forall other :: Candidate(m, fields, a, name, line, other) ==> other.Unbound? || other == b
    decreases a
  {
    if HasParam(m, a, name) {
      SoleParameter(m, fields, a, name, line, b);
    } else {
      if name !in FieldsAt(m, fields, a) && a > 0 { SoleMeans(m, fields, Outer(m, a), name, line, b); }
      SoleHere(m, fields, a, name, line, b);
    }
  }

  lemma SoleParameter(m: MethodNode, fields: set<string>, a: nat, name: string, line: nat, b: Binding)
    requires HasParam(m, a, name)
    ensures Sole(m, fields, a, name, line, b) <==>
      forall other :: Candidate(m, fields, a, name, line, other) ==> other.Unbound? || other == b
  {
    var p :| p in ParamsAt(m, a) && p.name == name;
    var i :| 0 <= i < |ParamsAt(m, a)| && ParamsAt(m, a)[i] == p;
    if forall other :: Candidate(m, fields, a, name, line, other) ==> other.Unbound? || other == b {
      assert Candidate(m, fields, a, name, line, Argument(a, i));
      forall j | 0 <= j < |ParamsAt(m, a)| && ParamsAt(m, a)[j].name == name ensures j == b.index {
        assert Candidate(m, fields, a, name, line, Argument(a, j));
      }
    }
  }

  lemma SoleHere(m: MethodNode, fields: set<string>, a: nat, name: string, line: nat, b: Binding)
    requires !HasParam(m, a, name)
    requires name !in FieldsAt(m, fields, a) && a > 0 ==>
      (Sole(m, fields, Outer(m, a), name, line, b) <==>
       forall other :: Candidate(m, fields, Outer(m, a), name, line, other) ==> other.Unbound? || other == b)
    ensures Sole(m, fields, a, name, line, b) <==>
      forall other :: Candidate(m, fields, a, name, line, other) ==> other.Unbound? || other == b
  {
    if forall other :: Candidate(m, fields, a, name, line, other) ==> other.Unbound? || other == b {
      forall k: nat | k < |m.body| && IsVariable(m, a, name, line, k) ensures b == Variable(k) {
        assert Candidate(m, fields, a, name, line, Variable(k));
      }
      if name in FieldsAt(m, fields, a) {
        assert Candidate(m, fields, a, name, line, Field);
      } else if a > 0 {
        forall other | Candidate(m, fields, Outer(m, a), name, line, other) ensures other.Unbound? || other == b {
          assert Candidate(m, fields, a, name, line, other);
        }
      }
    }
  }

  // ----- one activation

  /** No write is bound to `b`. */
  ghost predicate Keeps(m: MethodNode, scope: Scope, b: Binding) {
    forall w :: 0 <= w < |m.body| && IsWrite(m.body[w]) ==> scope(w, m.body[w].target) != b
  }

  /** A parameter that no write is bound to keeps its argument. */
  lemma {:induction false} ArgumentKept(m: MethodNode, scope: Scope, args: seq<Value>, i: nat, steps: seq<Step>, f: Frame)
    requires i < |args| && Keeps(m, scope, Argument(0, i)) && MayReach(m, scope, args, steps, f)
    ensures |f.params| == |args| && f.params[i] == args[i]
    decreases |steps|
  {
    if steps != [] {
      var Step(s, v) := steps[|steps| - 1];
      var rest := steps[..|steps| - 1];
      var f0 :| MayReach(m, scope, args, rest, f0) && Executes(m, scope, f0, s, v, f);
      ArgumentKept(m, scope, args, i, rest, f0);
    }
  }

  /** A name bound to a parameter of the method, or to a variable, is its name. */
  lemma {:induction false} BoundName(m: MethodNode, fields: set<string>, a: nat, name: string, line: nat, b: Binding)
    requires Candidate(m, fields, a, name, line, b)
    ensures b.Argument? && b.at == 0 ==> b.index < |m.params| && m.params[b.index].name == name
    ensures b.Variable? ==> b.item < |m.body| && (m.body[b.item].Local? || m.body[b.item].Bound?) && m.body[b.item].name == name
    decreases a
  {
    if !HasParam(m, a, name) && name !in FieldsAt(m, fields, a) && a > 0 && Candidate(m, fields, Outer(m, a), name, line, b) {
      BoundName(m, fields, Outer(m, a), name, line, b);
    }
  }

  /** The compiler binds no write to what a clear name stands for. */
  lemma ClearKeeps(m: MethodNode, fields: set<string>, scope: Scope, site: nat, e: Expr, line: nat, visited: set<string>)
    requires Legal(m, fields, scope) && site < |m.body| && Clear(m, fields, site, e, line, visited)
    requires Picked(m, e, line, visited).Some?
    ensures Keeps(m, scope, Picked(m, e, line, visited).value)
  {
    var b := Picked(m, e, line, visited).value;
    forall w: nat | w < |m.body| && IsWrite(m.body[w]) ensures scope(w, m.body[w].target) != b {
      if scope(w, m.body[w].target) == b {
        assert MayMean(m, fields, w, m.body[w].target, b);
        BoundName(m, fields, m.body[w].at, m.body[w].target, m.body[w].line, b);
      }
    }
  }

  /** A clear name is bound to what the trace picks. */
  lemma ClearBinds(m: MethodNode, fields: set<string>, scope: Scope, site: nat, e: Expr, line: nat, visited: set<string>)
    requires Legal(m, fields, scope) && site < |m.body| && Clear(m, fields, site, e, line, visited)
    requires Picked(m, e, line, visited).Some?
    ensures scope(site, e.id).Unbound? || scope(site, e.id) == Picked(m, e, line, visited).value
  {
    assert MayMean(m, fields, site, e.id, scope(site, e.id));
    SoleMeans(m, fields, m.body[site].at, e.id, m.body[site].line, Picked(m, e, line, visited).value);
  }

  /** The value of an expression is the one its origin names, in every state that any
      execution of the method may reach. */
  lemma {:induction false} OriginSound(m: MethodNode, fields: set<string>, scope: Scope, args: seq<Value>, e: Expr, site: nat, line: nat, visited: set<string>, steps: seq<Step>, f: Frame, v: Value)
    requires Legal(m, fields, scope) && |args| == |m.params| && site < |m.body|
    requires OriginOf(m, e, line, visited).Some? && Clear(m, fields, site, e, line, visited)
    requires MayReach(m, scope, args, steps, f) && Evaluates(scope, f, site, e, v)
    ensures Denotes(OriginOf(m, e, line, visited).value, args, v)
    decreases |LocalNames(m) - visited|, 0
  {
    if e.Name? {
      ClearBinds(m, fields, scope, site, e, line, visited);
      ClearKeeps(m, fields, scope, site, e, line, visited);
      match Picked(m, e, line, visited).value
      case Argument(_, i) =>
        ArgumentKept(m, scope, args, i, steps, f);
      case Variable(k) =>
        Fewer(m, visited, k);
        AliasHolds(m, fields, scope, args, k, visited + {e.id}, steps, f, v);
    }
  }

  /** An alias that no write is bound to holds the value its initializer's origin names whenever it is assigned. */
  lemma {:induction false} AliasHolds(m: MethodNode, fields: set<string>, scope: Scope, args: seq<Value>, k: nat, visited: set<string>, steps: seq<Step>, f: Frame, w: Value)
    requires Legal(m, fields, scope) && |args| == |m.params|
    requires k < |m.body| && m.body[k].Local? && m.body[k].init.Some? && Keeps(m, scope, Variable(k))
    requires OriginOf(m, m.body[k].init.value, m.body[k].line, visited).Some?
    requires Clear(m, fields, k, m.body[k].init.value, m.body[k].line, visited)
    requires MayReach(m, scope, args, steps, f) && w in Assigned(f, k)
    ensures Denotes(OriginOf(m, m.body[k].init.value, m.body[k].line, visited).value, args, w)
    decreases |LocalNames(m) - visited|, |steps| + 1
  {
    var Step(s, v) := steps[|steps| - 1];
    var rest := steps[..|steps| - 1];
    var f0 :| MayReach(m, scope, args, rest, f0) && Executes(m, scope, f0, s, v, f);
    if w in Assigned(f0, k) {
      AliasHolds(m, fields, scope, args, k, visited, rest, f0, w);
    } else {
      OnlyInitialized(m, scope, k, s, v, f0, f, w);
      OriginSound(m, fields, scope, args, m.body[k].init.value, k, m.body[k].line, visited, rest, f0, w);
    }
  }

  /** Only its declaration assigns a variable that no write is bound to. */
  lemma OnlyInitialized(m: MethodNode, scope: Scope, k: nat, s: nat, v: Value, f0: Frame, f: Frame, w: Value)
    requires k < |m.body| && m.body[k].Local? && m.body[k].init.Some? && Keeps(m, scope, Variable(k))
    requires Executes(m, scope, f0, s, v, f) && w in Assigned(f, k) && w !in Assigned(f0, k)
    ensures s == k && w == v
  {
  }

  // ----- a whole route

  /** One method of the route: its arguments, what it executed, and where it stands. */
  datatype Activation = Activation(args: seq<Value>, steps: seq<Step>, frame: Frame, site: nat)

  function MethodAt(entry: IntegrationMethod, route: seq<Hop>, j: nat): IntegrationMethod
    requires j <= |route|
  {
    if j == 0 then entry else route[j - 1].target
  }

  /** A program: its methods, the fields in scope of each, and the compiler's bindings. */
  datatype Program = Program(sources: Sources, fields: string -> set<string>, scopes: string -> Scope) {
    ghost predicate LegalMethods() {
      forall id :: id in sources ==> Legal(sources[id], fields(id), scopes(id))
    }
  }

  ghost predicate Active(p: Program, m: IntegrationMethod, a: Activation) {
    && m.id in p.sources
    && |a.args| == |p.sources[m.id].params|
    && a.site < |p.sources[m.id].body|
    && MayReach(p.sources[m.id], p.scopes(m.id), a.args, a.steps, a.frame)
  }

  /** Each activation stands at the route's call and passes its evaluated arguments on. */
  ghost predicate Runs(p: Program, entry: IntegrationMethod, route: seq<Hop>, acts: seq<Activation>) {
    && |acts| == |route| + 1
    && (forall j :: 0 <= j <= |route| ==> ActiveAt(p, entry, route, acts, j))
    && forall j :: 0 <= j < |route| ==> PassesAt(p, entry, route, acts, j)
  }

  ghost predicate ActiveAt(p: Program, entry: IntegrationMethod, route: seq<Hop>, acts: seq<Activation>, j: int)
    requires 0 <= j <= |route| < |acts|
  {
    Active(p, MethodAt(entry, route, j), acts[j])
  }

  ghost predicate PassesAt(p: Program, entry: IntegrationMethod, route: seq<Hop>, acts: seq<Activation>, j: int)
    requires 0 <= j < |route| < |acts|
  {
    Passes(p, MethodAt(entry, route, j), route[j], acts[j], acts[j + 1].args)
  }

  ghost predicate Passes(p: Program, caller: IntegrationMethod, hop: Hop, a: Activation, args: seq<Value>) {
    && Active(p, caller, a)
    && IsCallSite(p.sources[caller.id], hop.call.callLine, hop.target.simpleName, a.site)
    && var passed := p.sources[caller.id].body[a.site].args;
    && |passed| == |args|
    && forall i :: 0 <= i < |args| ==> Evaluates(p.scopes(caller.id), a.frame, a.site, passed[i], args[i])
  }

  /** The argument of one hop is clear in its caller. */
  predicate ClearHop(sources: Sources, fields: string -> set<string>, entry: IntegrationMethod, route: seq<Hop>, n: nat, index: nat)
    requires 0 < n <= |route|
  {
    var Hop(target, call) := route[n - 1];
    var caller := CallerOf(entry, route, n - 1);
    caller.id in sources ==>
      match CallSiteOf(sources[caller.id], call.callLine, target.simpleName)
      case None => true
      case Some(site) =>
        index < |sources[caller.id].body[site].args| ==>
          Clear(sources[caller.id], fields(caller.id), site, sources[caller.id].body[site].args[index], call.callLine, {})
  }

  function ClearOf(sources: Sources, fields: string -> set<string>, entry: IntegrationMethod, route: seq<Hop>): (nat, nat) -> bool {
    (n: nat, index: nat) => 0 < n <= |route| ==> ClearHop(sources, fields, entry, route, n, index)
  }

  /** Every argument that the trace follows back from parameter `index` is `ok`. */
  predicate AllBack(ok: (nat, nat) -> bool, hops: Hops, n: nat, index: nat) {
    n == 0 ||
    (ok(n, index) &&
     match hops(n, index)
     case Some(FromParameter(i)) => AllBack(ok, hops, n - 1, i)
     case _ => true)
  }

  /** The condition on the sources alone under which the trace of a key that is read at the
      item `site` can be trusted. */
  predicate ClearRoute(sources: Sources, fields: string -> set<string>, entry: IntegrationMethod, route: seq<Hop>, current: IntegrationMethod, site: nat, key: Expr) {
    current.id in sources && site < |sources[current.id].body| ==>
      && Clear(sources[current.id], fields(current.id), site, key, current.last, {})
      && match OriginOf(sources[current.id], key, current.last, {})
         case Some(FromParameter(i)) => AllBack(ClearOf(sources, fields, entry, route), HopsOf(sources, entry, route), |route|, i)
         case _ => true
  }

  /** What a key identity claims about the value read at the access. */
  ghost predicate KeyDenotes(k: KeyIdentity, entry: IntegrationMethod, args: seq<Value>, v: Value) {
    match k
    case LiteralKey(_, text) => v == OfLiteral(text)
    case ParameterKey(_, id, i) => id == entry.id && i < |args| && v == args[i]
  }

  /** One hop: the argument's origin denotes the value that the call passed. */
  lemma HopSound(p: Program, entry: IntegrationMethod, route: seq<Hop>, acts: seq<Activation>, n: nat, index: nat)
    requires p.LegalMethods() && Runs(p, entry, route, acts)
    requires 0 < n <= |route| && index < |acts[n].args|
    requires ClearHop(p.sources, p.fields, entry, route, n, index) && HopOrigin(p.sources, entry, route, n, index).Some?
    ensures Denotes(HopOrigin(p.sources, entry, route, n, index).value, acts[n - 1].args, acts[n].args[index])
  {
    var Hop(target, call) := route[n - 1];
    var caller := CallerOf(entry, route, n - 1);
    var node, a := p.sources[caller.id], acts[n - 1];
    assert PassesAt(p, entry, route, acts, n - 1);
    OnlyCallSite(node, call.callLine, target.simpleName, a.site);
    var argument := node.body[a.site].args[index];
    OriginSound(node, p.fields(caller.id), p.scopes(caller.id), a.args, argument, a.site, call.callLine, {}, a.steps, a.frame, acts[n].args[index]);
  }

  /** Every argument of the route that is `ok` is what its origin says. */
  ghost predicate HopsDenote(ok: (nat, nat) -> bool, hops: Hops, args: seq<seq<Value>>) {
    forall n: nat, index: nat :: HopDenotes(ok, hops, args, n, index)
  }

  ghost predicate HopDenotes(ok: (nat, nat) -> bool, hops: Hops, args: seq<seq<Value>>, n: nat, index: nat) {
    0 < n < |args| && index < |args[n]| && ok(n, index) && hops(n, index).Some? ==>
      Denotes(hops(n, index).value, args[n - 1], args[n][index])
  }

  function ArgsOf(acts: seq<Activation>): seq<seq<Value>> {
    seq(|acts|, j requires 0 <= j < |acts| => acts[j].args)
  }

  lemma RunDenotes(p: Program, entry: IntegrationMethod, route: seq<Hop>, acts: seq<Activation>)
    requires p.LegalMethods() && Runs(p, entry, route, acts)
    ensures HopsDenote(ClearOf(p.sources, p.fields, entry, route), HopsOf(p.sources, entry, route), ArgsOf(acts))
  {
    forall n: nat, index: nat
      ensures HopDenotes(ClearOf(p.sources, p.fields, entry, route), HopsOf(p.sources, entry, route), ArgsOf(acts), n, index)
    {
      if 0 < n <= |route| && index < |acts[n].args| &&
         ClearHop(p.sources, p.fields, entry, route, n, index) && HopOrigin(p.sources, entry, route, n, index).Some? {
        HopSound(p, entry, route, acts, n, index);
      }
    }
  }

  lemma {:induction false} TraceBackSound(ok: (nat, nat) -> bool, hops: Hops, entry: IntegrationMethod, route: seq<Hop>, args: seq<seq<Value>>, n: nat, current: IntegrationMethod, index: nat, resource: string)
    requires HopsDenote(ok, hops, args) && |args| == |route| + 1
    requires n <= |route| && index < |args[n]| && (n == 0 ==> current.id == entry.id)
    requires AllBack(ok, hops, n, index) && TraceBack(hops, entry, route, n, current, index, resource).Some?
    ensures KeyDenotes(TraceBack(hops, entry, route, n, current, index, resource).value, entry, args[0], args[n][index])
    decreases n
  {
    if n > 0 {
      assert HopDenotes(ok, hops, args, n, index);
      match hops(n, index)
      case Some(FromParameter(i)) =>
        TraceBackSound(ok, hops, entry, route, args, n - 1, CallerOf(entry, route, n - 1), i, resource);
      case _ =>
    }
  }

  /** Soundness: along any route, for any entry arguments and any execution, a traced
      literal is the key's value and a traced entry parameter holds the key. */
  lemma TraceSound(p: Program, entry: IntegrationMethod, route: seq<Hop>, current: IntegrationMethod, key: Expr, resource: string, acts: seq<Activation>, v: Value)
    requires p.LegalMethods() && Runs(p, entry, route, acts)
    requires current.id == MethodAt(entry, route, |route|).id && ActiveAt(p, entry, route, acts, |route|)
    requires Evaluates(p.scopes(current.id), acts[|route|].frame, acts[|route|].site, key, v)
    requires ClearRoute(p.sources, p.fields, entry, route, current, acts[|route|].site, key)
    requires TraceOf(p.sources, route, entry, current, Some(key), resource).Some?
    ensures KeyDenotes(TraceOf(p.sources, route, entry, current, Some(key), resource).value, entry, acts[0].args, v)
  {
    if !key.Literal? {
      var node, a := p.sources[current.id], acts[|route|];
      OriginSound(node, p.fields(current.id), p.scopes(current.id), a.args, key, a.site, current.last, {}, a.steps, a.frame, v);
      var origin := OriginOf(node, key, current.last, {}).value;
      if origin.FromParameter? {
        RunDenotes(p, entry, route, acts);
        TraceBackSound(ClearOf(p.sources, p.fields, entry, route), HopsOf(p.sources, entry, route), entry, route, ArgsOf(acts), |route|, current, origin.index, resource);
      }
    }
  }

}
