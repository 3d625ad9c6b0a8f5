/** The part of Java that key tracing reads, and its meaning: methods with parameters, local
    declarations, assignments, invocations and the classes declared inside them, whose names
    are bound by the compiler. */
module JavaMethods {
  import opened Wrappers

  /** An expression as its text is classified: a literal, one identifier, anything else. */
  datatype Expr = Literal(text: string) | Name(id: string) | Other(text: string)

  datatype Param = Param(name: string, scalar: bool)

  /** A method, constructor or initializer of an anonymous or local class. `outer` is the
      member around that class, `fields` the fields that the class has or inherits. */
  datatype Inner = Inner(outer: nat, isMethod: bool, params: seq<Param>, fields: set<string>)

  /** The relevant nodes of a method body in source order. `at` is the member they stand in:
      0 is the method itself, `n + 1` the inner member `n`. A `Bound` variable belongs to a
      loop, a catch clause, a pattern, a resource or a lambda. A variable may be `marked` by
      the word final in an annotation and not be final. A write to a variable is `bare` if its
      text is the name alone, with an operator: `key++` is, and `(key)++` is not. */
  datatype Item =
    | Local(line: nat, at: nat, isFinal: bool, marked: bool, scalar: bool, name: string, init: Option<Expr>)
    | Bound(line: nat, at: nat, name: string)
    | Assign(line: nat, at: nat, target: string, bare: bool, from: Expr)
    | Update(line: nat, at: nat, target: string, bare: bool)
    | Invoke(line: nat, at: nat, last: nat, callee: string, args: seq<Expr>)

  datatype MethodNode = MethodNode(params: seq<Param>, body: seq<Item>, inner: seq<Inner>)

  function Outer(m: MethodNode, a: nat): (o: nat)
    ensures a > 0 ==> o < a
  {
    if 0 < a <= |m.inner| && m.inner[a - 1].outer < a then m.inner[a - 1].outer else 0
  }

  function ParamsAt(m: MethodNode, a: nat): seq<Param> {
    if a == 0 then m.params else if a <= |m.inner| then m.inner[a - 1].params else []
  }

  function FieldsAt(m: MethodNode, fields: set<string>, a: nat): set<string> {
    if a == 0 then fields else if a <= |m.inner| then m.inner[a - 1].fields else {}
  }

  /** The nearest method declaration around the member is the method itself. */
  predicate IsOwn(m: MethodNode, a: nat)
    decreases a
  {
    a == 0 || (a <= |m.inner| && !m.inner[a - 1].isMethod && IsOwn(m, Outer(m, a)))
  }

  // ----- name binding

  datatype Binding = Argument(at: nat, index: nat) | Variable(item: nat) | Field | Unbound

  /** `scope(site, name)` is what the compiler binds `name` to at the item `site`. */
  type Scope = (nat, string) -> Binding

  predicate HasParam(m: MethodNode, a: nat, name: string) {
    exists p | p in ParamsAt(m, a) :: p.name == name
  }

  predicate IsVariable(m: MethodNode, a: nat, name: string, line: nat, k: nat) {
    k < |m.body| && (m.body[k].Local? || m.body[k].Bound?) &&
    m.body[k].at == a && m.body[k].name == name && m.body[k].line <= line
  }

  /** What javac may bind a name to in a member: a parameter of the member hides everything
      further out, and so does a field of an inner class unless a variable of the member is in
      scope; a variable is declared no later than it is used; which of them are in scope
      depends on blocks, and a name that nothing declares stays unbound. */
  predicate Candidate(m: MethodNode, fields: set<string>, a: nat, name: string, line: nat, b: Binding)
    decreases a
  {
    if HasParam(m, a, name) then
      b.Argument? && b.at == a && b.index < |ParamsAt(m, a)| && ParamsAt(m, a)[b.index].name == name
    else
      || (b.Variable? && IsVariable(m, a, name, line, b.item))
      || (if name in FieldsAt(m, fields, a) then b.Field?
          else if a == 0 then b.Unbound?
          else Candidate(m, fields, Outer(m, a), name, line, b))
  }

  predicate MayMean(m: MethodNode, fields: set<string>, site: nat, name: string, b: Binding)
    requires site < |m.body|
  {
    Candidate(m, fields, m.body[site].at, name, m.body[site].line, b)
  }

  predicate IsWrite(item: Item) { item.Assign? || item.Update? }

  /** Nothing assigns a final variable that its declaration initializes, nor a parameter or
      variable of a member further out. */
  predicate WriteAllowed(m: MethodNode, at: nat, b: Binding) {
    match b
    case Argument(a, _) => a == at
    case Variable(k) => k < |m.body| ==> m.body[k].at == at && !(m.body[k].Local? && m.body[k].isFinal && m.body[k].init.Some?)
    case _ => true
  }

  /** A method the compiler accepts. */
  ghost predicate Legal(m: MethodNode, fields: set<string>, scope: Scope) {
    && (forall site: nat, name :: site < |m.body| ==> MayMean(m, fields, site, name, scope(site, name)))
    && (forall i: nat :: i < |m.body| && IsWrite(m.body[i]) ==> WriteAllowed(m, m.body[i].at, scope(i, m.body[i].target)))
  }

  // ----- meaning

  datatype Value = OfLiteral(text: string) | Datum(n: int)

  /** One activation: its arguments, and all that its variables have been assigned so far. */
  datatype Frame = Frame(params: seq<Value>, locals: map<nat, set<Value>>)

  function Assigned(f: Frame, k: nat): set<Value> { if k in f.locals then f.locals[k] else {} }

  /** `e` may evaluate to `v` at a site. Fields, arguments of inner members and other
      expressions may give any value; a variable may give any value it was assigned, as
      closures and the variables of inner members outlive the latest one. */
  ghost predicate Evaluates(scope: Scope, f: Frame, site: nat, e: Expr, v: Value) {
    match e
    case Literal(text) => v == OfLiteral(text)
    case Other(_) => true
    case Name(x) =>
      match scope(site, x)
      case Argument(at, i) => at != 0 || (i < |f.params| && v == f.params[i])
      case Variable(k) => v in Assigned(f, k)
      case Field => true
      case Unbound => false
  }

  /** One executed item and the value it computed. */
  datatype Step = Step(item: nat, value: Value)

  function Stored(f: Frame, b: Binding, v: Value): Frame {
    match b
    case Argument(at, i) => if at == 0 && i < |f.params| then f.(params := f.params[i := v]) else f
    case Variable(k) => f.(locals := f.locals[k := Assigned(f, k) + {v}])
    case _ => f
  }

  /** Executing item `i`, with `v` the value it computes. */
  ghost predicate Executes(m: MethodNode, scope: Scope, f: Frame, i: nat, v: Value, f': Frame) {
    i < |m.body| &&
    match m.body[i]
    case Local(_, _, _, _, _, _, init) =>
      if init.Some? then Evaluates(scope, f, i, init.value, v) && f' == Stored(f, Variable(i), v) else f' == f
    case Bound(_, _, _) => f' == Stored(f, Variable(i), v)
    case Assign(_, _, target, _, from) => Evaluates(scope, f, i, from, v) && f' == Stored(f, scope(i, target), v)
    case Update(_, _, target, _) => f' == Stored(f, scope(i, target), v)
    case Invoke(_, _, _, _, _) => f' == f
  }

  /** An activation with arguments `args` may be in state `f`: some items were executed,
      in any order and any number of times, whatever the branches and loops are and whoever
      calls the inner members. */
  ghost predicate MayReach(m: MethodNode, scope: Scope, args: seq<Value>, steps: seq<Step>, f: Frame)
    decreases |steps|
  {
    if steps == [] then f == Frame(args, map[]) else
      var last := steps[|steps| - 1];
      exists f0 :: MayReach(m, scope, args, steps[..|steps| - 1], f0) && Executes(m, scope, f0, last.item, last.value, f)
  }

  lemma ReachStep(m: MethodNode, scope: Scope, args: seq<Value>, steps: seq<Step>, f0: Frame, i: nat, v: Value, f: Frame)
    requires MayReach(m, scope, args, steps, f0) && Executes(m, scope, f0, i, v, f)
    ensures MayReach(m, scope, args, steps + [Step(i, v)], f)
  {
    var all := steps + [Step(i, v)];
    assert all[..|all| - 1] == steps && all[|all| - 1] == Step(i, v);
  }
}
