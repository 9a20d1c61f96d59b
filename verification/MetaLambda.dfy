/** `meta::lambda` without variadic placeholders.

    The library evaluates a lambda body by looking placeholders up, last occurrence first, in the
    list of its tags, and picking the argument at that index.  The body itself is the last tag (and
    its own argument), and a nested lambda becomes a composition that remembers the enclosing tags
    and arguments and concatenates its own to them when it is invoked.  This module states that
    machine next to a textbook environment evaluator. */
module MetaLambda {
  import opened Options

  /** What a `defer` names: a class template, or the alias `meta::invoke`. */
  datatype Template = Class(name: string) | InvokeAlias

  /** A type as it is written inside a lambda. */
  datatype Term =
    | Atom(name: string)                        // a type that is no specialization, or a placeholder
    | Inst(c: string, ts: seq<Term>)            // C<Ts...>
    | Defer(template: Template, ts: seq<Term>)  // defer<C, Ts...>
    | Protect(t: Term)                          // protect<T>
    | Lambda(params: seq<Term>, body: Term)     // lambda<As..., Body>

  // ----- the library's machine

  /** A type that results.  `Raw` is one held unevaluated (a lambda or a deferred type that came in
      as an argument); `Closure` is compose<uncurry<lambda_<tags>>, curry<bind_front<concat, args>>>. */
  datatype Value =
    | AtomV(name: string)
    | InstV(c: string, vs: seq<Value>)
    | Raw(t: Term)
    | Closure(tags: seq<Term>, args: seq<Value>)

  function Inject(t: Term): Value {
    match t
    case Atom(name) => AtomV(name)
    case Inst(c, ts) => InstV(c, seq(|ts|, i requires 0 <= i < |ts| => Inject(ts[i])))
    case _ => Raw(t)
  }

  function ReverseFindIndex(tags: seq<Term>, t: Term): (r: Option<nat>)
    ensures r.Some? ==> r.value < |tags| && tags[r.value] == t
    ensures r.Some? ==> forall j :: r.value < j < |tags| ==> tags[j] != t
    ensures r.None? ==> t !in tags
  {
    if tags == [] then None
    else if tags[|tags| - 1] == t then Some(|tags| - 1)
    else ReverseFindIndex(tags[..|tags| - 1], t)
  }

  /** `lambda_<tags>::impl<t, args>`.  `depth` bounds nested invocations, as the compiler's template
      instantiation depth does. */
  function Impl(t: Term, tags: seq<Term>, args: seq<Value>, depth: nat): Option<Value>
    requires |tags| == |args|
    decreases depth, 0, t, 1
  {
    match t
    case Atom(name) =>
      var i := ReverseFindIndex(tags, t);
      if i.Some? then Some(args[i.value]) else Some(AtomV(name))
    case Inst(c, ts) =>
      var vs := ImplAll(ts, tags, args, depth);
      if vs.Some? then Some(InstV(c, vs.value)) else None
    case Defer(c, ts) =>
      var vs := ImplAll(ts, tags, args, depth);
      if vs.None? then None
      else if c.Class? then Some(InstV(c.name, vs.value))
      else if |vs.value| == 0 || depth == 0 then None
      else Invoke(vs.value[0], vs.value[1..], depth - 1)
    case Protect(t') => Some(Inject(t'))
    case Lambda(params, body) => Some(Closure(tags + params + [body], args))
  }

  function ImplAll(ts: seq<Term>, tags: seq<Term>, args: seq<Value>, depth: nat): Option<seq<Value>>
    requires |tags| == |args|
    decreases depth, 0, ts, 0
  {
    if ts == [] then Some([])
    else
      var v := Impl(ts[0], tags, args, depth);
      var vs := ImplAll(ts[1..], tags, args, depth);
      if v.Some? && vs.Some? then Some([v.value] + vs.value) else None
  }

  /** `lambda_<tags>::invoke<args...>`: the arity is one less than the number of tags, and the body
      joins the arguments as the value of its own tag. */
  function Run(tags: seq<Term>, args: seq<Value>, depth: nat): Option<Value>
    decreases depth, 1
  {
    if |tags| != |args| + 1 then None
    else
      var body := tags[|tags| - 1];
      Impl(body, tags, args + [Inject(body)], depth)
  }

  function Invoke(f: Value, us: seq<Value>, depth: nat): Option<Value>
    decreases depth, 2
  {
    match f
    case Raw(Lambda(params, body)) => Run(params + [body], us, depth)
    case Closure(tags, args) => Run(tags, args + us, depth)
    case _ => None
  }

  // ----- the textbook evaluator

  datatype Env = Empty | Bind(name: string, value: SValue, rest: Env)

  datatype SValue =
    | SAtom(name: string)
    | SInst(c: string, vs: seq<SValue>)
    | SRaw(t: Term)
    | SClosure(env: Env, params: seq<Term>, body: Term)

  function Lookup(env: Env, x: string): Option<SValue> {
    match env
    case Empty => None
    case Bind(name, value, rest) => if name == x then Some(value) else Lookup(rest, x)
  }

  /** Later parameters shadow earlier ones, and all of them shadow `env`. */
  function Extend(env: Env, params: seq<Term>, vs: seq<SValue>): Env
    requires |params| == |vs|
  {
    if params == [] then env
    else
      var k := |params| - 1;
      var rest := Extend(env, params[..k], vs[..k]);
      if params[k].Atom? then Bind(params[k].name, vs[k], rest) else rest
  }

  function SInject(t: Term): SValue {
    match t
    case Atom(name) => SAtom(name)
    case Inst(c, ts) => SInst(c, seq(|ts|, i requires 0 <= i < |ts| => SInject(ts[i])))
    case _ => SRaw(t)
  }

  function Eval(t: Term, env: Env, depth: nat): Option<SValue>
    decreases depth, 0, t, 1
  {
    match t
    case Atom(name) =>
      var v := Lookup(env, name);
      if v.Some? then v else Some(SAtom(name))
    case Inst(c, ts) =>
      var vs := EvalAll(ts, env, depth);
      if vs.Some? then Some(SInst(c, vs.value)) else None
    case Defer(c, ts) =>
      var vs := EvalAll(ts, env, depth);
      if vs.None? then None
      else if c.Class? then Some(SInst(c.name, vs.value))
      else if |vs.value| == 0 || depth == 0 then None
      else SApply(vs.value[0], vs.value[1..], depth - 1)
    case Protect(t') => Some(SInject(t'))
    case Lambda(params, body) => Some(SClosure(env, params, body))
  }

  function EvalAll(ts: seq<Term>, env: Env, depth: nat): Option<seq<SValue>>
    decreases depth, 0, ts, 0
  {
    if ts == [] then Some([])
    else
      var v := Eval(ts[0], env, depth);
      var vs := EvalAll(ts[1..], env, depth);
      if v.Some? && vs.Some? then Some([v.value] + vs.value) else None
  }

  function SApply(f: SValue, us: seq<SValue>, depth: nat): Option<SValue>
    decreases depth, 2
  {
    match f
    case SRaw(Lambda(params, body)) =>
      if |params| == |us| then Eval(body, Extend(Empty, params, us), depth) else None
    case SClosure(env, params, body) =>
      if |params| == |us| then Eval(body, Extend(env, params, us), depth) else None
    case _ => None
  }

  // ----- how machine values read as textbook values

  /** A remembered pair of lists becomes an environment; tags that are no names bind nothing. */
  function Abs(v: Value): SValue
    decreases v, 0
  {
    match v
    case AtomV(name) => SAtom(name)
    case InstV(c, vs) => SInst(c, AbsAll(vs))
    case Raw(t) => SRaw(t)
    case Closure(tags, args) =>
      if |args| < |tags| then
        SClosure(Extend(Empty, tags[..|args|], AbsAll(args)), tags[|args|..|tags| - 1], tags[|tags| - 1])
      else SAtom("")
  }

  function AbsAll(vs: seq<Value>): (ss: seq<SValue>)
    ensures |ss| == |vs|
    ensures forall i :: 0 <= i < |vs| ==> ss[i] == Abs(vs[i])
    decreases vs, 1
  {
    seq(|vs|, i requires 0 <= i < |vs| => Abs(vs[i]))
  }

  function EnvOf(tags: seq<Term>, args: seq<Value>): Env
    requires |tags| == |args|
  {
    Extend(Empty, tags, AbsAll(args))
  }

  /** The two evaluators agree: both fail, or both succeed with corresponding results. */
  predicate Agree(r: Option<Value>, s: Option<SValue>) {
    match r
    case None => s.None?
    case Some(v) => s == Some(Abs(v))
  }

  predicate AgreeAll(r: Option<seq<Value>>, s: Option<seq<SValue>>) {
    match r
    case None => s.None?
    case Some(vs) => s == Some(AbsAll(vs))
  }

  // ----- bare bodies

  function Names(tags: seq<Term>): set<string> {
    set t | t in tags && t.Atom? :: t.name
  }

  /** The body is nothing but a placeholder bound in `scope`. */
  predicate Bare(body: Term, scope: set<string>) {
    body.Atom? && body.name in scope
  }

  /** No lambda inside `t` has a bare body. */
  predicate Tame(t: Term, scope: set<string>)
    decreases t
  {
    match t
    case Atom(_) => true
    case Inst(_, ts) => forall i :: 0 <= i < |ts| ==> Tame(ts[i], scope)
    case Defer(_, ts) => forall i :: 0 <= i < |ts| ==> Tame(ts[i], scope)
    case Protect(t') => Tame(t', {})
    case Lambda(params, body) => !Bare(body, scope + Names(params)) && Tame(body, scope + Names(params))
  }

  predicate TameValue(v: Value) {
    match v
    case AtomV(_) => true
    case InstV(_, vs) => forall i :: 0 <= i < |vs| ==> TameValue(vs[i])
    case Raw(t) => Tame(t, {})
    case Closure(tags, args) =>
      && |args| < |tags|
      && !Bare(tags[|tags| - 1], Names(tags[..|tags| - 1]))
      && Tame(tags[|tags| - 1], Names(tags[..|tags| - 1]))
      && forall i :: 0 <= i < |args| ==> TameValue(args[i])
  }

  predicate TameValues(vs: seq<Value>) {
    forall i :: 0 <= i < |vs| ==> TameValue(vs[i])
  }
}
