/** Nested lambdas are lexically scoped closures, exactly when no body is a bare placeholder. */
module MetaLambdaScoping {
  import opened Options
  import opened MetaLambda

  lemma {:induction false} ExtendAppend(env: Env, ps: seq<Term>, vs: seq<SValue>, qs: seq<Term>, ws: seq<SValue>)
    requires |ps| == |vs| && |qs| == |ws|
    ensures Extend(env, ps + qs, vs + ws) == Extend(Extend(env, ps, vs), qs, ws)
    decreases |qs|
  {
    if qs == [] {
      assert ps + qs == ps && vs + ws == vs;
    } else {
      var k := |qs| - 1;
      assert (ps + qs)[..|ps + qs| - 1] == ps + qs[..k];
      assert (vs + ws)[..|ps + qs| - 1] == vs + ws[..k];
      ExtendAppend(env, ps, vs, qs[..k], ws[..k]);
    }
  }

  /** Searching the tag list from its end finds what the environment binds. */
  lemma {:induction false} LastIndexIsInnermostBinding(tags: seq<Term>, args: seq<Value>, x: string)
    requires |tags| == |args|
    ensures var i := ReverseFindIndex(tags, Atom(x));
            Lookup(EnvOf(tags, args), x) == if i.Some? then Some(Abs(args[i.value])) else None
    decreases |tags|
  {
    if tags != [] {
      var k := |tags| - 1;
      assert AbsAll(args)[..k] == AbsAll(args[..k]);
      if tags[k] != Atom(x) {
        LastIndexIsInnermostBinding(tags[..k], args[..k], x);
      }
    }
  }

  /** A tag that is no name adds nothing to the environment. */
  lemma BodyTagBindsNothing(tags: seq<Term>, args: seq<Value>, body: Term, v: Value)
    requires |tags| == |args| && !body.Atom?
    ensures EnvOf(tags + [body], args + [v]) == EnvOf(tags, args)
  {
    assert (tags + [body])[..|tags|] == tags;
    assert AbsAll(args + [v])[..|tags|] == AbsAll(args);
  }

  lemma {:induction false} InjectAgrees(t: Term)
    ensures Abs(Inject(t)) == SInject(t)
    decreases t
  {
    if t.Inst? {
      forall i | 0 <= i < |t.ts|
        ensures Abs(Inject(t.ts[i])) == SInject(t.ts[i])
      {
        InjectAgrees(t.ts[i]);
      }
    }
  }

  lemma {:induction false} InjectTame(t: Term)
    requires Tame(t, {})
    ensures TameValue(Inject(t))
    decreases t
  {
    if t.Inst? {
      forall i | 0 <= i < |t.ts|
        ensures TameValue(Inject(t.ts[i]))
      {
        InjectTame(t.ts[i]);
      }
    }
  }

  lemma {:induction false} TameShrinks(t: Term, big: set<string>, small: set<string>)
    requires Tame(t, big) && small <= big
    ensures Tame(t, small)
    decreases t
  {
    if t.Inst? || t.Defer? {
      forall i | 0 <= i < |t.ts|
        ensures Tame(t.ts[i], small)
      {
        TameShrinks(t.ts[i], big, small);
      }
    } else if t.Lambda? {
      TameShrinks(t.body, big + Names(t.params), small + Names(t.params));
    }
  }

  lemma NamesAppend(a: seq<Term>, b: seq<Term>)
    ensures Names(a + b) == Names(a) + Names(b)
  {
  }

  /** A nested lambda evaluates to the closure of the environment its tags and arguments spell. */
  lemma ClosureAgrees(params: seq<Term>, body: Term, tags: seq<Term>, args: seq<Value>)
    requires |tags| == |args| && TameValues(args)
    requires Tame(Lambda(params, body), Names(tags))
    ensures Abs(Closure(tags + params + [body], args)) == SClosure(EnvOf(tags, args), params, body)
    ensures TameValue(Closure(tags + params + [body], args))
  {
    var all := tags + params + [body];
    assert all[..|args|] == tags;
    assert all[|args|..|all| - 1] == params;
    assert all[..|all| - 1] == tags + params;
    NamesAppend(tags, params);
  }

  /** Inside one lambda the machine and the evaluator agree on every term, at every depth. */
  lemma {:induction false} ImplAgrees(t: Term, tags: seq<Term>, args: seq<Value>, depth: nat)
    requires |tags| == |args| && TameValues(args) && Tame(t, Names(tags))
    ensures Agree(Impl(t, tags, args, depth), Eval(t, EnvOf(tags, args), depth))
    ensures Impl(t, tags, args, depth).Some? ==> TameValue(Impl(t, tags, args, depth).value)
    decreases depth, 0, t, 1
  {
    match t
    case Atom(name) =>
      LastIndexIsInnermostBinding(tags, args, name);
    case Inst(c, ts) =>
      ImplAllAgrees(ts, tags, args, depth);
    case Defer(c, ts) =>
      ImplAllAgrees(ts, tags, args, depth);
      var vs := ImplAll(ts, tags, args, depth);
      if vs.Some? && c.InvokeAlias? && |vs.value| > 0 && depth > 0 {
        assert AbsAll(vs.value)[1..] == AbsAll(vs.value[1..]);
        InvokeAgrees(vs.value[0], vs.value[1..], depth - 1);
      }
    case Protect(t') =>
      InjectAgrees(t');
      InjectTame(t');
    case Lambda(params, body) =>
      ClosureAgrees(params, body, tags, args);
  }

  lemma {:induction false} ImplAllAgrees(ts: seq<Term>, tags: seq<Term>, args: seq<Value>, depth: nat)
    requires |tags| == |args| && TameValues(args)
    requires forall i :: 0 <= i < |ts| ==> Tame(ts[i], Names(tags))
    ensures AgreeAll(ImplAll(ts, tags, args, depth), EvalAll(ts, EnvOf(tags, args), depth))
    ensures ImplAll(ts, tags, args, depth).Some? ==> TameValues(ImplAll(ts, tags, args, depth).value)
    decreases depth, 0, ts, 0
  {
    if ts != [] {
      ImplAgrees(ts[0], tags, args, depth);
      ImplAllAgrees(ts[1..], tags, args, depth);
      var v, vs := Impl(ts[0], tags, args, depth), ImplAll(ts[1..], tags, args, depth);
      if v.Some? && vs.Some? {
        assert AbsAll([v.value] + vs.value) == [Abs(v.value)] + AbsAll(vs.value);
      }
    }
  }

  lemma AbsAllAppend(a: seq<Value>, b: seq<Value>)
    ensures AbsAll(a + b) == AbsAll(a) + AbsAll(b)
  {
  }

  /** The concatenated lists spell the remembered environment extended by the parameters. */
  lemma ConcatenationExtends(tags: seq<Term>, bound: seq<Value>, us: seq<Value>)
    requires |tags| == |bound| + |us|
    ensures EnvOf(tags, bound + us)
         == Extend(Extend(Empty, tags[..|bound|], AbsAll(bound)), tags[|bound|..], AbsAll(us))
  {
    var ps, qs := tags[..|bound|], tags[|bound|..];
    AbsAllAppend(bound, us);
    assert tags == ps + qs;
    ExtendAppend(Empty, ps, AbsAll(bound), qs, AbsAll(us));
  }

  /** What an application of a remembered closure means. */
  lemma ApplyClosure(tags: seq<Term>, bound: seq<Value>, us: seq<Value>, depth: nat)
    requires |tags| == |bound| + |us| + 1
    ensures SApply(Abs(Closure(tags, bound)), AbsAll(us), depth)
         == Eval(tags[|tags| - 1], EnvOf(tags[..|tags| - 1], bound + us), depth)
  {
    var front := tags[..|tags| - 1];
    ConcatenationExtends(front, bound, us);
    assert front[..|bound|] == tags[..|bound|];
    assert front[|bound|..] == tags[|bound|..|tags| - 1];
  }

  /** An atom as the body is its own last tag, so it evaluates to itself. */
  lemma AtomBodyIsItself(tags: seq<Term>, args: seq<Value>, depth: nat)
    requires |tags| == |args| + 1 && tags[|args|].Atom?
    ensures Run(tags, args, depth) == Some(AtomV(tags[|args|].name))
  {
    assert ReverseFindIndex(tags, tags[|args|]) == Some(|args|);
  }

  lemma UnboundLooksUpNothing(tags: seq<Term>, args: seq<Value>, x: string)
    requires |tags| == |args| && x !in Names(tags)
    ensures ReverseFindIndex(tags, Atom(x)).None?
    ensures Lookup(EnvOf(tags, args), x).None?
  {
    LastIndexIsInnermostBinding(tags, args, x);
    forall t | t in tags && t.Atom?
      ensures t.name != x
    {
      assert t.name in Names(tags);
    }
  }

  /** Any other body evaluates as in the environment without the body's own tag. */
  lemma {:induction false} CompoundBodyAgrees(tags: seq<Term>, args: seq<Value>, depth: nat)
    requires |tags| == |args| + 1 && !tags[|args|].Atom?
    requires TameValues(args) && Tame(tags[|args|], Names(tags[..|args|]))
    ensures Agree(Run(tags, args, depth), Eval(tags[|args|], EnvOf(tags[..|args|], args), depth))
    ensures Run(tags, args, depth).Some? ==> TameValue(Run(tags, args, depth).value)
    decreases depth, 1, 0
  {
    var n := |args|;
    var body := tags[n];
    assert tags == tags[..n] + [body];
    BodyTagBindsNothing(tags[..n], args, body, Inject(body));
    NamesAppend(tags[..n], [body]);
    assert Names(tags) == Names(tags[..n]);
    TameShrinks(body, Names(tags[..n]), {});
    InjectTame(body);
    ImplAgrees(body, tags, args + [Inject(body)], depth);
  }

  /** Running a lambda whose body is not a bare placeholder is evaluating the body with the
      parameters bound on top of the remembered environment. */
  lemma {:induction false} RunAgrees(tags: seq<Term>, bound: seq<Value>, us: seq<Value>, depth: nat)
    requires TameValue(Closure(tags, bound)) && TameValues(us)
    ensures Agree(Run(tags, bound + us, depth), SApply(Abs(Closure(tags, bound)), AbsAll(us), depth))
    ensures var r := Run(tags, bound + us, depth); r.Some? ==> TameValue(r.value)
    decreases depth, 1, 1
  {
    var n := |tags| - 1;
    if n == |bound| + |us| {
      ApplyClosure(tags, bound, us, depth);
      if tags[n].Atom? {
        AtomBodyIsItself(tags, bound + us, depth);
        UnboundLooksUpNothing(tags[..n], bound + us, tags[n].name);
      } else {
        CompoundBodyAgrees(tags, bound + us, depth);
      }
    }
  }

  /** A lambda that comes in as an argument is a closure that remembers nothing. */
  lemma RawIsEmptyClosure(params: seq<Term>, body: Term, us: seq<Value>, depth: nat)
    requires Tame(Lambda(params, body), {})
    ensures TameValue(Closure(params + [body], []))
    ensures Invoke(Raw(Lambda(params, body)), us, depth) == Run(params + [body], [] + us, depth)
    ensures SApply(Abs(Raw(Lambda(params, body))), AbsAll(us), depth)
         == SApply(Abs(Closure(params + [body], [])), AbsAll(us), depth)
  {
    var tags := params + [body];
    assert [] + us == us;
    assert tags[..|tags| - 1] == params;
    assert {} + Names(params) == Names(params);
    assert tags[0..|tags| - 1] == params;
  }

  lemma {:induction false} InvokeAgrees(f: Value, us: seq<Value>, depth: nat)
    requires TameValue(f) && TameValues(us)
    ensures Agree(Invoke(f, us, depth), SApply(Abs(f), AbsAll(us), depth))
    ensures Invoke(f, us, depth).Some? ==> TameValue(Invoke(f, us, depth).value)
    decreases depth, 2
  {
    match f
    case Raw(Lambda(params, body)) =>
      RawIsEmptyClosure(params, body, us, depth);
      RunAgrees(params + [body], [], us, depth);
    case Closure(tags, args) =>
      RunAgrees(tags, args, us, depth);
    case _ =>
  }

  // ----- main results

  /** Invoking any tame value is textbook application: no bare body anywhere means that placeholders
      are lexically scoped, inner names shadow outer ones, and arguments are never evaluated again. */
  lemma LambdasAreLexicallyScoped(f: Value, us: seq<Value>, depth: nat)
    requires TameValue(f) && TameValues(us)
    ensures Agree(Invoke(f, us, depth), SApply(Abs(f), AbsAll(us), depth))
  {
    InvokeAgrees(f, us, depth);
  }

  /** The curried form: the outer call gives a closure, and calling that evaluates the inner body
      with both sets of arguments in scope. */
  lemma OuterThenInner(ps: seq<Term>, qs: seq<Term>, body: Term, us: seq<Value>, ws: seq<Value>, depth: nat)
    requires |ps| == |us| && |qs| == |ws| && TameValues(us) && TameValues(ws)
    requires Tame(Lambda(ps, Lambda(qs, body)), {})
    ensures var c := Invoke(Raw(Lambda(ps, Lambda(qs, body))), us, depth);
      && c.Some?
      && Agree(Invoke(c.value, ws, depth),
               Eval(body, Extend(Extend(Empty, ps, AbsAll(us)), qs, AbsAll(ws)), depth))
  {
    var outer := Raw(Lambda(ps, Lambda(qs, body)));
    RawIsEmptyClosure(ps, Lambda(qs, body), us, depth);
    InvokeAgrees(outer, us, depth);
    var c := Invoke(outer, us, depth);
    InvokeAgrees(c.value, ws, depth);
  }

  /** The body is a bare placeholder that stands for something other than itself. */
  predicate BareAndBound(tags: seq<Term>, args: seq<Value>) {
    && |tags| == |args| + 1
    && tags[|args|].Atom?
    && var i := ReverseFindIndex(tags[..|args|], tags[|args|]);
       i.Some? && args[i.value] != AtomV(tags[|args|].name)
  }

  /** Exactly when a call goes wrong, nested lambdas being tame: the body is a bare placeholder.  It
      is then its own last tag, so the call returns the placeholder instead of the argument. */
  lemma ScopedUnlessBodyIsBare(tags: seq<Term>, bound: seq<Value>, us: seq<Value>, depth: nat)
    requires |bound| < |tags| && TameValues(bound) && TameValues(us)
    requires Tame(tags[|tags| - 1], Names(tags[..|tags| - 1]))
    ensures Agree(Invoke(Closure(tags, bound), us, depth), SApply(Abs(Closure(tags, bound)), AbsAll(us), depth))
            <==> !BareAndBound(tags, bound + us)
    ensures BareAndBound(tags, bound + us) ==>
              Invoke(Closure(tags, bound), us, depth) == Some(AtomV(tags[|tags| - 1].name))
  {
    var n := |tags| - 1;
    var args := bound + us;
    if n == |args| {
      ApplyClosure(tags, bound, us, depth);
      if !tags[n].Atom? {
        CompoundBodyAgrees(tags, args, depth);
      } else {
        var x := tags[n].name;
        AtomBodyIsItself(tags, args, depth);
        LastIndexIsInnermostBinding(tags[..n], args, x);
        AtomsReadAsThemselves(args, x);
      }
    }
  }

  lemma AtomsReadAsThemselves(args: seq<Value>, x: string)
    requires TameValues(args)
    ensures forall i :: 0 <= i < |args| ==> (Abs(args[i]) == SAtom(x) <==> args[i] == AtomV(x))
  {
  }

  /** The smallest instance: lambda<_a, _a> is not the identity. */
  lemma IdentityLambdaReturnsItsPlaceholder(v: Value, depth: nat)
    ensures Invoke(Raw(Lambda([Atom("_a")], Atom("_a"))), [v], depth) == Some(AtomV("_a"))
  {
    var tags := [Atom("_a")] + [Atom("_a")];
    AtomBodyIsItself(tags, [v], depth);
  }
}
