/**
  The dependency-injection container: a recursive, memoising evaluator of a table of provider
  functions (server/container.go), and the factory calls made on top of it (server/builder.go).
  Reflection is reduced to what the container uses of it: types that can be compared, values that
  know their type, and functions with a list of parameter types and a result type.
 */
module Container {
  import opened Wrappers

  /** A reflect.Type: only its identity matters here. */
  type Ty(==,!new)

  /** A reflect.Value: its type, and which instance it is. */
  datatype Value = Value(typ: Ty, id: nat)

  /**
    A Go function as reflection shows it. For a variadic function the last parameter type is the
    slice type and `variadic` holds the element type. The body also sees the number of calls made
    before it in the run, so a body that is not deterministic is some function of this form.
   */
  datatype Func = Func(params: seq<Ty>, variadic: Option<Ty>, out: Ty, body: (seq<Value>, nat) -> Value)

  datatype Callee = ProviderOf(t: Ty) | Factory

  /** One call of a user-supplied function. */
  datatype Call = Call(callee: Callee, fn: Func, args: seq<Value>, result: Value)

  /** `Overflow` is the stack overflow that Go answers to an endless recursion. */
  datatype Outcome<+A> = Found(value: A) | Missing(t: Ty) | Overflow {
    function Failed<B>(): (r: Outcome<B>)
      requires !Found?
      ensures !r.Found?
      ensures Missing? ==> r == Missing(t)
      ensures Overflow? ==> r == Overflow
    {
      if Missing? then Missing(t) else Overflow
    }

    predicate SameShape<B>(other: Outcome<B>) {
      && (Found? <==> other.Found?)
      && (Overflow? <==> other.Overflow?)
      && (Missing? ==> other == Missing(t))
    }
  }

  /** What a container has memoised, the calls it made, and how often `resolve` was entered. */
  datatype State = State(singletons: map<Ty, Value>, calls: seq<Call>, entries: nat)

  function Initial(base: map<Ty, Value>): State {
    State(base, [], 0)
  }

  /** `resolve` with room for `stack` nested provider expansions. */
  function Resolved(ps: map<Ty, Func>, stack: nat, t: Ty, s: State): (Outcome<Value>, State)
    decreases stack, 0
  {
    var s0 := s.(entries := s.entries + 1);
    if t in s.singletons then (Found(s.singletons[t]), s0)
    else if t in ps then
      if stack == 0 then (Overflow, s0)
      else
        var (o, s1) := ResolvedAll(ps, stack - 1, ps[t].params, s0);
        if o.Found? then
          var v := ps[t].body(o.value, |s1.calls|);
          (Found(v), State(s1.singletons[t := v], s1.calls + [Call(ProviderOf(t), ps[t], o.value, v)], s1.entries))
        else (o.Failed(), s1)
    else (Missing(t), s0)
  }

  /** The argument loop: left to right, ending at the first failure. */
  function ResolvedAll(ps: map<Ty, Func>, stack: nat, ts: seq<Ty>, s: State): (r: (Outcome<seq<Value>>, State))
    ensures r.0.Found? ==> |r.0.value| == |ts|
    decreases stack, |ts|
  {
    if ts == [] then (Found([]), s)
    else
      var (o, s1) := Resolved(ps, stack, ts[0], s);
      if o.Found? then
        var (rest, s2) := ResolvedAll(ps, stack, ts[1..], s1);
        (if rest.Found? then Found([o.value] + rest.value) else rest, s2)
      else (o.Failed(), s1)
  }

  /** `invokeFactory`: resolve the parameters, then call. The result is not memoised. */
  function Invoked(ps: map<Ty, Func>, stack: nat, f: Func, s: State): (Outcome<Value>, State) {
    var (o, s1) := ResolvedAll(ps, stack, f.params, s);
    if o.Found? then
      var v := f.body(o.value, |s1.calls|);
      (Found(v), s1.(calls := s1.calls + [Call(Factory, f, o.value, v)]))
    else (o.Failed(), s1)
  }

  /** The registration loops of `Build`: one factory after the other, ending at the first failure. */
  function InvokedMany(ps: map<Ty, Func>, stack: nat, fs: seq<Func>, s: State): (r: (Outcome<seq<Value>>, State))
    ensures r.0.Found? ==> |r.0.value| == |fs|
  {
    if fs == [] then (Found([]), s)
    else
      var (o, s1) := Invoked(ps, stack, fs[0], s);
      if o.Found? then
        var (rest, s2) := InvokedMany(ps, stack, fs[1..], s1);
        (if rest.Found? then Found([o.value] + rest.value) else rest, s2)
      else (o.Failed(), s1)
  }

  /** A Go map is shared by reference: the builder and its container use the same two maps. */
  class Table<V> {
    var m: map<Ty, V>

    constructor ()
      ensures m == map[]
    {
      m := map[];
    }
  }

  class Injector {
    const singletons: Table<Value>
    const providers: Table<Func>
    // What happened so far; `calls` also stands for everything outside that a body may depend on.
    var calls: seq<Call>
    var entries: nat

    constructor (singletons: Table<Value>, providers: Table<Func>)
      ensures this.singletons == singletons && this.providers == providers
      ensures calls == [] && entries == 0
    {
      this.singletons, this.providers := singletons, providers;
      calls, entries := [], 0;
    }

    ghost function Abs(): State
      reads this, singletons
    {
      State(singletons.m, calls, entries)
    }

    method Resolve(t: Ty, stack: nat) returns (r: Outcome<Value>)
      modifies this, singletons
      ensures (r, Abs()) == Resolved(providers.m, stack, t, old(Abs()))
      ensures providers.m == old(providers.m)
      decreases stack
    {
      entries := entries + 1;
      if t in singletons.m {
        return Found(singletons.m[t]);
      }
      if t in providers.m {
        if stack == 0 {
          return Overflow;
        }
        var p := providers.m[t];
        ghost var s0 := Abs();
        var args: seq<Value> := [];
        assert p.params[0..] == p.params && forall xs: seq<Value> :: args + xs == xs;
        for i := 0 to |p.params|
          invariant |args| == i
          invariant providers.m == old(providers.m)
          invariant ResolvedAll(providers.m, stack - 1, p.params, s0)
                 == Prepend(args, ResolvedAll(providers.m, stack - 1, p.params[i..], Abs()))
        {
          var v := Resolve(p.params[i], stack - 1);
          assert p.params[i..][1..] == p.params[i + 1..];
          if !v.Found? {
            return v;
          }
          assert forall xs: seq<Value> :: args + ([v.value] + xs) == (args + [v.value]) + xs;
          args := args + [v.value];
        }
        var v := p.body(args, |calls|);
        assert args + [] == args;
        calls := calls + [Call(ProviderOf(t), p, args, v)];
        singletons.m := singletons.m[t := v];
        return Found(v);
      }
      return Missing(t);
    }

    method InvokeFactory(f: Func, stack: nat) returns (r: Outcome<Value>)
      modifies this, singletons
      ensures (r, Abs()) == Invoked(providers.m, stack, f, old(Abs()))
      ensures providers.m == old(providers.m)
    {
      ghost var s0 := Abs();
      var args: seq<Value> := [];
      assert f.params[0..] == f.params && forall xs: seq<Value> :: args + xs == xs;
      for i := 0 to |f.params|
        invariant |args| == i
        invariant providers.m == old(providers.m)
        invariant ResolvedAll(providers.m, stack, f.params, s0)
               == Prepend(args, ResolvedAll(providers.m, stack, f.params[i..], Abs()))
      {
        var v := Resolve(f.params[i], stack);
        assert f.params[i..][1..] == f.params[i + 1..];
        if !v.Found? {
          return v;
        }
        assert forall xs: seq<Value> :: args + ([v.value] + xs) == (args + [v.value]) + xs;
        args := args + [v.value];
      }
      assert args + [] == args;
      var v := f.body(args, |calls|);
      calls := calls + [Call(Factory, f, args, v)];
      return Found(v);
    }
  }

  /** The result of a loop that already holds `done` and ends like `r`. */
  ghost function Prepend<S>(done: seq<Value>, r: (Outcome<seq<Value>>, S)): (Outcome<seq<Value>>, S) {
    (if r.0.Found? then Found(done + r.0.value) else r.0, r.1)
  }
}
