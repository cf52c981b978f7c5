/**
  The memoising container refines plain evaluation: for deterministic providers nobody can tell from
  the values that come out that earlier resolutions left something in the singleton table.
 */
module Memoisation {
  import opened Wrappers
  import opened Container
  import opened DependencyGraph

  ghost predicate Deterministic(ps: map<Ty, Func>) {
    forall t, args, m, n :: t in ps ==> ps[t].body(args, m) == ps[t].body(args, n)
  }

  /** `o` is the answer of plain evaluation, given enough stack. */
  ghost predicate Settles(ps: map<Ty, Func>, base: map<Ty, Value>, t: Ty, o: Outcome<Value>) {
    o != Overflow && exists n: nat :: Eval(ps, base, n, t) == o
  }

  ghost predicate SettlesAll(ps: map<Ty, Func>, base: map<Ty, Value>, ts: seq<Ty>, o: Outcome<seq<Value>>) {
    o != Overflow && exists n: nat :: EvalAll(ps, base, n, ts) == o
  }

  /** Supplied singletons are untouched, and every memoised value is the one evaluation gives. */
  ghost predicate Consistent(ps: map<Ty, Func>, base: map<Ty, Value>, s: State) {
    && (forall t :: t in base ==> t in s.singletons && s.singletons[t] == base[t])
    && (forall t :: t in s.singletons && t !in base ==> Settles(ps, base, t, Found(s.singletons[t])))
  }

  lemma {:induction false} SettlesOnce(ps: map<Ty, Func>, base: map<Ty, Value>, t: Ty, o: Outcome<Value>, n: nat)
    requires Settles(ps, base, t, o) && Eval(ps, base, n, t) != Overflow
    ensures Eval(ps, base, n, t) == o
  {
    var m: nat :| Eval(ps, base, m, t) == o;
    if m <= n {
      EvalGrows(ps, base, m, n, t);
    } else {
      EvalGrows(ps, base, n, m, t);
    }
  }

  lemma {:induction false} SettlesAllOnce(ps: map<Ty, Func>, base: map<Ty, Value>, ts: seq<Ty>, o: Outcome<seq<Value>>,
                                          n: nat)
    requires SettlesAll(ps, base, ts, o) && EvalAll(ps, base, n, ts) != Overflow
    ensures EvalAll(ps, base, n, ts) == o
  {
    var m: nat :| EvalAll(ps, base, m, ts) == o;
    if m <= n {
      EvalAllGrows(ps, base, m, n, ts);
    } else {
      EvalAllGrows(ps, base, n, m, ts);
    }
  }

  /** One step of the argument loop, for the answers that evaluation settles on. */
  lemma {:induction false} SettlesCons(ps: map<Ty, Func>, base: map<Ty, Value>, ts: seq<Ty>, v: Value,
                                       rest: Outcome<seq<Value>>)
    requires ts != [] && Settles(ps, base, ts[0], Found(v)) && SettlesAll(ps, base, ts[1..], rest)
    ensures SettlesAll(ps, base, ts, if rest.Found? then Found([v] + rest.value) else rest)
  {
    var m: nat :| Eval(ps, base, m, ts[0]) == Found(v);
    var n: nat :| EvalAll(ps, base, n, ts[1..]) == rest;
    var k := if m <= n then n else m;
    EvalGrows(ps, base, m, k, ts[0]);
    EvalAllGrows(ps, base, n, k, ts[1..]);
    assert EvalAll(ps, base, k, ts) == if rest.Found? then Found([v] + rest.value) else rest;
  }

  /** One provider call, for the answers that evaluation settles on. */
  lemma {:induction false} SettlesCall(ps: map<Ty, Func>, base: map<Ty, Value>, t: Ty, args: Outcome<seq<Value>>)
    requires t !in base && t in ps && SettlesAll(ps, base, ps[t].params, args)
    ensures Settles(ps, base, t, if args.Found? then Found(ps[t].body(args.value, 0)) else args.Failed())
  {
    hide EvalAll;
    var m: nat :| EvalAll(ps, base, m, ps[t].params) == args;
    assert Eval(ps, base, m + 1, t) == if args.Found? then Found(ps[t].body(args.value, 0)) else args.Failed();
  }

  lemma {:induction false} ResolvedAgrees(ps: map<Ty, Func>, base: map<Ty, Value>, n: nat, t: Ty, s: State)
    requires Deterministic(ps) && Consistent(ps, base, s)
    ensures var (o, s') := Resolved(ps, n, t, s);
      && Consistent(ps, base, s')
      && (o != Overflow ==> Settles(ps, base, t, o))
      && (Eval(ps, base, n, t) != Overflow ==> o == Eval(ps, base, n, t))
    decreases n, 0
  {
    var (o, s') := Resolved(ps, n, t, s);
    if t in s.singletons {
      assert t in base ==> Eval(ps, base, 0, t) == o;
    } else if t in ps && n > 0 {
      ResolvedAllAgrees(ps, base, n - 1, ps[t].params, s.(entries := s.entries + 1));
      var (args, s1) := ResolvedAll(ps, n - 1, ps[t].params, s.(entries := s.entries + 1));
      if args != Overflow {
        SettlesCall(ps, base, t, args);
      }
    } else if t !in ps {
      assert Eval(ps, base, 0, t) == o;
    }
    if o != Overflow && Eval(ps, base, n, t) != Overflow {
      SettlesOnce(ps, base, t, o, n);
    }
  }

  lemma {:induction false} ResolvedAllAgrees(ps: map<Ty, Func>, base: map<Ty, Value>, n: nat, ts: seq<Ty>, s: State)
    requires Deterministic(ps) && Consistent(ps, base, s)
    ensures var (o, s') := ResolvedAll(ps, n, ts, s);
      && Consistent(ps, base, s')
      && (o != Overflow ==> SettlesAll(ps, base, ts, o))
      && (EvalAll(ps, base, n, ts) != Overflow ==> o == EvalAll(ps, base, n, ts))
    decreases n, |ts|
  {
    var (o, s') := ResolvedAll(ps, n, ts, s);
    if ts == [] {
      assert EvalAll(ps, base, 0, ts) == o;
    } else {
      ResolvedAgrees(ps, base, n, ts[0], s);
      var (head, s1) := Resolved(ps, n, ts[0], s);
      if head.Found? {
        ResolvedAllAgrees(ps, base, n, ts[1..], s1);
        if o != Overflow {
          SettlesCons(ps, base, ts, head.value, ResolvedAll(ps, n, ts[1..], s1).0);
        }
      } else if head != Overflow {
        var m: nat :| Eval(ps, base, m, ts[0]) == head;
        assert EvalAll(ps, base, m, ts) == o;
      }
    }
    if o != Overflow && EvalAll(ps, base, n, ts) != Overflow {
      SettlesAllOnce(ps, base, ts, o, n);
    }
  }

  // ---------- any number of resolutions over one container ----------

  datatype Request = Request(t: Ty, stack: nat)

  function ResolvedInTurn(ps: map<Ty, Func>, rs: seq<Request>, s: State): (r: (seq<Outcome<Value>>, State))
    ensures |r.0| == |rs|
  {
    if rs == [] then ([], s)
    else
      var (o, s1) := Resolved(ps, rs[0].stack, rs[0].t, s);
      var (os, s2) := ResolvedInTurn(ps, rs[1..], s1);
      ([o] + os, s2)
  }

  /**
    Whatever was resolved before, and whether it failed or not, a resolution answers what plain
    evaluation over the starting tables answers; on acyclic tables without any proviso.
   */
  lemma {:induction false} MemoisationIsInvisible(ps: map<Ty, Func>, base: map<Ty, Value>, rs: seq<Request>, s: State)
    requires Deterministic(ps) && Consistent(ps, base, s)
    ensures var os := ResolvedInTurn(ps, rs, s).0;
      forall i :: 0 <= i < |rs| ==>
        && (os[i] != Overflow ==> Settles(ps, base, rs[i].t, os[i]))
        && (Eval(ps, base, rs[i].stack, rs[i].t) != Overflow ==> os[i] == Eval(ps, base, rs[i].stack, rs[i].t))
        && (AcyclicFrom(ps, base, rs[i].t) && rs[i].stack >= |ps| ==> os[i] == Eval(ps, base, |ps|, rs[i].t))
    ensures Consistent(ps, base, ResolvedInTurn(ps, rs, s).1)
  {
    if rs != [] {
      var r := rs[0];
      var (o, s1) := Resolved(ps, r.stack, r.t, s);
      ResolvedAgrees(ps, base, r.stack, r.t, s);
      if AcyclicFrom(ps, base, r.t) && r.stack >= |ps| {
        AcyclicNeverOverflows(ps, base, |ps|, r.t);
        EvalGrows(ps, base, |ps|, r.stack, r.t);
      }
      MemoisationIsInvisible(ps, base, rs[1..], s1);
      forall i | 1 <= i < |rs| ensures rs[i] == rs[1..][i - 1]
        && ResolvedInTurn(ps, rs, s).0[i] == ResolvedInTurn(ps, rs[1..], s1).0[i - 1] {}
    }
  }

  // ---------- which arguments the calls get ----------

  /** The call got the arguments that plain evaluation settles on. */
  ghost predicate GotSettled(ps: map<Ty, Func>, base: map<Ty, Value>, c: Call) {
    SettlesAll(ps, base, c.fn.params, Found(c.args))
  }

  ghost predicate AllGotSettled(ps: map<Ty, Func>, base: map<Ty, Value>, calls: seq<Call>) {
    forall i :: 0 <= i < |calls| ==> GotSettled(ps, base, calls[i])
  }

  /** Every call that a resolution makes, even a failing one, gets what plain evaluation gives. */
  lemma {:induction false} ResolvedCalls(ps: map<Ty, Func>, base: map<Ty, Value>, n: nat, t: Ty, s: State)
    requires Deterministic(ps) && Consistent(ps, base, s) && AllGotSettled(ps, base, s.calls)
    ensures var s' := Resolved(ps, n, t, s).1;
      AllGotSettled(ps, base, s'.calls) && s.calls <= s'.calls
    decreases n, 0
  {
    hide Deterministic, Consistent, SettlesAll;
    if t !in s.singletons && t in ps && n > 0 {
      var s0 := s.(entries := s.entries + 1);
      ConsistentSame(ps, base, s, s0);
      ResolvedAllCalls(ps, base, n - 1, ps[t].params, s0);
      ResolvedAllAgrees(ps, base, n - 1, ps[t].params, s0);
    }
  }

  lemma {:induction false} ResolvedAllCalls(ps: map<Ty, Func>, base: map<Ty, Value>, n: nat, ts: seq<Ty>, s: State)
    requires Deterministic(ps) && Consistent(ps, base, s) && AllGotSettled(ps, base, s.calls)
    ensures var s' := ResolvedAll(ps, n, ts, s).1;
      AllGotSettled(ps, base, s'.calls) && s.calls <= s'.calls
    decreases n, |ts|
  {
    hide Deterministic, Consistent, AllGotSettled;
    if ts != [] {
      ResolvedCalls(ps, base, n, ts[0], s);
      ResolvedAgrees(ps, base, n, ts[0], s);
      var (o, s1) := Resolved(ps, n, ts[0], s);
      if o.Found? {
        ResolvedAllCalls(ps, base, n, ts[1..], s1);
      }
    }
  }

  lemma {:induction false} ConsistentSame(ps: map<Ty, Func>, base: map<Ty, Value>, s: State, s': State)
    requires Consistent(ps, base, s) && s'.singletons == s.singletons
    ensures Consistent(ps, base, s')
  {
  }

  // ---------- what the factories of a Build receive ----------

  /** `v` came out of a logged call of `f` with the arguments that plain evaluation settles on. */
  ghost predicate MadeFrom(ps: map<Ty, Func>, base: map<Ty, Value>, calls: seq<Call>, f: Func, args: seq<Value>,
                           v: Value) {
    && Call(Factory, f, args, v) in calls
    && SettlesAll(ps, base, f.params, Found(args))
    && exists tick: nat :: v == f.body(args, tick)
  }

  ghost predicate Made(ps: map<Ty, Func>, base: map<Ty, Value>, calls: seq<Call>, f: Func, v: Value) {
    exists args :: MadeFrom(ps, base, calls, f, args, v)
  }

  ghost predicate AllMade(ps: map<Ty, Func>, base: map<Ty, Value>, calls: seq<Call>, fs: seq<Func>, vs: seq<Value>) {
    |fs| == |vs| && forall i :: 0 <= i < |fs| ==> Made(ps, base, calls, fs[i], vs[i])
  }

  ghost predicate SomeMisses(ps: map<Ty, Func>, base: map<Ty, Value>, fs: seq<Func>, t: Ty) {
    exists i :: 0 <= i < |fs| && SettlesAll(ps, base, fs[i].params, Missing(t))
  }

  lemma {:induction false} FactoryReceives(ps: map<Ty, Func>, base: map<Ty, Value>, n: nat, f: Func, s: State)
    requires Deterministic(ps) && Consistent(ps, base, s) && AllGotSettled(ps, base, s.calls)
    ensures var (o, s') := Invoked(ps, n, f, s);
      && Consistent(ps, base, s') && AllGotSettled(ps, base, s'.calls) && s.calls <= s'.calls
      && (o.Found? ==> Made(ps, base, s'.calls, f, o.value))
      && (o.Missing? ==> SettlesAll(ps, base, f.params, Missing(o.t)))
  {
    hide Deterministic, SettlesAll;
    ResolvedAllCalls(ps, base, n, f.params, s);
    ResolvedAllAgrees(ps, base, n, f.params, s);
    var (args, s1) := ResolvedAll(ps, n, f.params, s);
    if args.Found? {
      var (o, s') := Invoked(ps, n, f, s);
      assert s'.calls[|s1.calls|] == Call(Factory, f, args.value, o.value);
      assert MadeFrom(ps, base, s'.calls, f, args.value, o.value);
    }
  }

  /** What was made stays made when the log grows. */
  lemma {:induction false} MadeStays(ps: map<Ty, Func>, base: map<Ty, Value>, calls: seq<Call>, more: seq<Call>,
                                     f: Func, v: Value)
    requires Made(ps, base, calls, f, v) && calls <= more
    ensures Made(ps, base, more, f, v)
  {
    var args :| MadeFrom(ps, base, calls, f, args, v);
    assert MadeFrom(ps, base, more, f, args, v);
  }

  lemma {:induction false} AllMadeStays(ps: map<Ty, Func>, base: map<Ty, Value>, calls: seq<Call>, more: seq<Call>,
                                        fs: seq<Func>, vs: seq<Value>)
    requires AllMade(ps, base, calls, fs, vs) && calls <= more
    ensures AllMade(ps, base, more, fs, vs)
  {
    forall i | 0 <= i < |fs| ensures Made(ps, base, more, fs[i], vs[i]) {
      MadeStays(ps, base, calls, more, fs[i], vs[i]);
    }
  }

  /**
    A run of factories, successful or not: every call in the log got what plain evaluation gives; on
    success each factory was called so, in order, and on failure some factory misses the named type.
   */
  lemma {:induction false} FactoriesReceive(ps: map<Ty, Func>, base: map<Ty, Value>, n: nat, fs: seq<Func>, s: State)
    requires Deterministic(ps) && Consistent(ps, base, s) && AllGotSettled(ps, base, s.calls)
    ensures var (o, s') := InvokedMany(ps, n, fs, s);
      && Consistent(ps, base, s') && AllGotSettled(ps, base, s'.calls) && s.calls <= s'.calls
      && (o.Found? ==> AllMade(ps, base, s'.calls, fs, o.value))
      && (o.Missing? ==> SomeMisses(ps, base, fs, o.t))
  {
    hide Deterministic, Consistent, AllGotSettled, Made, SettlesAll;
    if fs != [] {
      var f, rest := fs[0], fs[1..];
      var (head, s1) := Invoked(ps, n, f, s);
      FactoryReceives(ps, base, n, f, s);
      if head.Found? {
        FactoriesReceive(ps, base, n, rest, s1);
        var (os, s2) := InvokedMany(ps, n, rest, s1);
        if os.Found? {
          MadeStays(ps, base, s1.calls, s2.calls, f, head.value);
          AllMadeCons(ps, base, s2.calls, fs, head.value, os.value);
        } else if os.Missing? {
          var i :| 0 <= i < |rest| && SettlesAll(ps, base, rest[i].params, Missing(os.t));
          assert SettlesAll(ps, base, fs[i + 1].params, Missing(os.t));
        }
      } else if head.Missing? {
        assert SettlesAll(ps, base, fs[0].params, Missing(head.t));
      }
    }
  }

  lemma {:induction false} AllMadeCons(ps: map<Ty, Func>, base: map<Ty, Value>, calls: seq<Call>, fs: seq<Func>,
                                       v: Value, vs: seq<Value>)
    requires fs != [] && Made(ps, base, calls, fs[0], v) && AllMade(ps, base, calls, fs[1..], vs)
    ensures AllMade(ps, base, calls, fs, [v] + vs)
  {
    hide Made;
    forall i | 0 <= i < |fs| ensures Made(ps, base, calls, fs[i], ([v] + vs)[i]) {
      assert i == 0 || Made(ps, base, calls, fs[1..][i - 1], vs[i - 1]);
    }
  }

  /**
    Registration order does not matter: in any two runs over the same starting tables, with whatever
    factories in whatever order, successful or not, two calls of functions with the same parameter types
    get the same arguments.
   */
  lemma {:induction false} RegistrationOrderIrrelevant(ps: map<Ty, Func>, base: map<Ty, Value>, n: nat, fs: seq<Func>,
                                                       s: State, c: Call, l: nat, gs: seq<Func>, u: State, d: Call)
    requires Deterministic(ps) && Consistent(ps, base, s) && Consistent(ps, base, u)
    requires AllGotSettled(ps, base, s.calls) && AllGotSettled(ps, base, u.calls)
    requires c in InvokedMany(ps, n, fs, s).1.calls && d in InvokedMany(ps, l, gs, u).1.calls
    requires c.fn.params == d.fn.params
    ensures c.args == d.args
  {
    FactoriesReceive(ps, base, n, fs, s);
    FactoriesReceive(ps, base, l, gs, u);
    var i :| 0 <= i < |InvokedMany(ps, n, fs, s).1.calls| && InvokedMany(ps, n, fs, s).1.calls[i] == c;
    var j :| 0 <= j < |InvokedMany(ps, l, gs, u).1.calls| && InvokedMany(ps, l, gs, u).1.calls[j] == d;
    assert GotSettled(ps, base, c) && GotSettled(ps, base, d);
    var m: nat :| EvalAll(ps, base, m, c.fn.params) == Found(c.args);
    SettlesAllOnce(ps, base, d.fn.params, Found(d.args), m);
  }

  // ---------- success of the memoising container, providers of any kind ----------

  /** The same table with every body fixed to what it does as the first call. */
  ghost function Frozen(ps: map<Ty, Func>): (qs: map<Ty, Func>)
    ensures Deterministic(qs)
  {
    map t | t in ps :: ps[t].(body := (args, n) => ps[t].body(args, 0))
  }

  lemma {:induction false} EvalFrozen(ps: map<Ty, Func>, base: map<Ty, Value>, n: nat, t: Ty)
    ensures Eval(Frozen(ps), base, n, t) == Eval(ps, base, n, t)
    decreases n, 0
  {
    if t !in base && t in ps && n > 0 {
      EvalAllFrozen(ps, base, n - 1, ps[t].params);
    }
  }

  lemma {:induction false} EvalAllFrozen(ps: map<Ty, Func>, base: map<Ty, Value>, n: nat, ts: seq<Ty>)
    ensures EvalAll(Frozen(ps), base, n, ts) == EvalAll(ps, base, n, ts)
    decreases n, |ts|
  {
    if ts != [] {
      EvalFrozen(ps, base, n, ts[0]);
      EvalAllFrozen(ps, base, n, ts[1..]);
    }
  }

  /** Which values the bodies return has no influence on what is found, missed or memoised. */
  lemma {:induction false} ShapeFrozen(ps: map<Ty, Func>, n: nat, t: Ty, s: State, u: State)
    requires s.singletons.Keys == u.singletons.Keys
    ensures var ((o, s'), (p, u')) := (Resolved(ps, n, t, s), Resolved(Frozen(ps), n, t, u));
      o.SameShape(p) && s'.singletons.Keys == u'.singletons.Keys
    decreases n, 0
  {
    if t !in s.singletons && t in ps && n > 0 {
      ShapeAllFrozen(ps, n - 1, ps[t].params, s.(entries := s.entries + 1), u.(entries := u.entries + 1));
    }
  }

  lemma {:induction false} ShapeAllFrozen(ps: map<Ty, Func>, n: nat, ts: seq<Ty>, s: State, u: State)
    requires s.singletons.Keys == u.singletons.Keys
    ensures var ((o, s'), (p, u')) := (ResolvedAll(ps, n, ts, s), ResolvedAll(Frozen(ps), n, ts, u));
      o.SameShape(p) && s'.singletons.Keys == u'.singletons.Keys
    decreases n, |ts|
  {
    if ts != [] {
      ShapeFrozen(ps, n, ts[0], s, u);
      var ((o, s'), (p, u')) := (Resolved(ps, n, ts[0], s), Resolved(Frozen(ps), n, ts[0], u));
      if o.Found? {
        ShapeAllFrozen(ps, n, ts[1..], s', u');
      }
    }
  }

  /**
    A container in any state resolves `t`, given enough stack, exactly when the dependency graph below
    `t`, cut at what is in the singleton table, has no cyclic path and nothing unprovided.
   */
  lemma {:induction false} ResolveSucceedsIff(ps: map<Ty, Func>, s: State, t: Ty)
    ensures (exists n: nat :: Resolved(ps, n, t, s).0.Found?)
       <==> AcyclicFrom(ps, s.singletons, t) && AllProvidedFrom(ps, s.singletons, t)
  {
    SucceedsIff(ps, s.singletons, t);
    if n: nat :| Eval(ps, s.singletons, n, t).Found? {
      ShapeOfResolve(ps, n, t, s);
      assert Resolved(ps, n, t, s).0.Found?;
    }
    if n: nat :| Resolved(ps, n, t, s).0.Found? {
      ShapeOfResolve(ps, n, t, s);
    }
  }

  lemma {:induction false} ShapeOfResolve(ps: map<Ty, Func>, n: nat, t: Ty, s: State)
    ensures var (o, e) := (Resolved(ps, n, t, s).0, Eval(ps, s.singletons, n, t));
      && (e != Overflow ==> o.SameShape(e))
      && (o.Found? ==> exists m: nat :: Eval(ps, s.singletons, m, t).Found?)
  {
    var base := s.singletons;
    EvalFrozen(ps, base, n, t);
    ShapeFrozen(ps, n, t, s, s);
    ResolvedAgrees(Frozen(ps), base, n, t, s);
    var o := Resolved(Frozen(ps), n, t, s).0;
    if o.Found? {
      var m: nat :| Eval(Frozen(ps), base, m, t) == o;
      EvalFrozen(ps, base, m, t);
    }
  }

  /**
    Without a cycle below `t`, a failing resolution names the first unprovided type in left-to-right
    depth-first order.
   */
  lemma {:induction false} ResolveNamesFirstUnprovided(ps: map<Ty, Func>, n: nat, t: Ty, s: State)
    requires AcyclicFrom(ps, s.singletons, t) && n >= |ps|
    ensures var o, vs := Resolved(ps, n, t, s).0, Preorder(ps, s.singletons, n, t);
      && (o.Found? <==> AllProvided(ps, s.singletons, vs))
      && (!o.Found? ==> o.Missing? && (exists i :: FirstUnprovided(ps, s.singletons, vs, i) && vs[i].t == o.t))
  {
    AcyclicNeverOverflows(ps, s.singletons, n, t);
    ShapeOfResolve(ps, n, t, s);
    FailureNamesFirstUnprovided(ps, s.singletons, n, t);
  }
}
