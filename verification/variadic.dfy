/**
  The container passes one argument per parameter type. For a variadic function reflection reads the
  last one as an element of the slice, so such a call may be rejected: when that happens in a Build.
 */
module Variadic {
  import opened Wrappers
  import opened Container
  import opened DependencyGraph
  import opened CallLog
  import opened Wiring
  import opened Typing

  // ---------- which functions are called ----------

  /** The call is one of a registered provider, or of a factory in `fs`. */
  ghost predicate Known(ps: map<Ty, Func>, fs: seq<Func>, c: Call) {
    match c.callee
    case ProviderOf(t) => t in ps && c.fn == ps[t]
    case Factory => c.fn in fs
  }

  ghost predicate AllKnown(ps: map<Ty, Func>, fs: seq<Func>, calls: seq<Call>) {
    forall i :: 0 <= i < |calls| ==> Known(ps, fs, calls[i])
  }

  lemma {:induction false} ResolvedKnown(ps: map<Ty, Func>, all: seq<Func>, n: nat, t: Ty, s: State)
    requires AllKnown(ps, all, s.calls)
    ensures AllKnown(ps, all, Resolved(ps, n, t, s).1.calls)
    decreases n, 0
  {
    if t !in s.singletons && t in ps && n > 0 {
      ResolvedAllKnown(ps, all, n - 1, ps[t].params, s.(entries := s.entries + 1));
    }
  }

  lemma {:induction false} ResolvedAllKnown(ps: map<Ty, Func>, all: seq<Func>, n: nat, ts: seq<Ty>, s: State)
    requires AllKnown(ps, all, s.calls)
    ensures AllKnown(ps, all, ResolvedAll(ps, n, ts, s).1.calls)
    decreases n, |ts|
  {
    hide AllKnown;
    if ts != [] {
      ResolvedKnown(ps, all, n, ts[0], s);
      var (o, s1) := Resolved(ps, n, ts[0], s);
      if o.Found? {
        ResolvedAllKnown(ps, all, n, ts[1..], s1);
      }
    }
  }

  lemma {:induction false} InvokedManyKnown(ps: map<Ty, Func>, all: seq<Func>, n: nat, fs: seq<Func>, s: State)
    requires AllKnown(ps, all, s.calls) && forall f :: f in fs ==> f in all
    ensures AllKnown(ps, all, InvokedMany(ps, n, fs, s).1.calls)
  {
    if fs != [] {
      ResolvedAllKnown(ps, all, n, fs[0].params, s);
      InvokedManyKnown(ps, all, n, fs[1..], Invoked(ps, n, fs[0], s).1);
    }
  }

  /** A Build calls nothing but registered providers and planned factories. */
  lemma {:induction false} BuildCallsKnown(ps: map<Ty, Func>, stack: nat, plan: Plan, outside: Outside,
                                           base: map<Ty, Value>)
    ensures AllKnown(ps, PlannedFactories(plan), BuildOutcome(ps, stack, plan, outside, Initial(base)).1.calls)
  {
    var s, all := Initial(base), PlannedFactories(plan);
    var s1 := InvokedMany(ps, stack, plan.services, s).1;
    var s2 := InvokedMany(ps, stack, plan.controllers, s1).1;
    InvokedManyKnown(ps, all, stack, plan.services, s);
    InvokedManyKnown(ps, all, stack, plan.controllers, s1);
    InvokedManyKnown(ps, all, stack, plan.activities, s2);
  }

  ghost predicate AllAccepted(asg: (Ty, Ty) -> bool, calls: seq<Call>) {
    forall i :: 0 <= i < |calls| ==> Accepted(asg, calls[i])
  }

  /** Without variadic functions, reflection accepts every call of every Build over typed tables. */
  lemma {:induction false} WithoutVariadicsAccepted(asg: (Ty, Ty) -> bool, tables: Tables, stack: nat, plan: Plan,
                                                    outside: Outside)
    requires TypedTables(asg, tables)
    requires forall t :: t in tables.providers ==> tables.providers[t].variadic.None?
    requires forall f :: f in PlannedFactories(plan) ==> f.variadic.None?
    ensures AllAccepted(asg, BuildOutcome(tables.providers, stack, plan, outside, Initial(tables.singletons)).1.calls)
  {
    hide BuildOutcome, PlannedFactories;
    BuildIsTyped(asg, tables, stack, plan, outside);
    BuildCallsKnown(tables.providers, stack, plan, outside, tables.singletons);
    var calls := BuildOutcome(tables.providers, stack, plan, outside, Initial(tables.singletons)).1.calls;
    forall i | 0 <= i < |calls| ensures Accepted(asg, calls[i]) {
      assert Known(tables.providers, PlannedFactories(plan), calls[i]) && TypedCall(asg, calls[i]);
    }
  }

  // ---------- exactly when a Build is accepted ----------

  /** Only a function with parameters can be variadic. */
  ghost predicate Declarable(ps: map<Ty, Func>, fs: seq<Func>) {
    && (forall t :: t in ps && ps[t].variadic.Some? ==> ps[t].params != [])
    && (forall f :: f in fs && f.variadic.Some? ==> f.params != [])
  }

  /** The instance filed under the slice type of a variadic function passes for one element. */
  predicate SliceIsElement(asg: (Ty, Ty) -> bool, singletons: map<Ty, Value>, f: Func) {
    f.variadic.Some? && f.params != [] ==>
      Last(f.params) in singletons && asg(singletons[Last(f.params)].typ, f.variadic.value)
  }

  /** Over tables without a cycle, call by call. */
  lemma {:induction false} CallAcceptedIff(asg: (Ty, Ty) -> bool, tables: Tables, stack: nat, plan: Plan,
                                           outside: Outside, i: nat)
    requires TypedTables(asg, tables) && Acyclic(tables.providers, tables.singletons)
    requires Declarable(tables.providers, PlannedFactories(plan))
    requires i < |BuildOutcome(tables.providers, stack, plan, outside, Initial(tables.singletons)).1.calls|
    ensures var s' := BuildOutcome(tables.providers, stack, plan, outside, Initial(tables.singletons)).1;
      Accepted(asg, s'.calls[i]) <==> SliceIsElement(asg, s'.singletons, s'.calls[i].fn)
  {
    hide BuildOutcome, PlannedFactories, Acyclic;
    var Tables(base, ps) := tables;
    BuildIsTyped(asg, tables, stack, plan, outside);
    BuildCallsKnown(ps, stack, plan, outside, base);
    WholeBuild(ps, stack, plan, outside, base);
    var s' := BuildOutcome(ps, stack, plan, outside, Initial(base)).1;
    var c := s'.calls[i];
    assert Known(ps, PlannedFactories(plan), c) && TypedCall(asg, c) && CallSound(ps, base, s', i);
    if c.fn.variadic.Some? {
      assert ArgumentFiled(base, s', i, |c.args| - 1);
    }
  }

  /**
    A whole Build is accepted exactly when for every variadic function that it calls the instance filed
    under the slice type is assignable to the element type.
   */
  lemma {:induction false} BuildAcceptedIff(asg: (Ty, Ty) -> bool, tables: Tables, stack: nat, plan: Plan,
                                            outside: Outside)
    requires TypedTables(asg, tables) && Acyclic(tables.providers, tables.singletons)
    requires Declarable(tables.providers, PlannedFactories(plan))
    ensures var s' := BuildOutcome(tables.providers, stack, plan, outside, Initial(tables.singletons)).1;
      AllAccepted(asg, s'.calls)
      <==> forall i :: 0 <= i < |s'.calls| ==> SliceIsElement(asg, s'.singletons, s'.calls[i].fn)
  {
    hide BuildOutcome, PlannedFactories, Acyclic, Accepted, SliceIsElement;
    var s' := BuildOutcome(tables.providers, stack, plan, outside, Initial(tables.singletons)).1;
    forall i | 0 <= i < |s'.calls|
      ensures Accepted(asg, s'.calls[i]) <==> SliceIsElement(asg, s'.singletons, s'.calls[i].fn)
    {
      CallAcceptedIff(asg, tables, stack, plan, outside, i);
    }
  }

  // ---------- which providers a Build calls ----------

  /** `t` is needed for a parameter of a factory in `fs`, directly or through providers. */
  ghost predicate Needed(ps: map<Ty, Func>, base: map<Ty, Value>, fs: seq<Func>, t: Ty) {
    exists f, u :: f in fs && u in f.params && Reaches(ps, base, u, t)
  }

  ghost predicate CallsNeeded(ps: map<Ty, Func>, base: map<Ty, Value>, fs: seq<Func>, s: State) {
    forall i :: 0 <= i < |s.calls| && s.calls[i].callee.ProviderOf? ==> Needed(ps, base, fs, s.calls[i].callee.t)
  }

  lemma {:induction false} NeededParameter(ps: map<Ty, Func>, base: map<Ty, Value>, fs: seq<Func>, f: Func, u: Ty)
    requires f in fs && u in f.params
    ensures Needed(ps, base, fs, u)
  {
    assert PathFrom(ps, base, u, [u]) && Last([u]) == u;
    assert Reaches(ps, base, u, u);
  }

  lemma {:induction false} NeededEdge(ps: map<Ty, Func>, base: map<Ty, Value>, fs: seq<Func>, t: Ty, x: Ty)
    requires Needed(ps, base, fs, t) && Edge(ps, base, t, x)
    ensures Needed(ps, base, fs, x)
  {
    var f, u :| f in fs && u in f.params && Reaches(ps, base, u, t);
    var p :| PathFrom(ps, base, u, p) && Last(p) == t;
    var q := p + [x];
    forall i | 0 <= i < |q| - 1 ensures Edge(ps, base, q[i], q[i + 1]) {
      assert i < |p| - 1 ==> Edge(ps, base, p[i], p[i + 1]);
    }
    assert PathFrom(ps, base, u, q) && Last(q) == x;
    assert Reaches(ps, base, u, x);
  }

  lemma {:induction false} ResolvedNeeded(ps: map<Ty, Func>, base: map<Ty, Value>, rank: Ty -> nat, fs: seq<Func>,
                                          n: nat, t: Ty, s: State)
    requires Ranked(ps, base, rank) && Logged(ps, base, s)
    requires CallsNeeded(ps, base, fs, s) && Needed(ps, base, fs, t)
    ensures CallsNeeded(ps, base, fs, Resolved(ps, n, t, s).1)
    decreases n, 0
  {
    hide Needed, CallSound, CalledOnce, CalledBefore;
    if t !in s.singletons && t in ps && n > 0 {
      var s0 := s.(entries := s.entries + 1);
      LoggedSame(ps, base, s, s0);
      forall x | x in ps[t].params ensures Needed(ps, base, fs, x) {
        NeededEdge(ps, base, fs, t, x);
      }
      ResolvedAllNeeded(ps, base, rank, fs, n - 1, ps[t].params, s0);
    }
  }

  lemma {:induction false} ResolvedAllNeeded(ps: map<Ty, Func>, base: map<Ty, Value>, rank: Ty -> nat, fs: seq<Func>,
                                             n: nat, ts: seq<Ty>, s: State)
    requires Ranked(ps, base, rank) && Logged(ps, base, s)
    requires CallsNeeded(ps, base, fs, s) && forall x :: x in ts ==> Needed(ps, base, fs, x)
    ensures CallsNeeded(ps, base, fs, ResolvedAll(ps, n, ts, s).1)
    decreases n, |ts|
  {
    hide Needed, Logged, Ranked, CallsNeeded;
    if ts != [] {
      ResolvedNeeded(ps, base, rank, fs, n, ts[0], s);
      ResolvedLogged(ps, base, rank, n, ts[0], s);
      var (o, s1) := Resolved(ps, n, ts[0], s);
      if o.Found? {
        ResolvedAllNeeded(ps, base, rank, fs, n, ts[1..], s1);
      }
    }
  }

  lemma {:induction false} InvokedManyNeeded(ps: map<Ty, Func>, base: map<Ty, Value>, rank: Ty -> nat, all: seq<Func>,
                                             n: nat, fs: seq<Func>, s: State)
    requires Ranked(ps, base, rank) && Logged(ps, base, s)
    requires CallsNeeded(ps, base, all, s) && forall f :: f in fs ==> f in all
    ensures CallsNeeded(ps, base, all, InvokedMany(ps, n, fs, s).1)
  {
    hide Needed, Logged, Ranked;
    if fs != [] {
      forall x | x in fs[0].params ensures Needed(ps, base, all, x) {
        NeededParameter(ps, base, all, fs[0], x);
      }
      ResolvedAllNeeded(ps, base, rank, all, n, fs[0].params, s);
      InvokedLogged(ps, base, rank, n, fs[0], s);
      InvokedManyNeeded(ps, base, rank, all, n, fs[1..], Invoked(ps, n, fs[0], s).1);
    }
  }

  /** Some call in the log is one of the factory. */
  ghost predicate FactoryCalled(calls: seq<Call>, f: Func) {
    exists i :: 0 <= i < |calls| && calls[i].callee == Factory && calls[i].fn == f
  }

  lemma {:induction false} FactoryCalledStays(s: State, s': State, f: Func)
    requires FactoryCalled(s.calls, f) && Extends(s, s')
    ensures FactoryCalled(s'.calls, f)
  {
    var i :| 0 <= i < |s.calls| && s.calls[i].callee == Factory && s.calls[i].fn == f;
    assert s'.calls[i] == s.calls[i];
  }

  lemma {:induction false} InvokedManyCalls(ps: map<Ty, Func>, base: map<Ty, Value>, rank: Ty -> nat, n: nat,
                                            fs: seq<Func>, s: State)
    requires Ranked(ps, base, rank) && Logged(ps, base, s) && InvokedMany(ps, n, fs, s).0.Found?
    ensures forall f :: f in fs ==> FactoryCalled(InvokedMany(ps, n, fs, s).1.calls, f)
  {
    hide Logged, Ranked;
    if fs != [] {
      var s1 := Invoked(ps, n, fs[0], s).1;
      InvokedLogged(ps, base, rank, n, fs[0], s);
      InvokedManyCalls(ps, base, rank, n, fs[1..], s1);
      InvokedManyLogged(ps, base, rank, n, fs[1..], s1);
      assert s1.calls[|s1.calls| - 1].fn == fs[0];
      FactoryCalledStays(s1, InvokedMany(ps, n, fs[1..], s1).1, fs[0]);
    }
  }

  /** The factories that a successful Build invokes. */
  function InvokedFactories(plan: Plan): seq<Func> {
    plan.services + plan.controllers + if plan.temporal then plan.activities else []
  }

  lemma {:induction false} BuildCallsFactories(ps: map<Ty, Func>, stack: nat, plan: Plan, outside: Outside,
                                               base: map<Ty, Value>)
    requires Acyclic(ps, base) && BuildOutcome(ps, stack, plan, outside, Initial(base)).0.Built?
    ensures var s' := BuildOutcome(ps, stack, plan, outside, Initial(base)).1;
      && CallsNeeded(ps, base, InvokedFactories(plan), s')
      && forall f :: f in InvokedFactories(plan) ==> FactoryCalled(s'.calls, f)
  {
    hide Acyclic, Logged, Needed, Ranked, FactoryCalled;
    var rank := AcyclicHasRank(ps, base);
    var s, all := Initial(base), InvokedFactories(plan);
    var s1 := InvokedMany(ps, stack, plan.services, s).1;
    var s2 := InvokedMany(ps, stack, plan.controllers, s1).1;
    InitialLogged(ps, base);
    InvokedManyLogged(ps, base, rank, stack, plan.services, s);
    InvokedManyLogged(ps, base, rank, stack, plan.controllers, s1);
    InvokedManyNeeded(ps, base, rank, all, stack, plan.services, s);
    InvokedManyNeeded(ps, base, rank, all, stack, plan.controllers, s1);
    InvokedManyCalls(ps, base, rank, stack, plan.services, s);
    InvokedManyCalls(ps, base, rank, stack, plan.controllers, s1);
    forall f | f in plan.services ensures FactoryCalled(s2.calls, f) {
      FactoryCalledStays(s1, s2, f);
    }
    if plan.temporal {
      var s3 := InvokedMany(ps, stack, plan.activities, s2).1;
      InvokedManyLogged(ps, base, rank, stack, plan.activities, s2);
      InvokedManyNeeded(ps, base, rank, all, stack, plan.activities, s2);
      InvokedManyCalls(ps, base, rank, stack, plan.activities, s2);
      forall f | f in plan.services + plan.controllers ensures FactoryCalled(s3.calls, f) {
        FactoryCalledStays(s2, s3, f);
      }
    }
  }

  /** Whatever lies below a memoised type is memoised too. */
  lemma {:induction false} BelowMemoised(ps: map<Ty, Func>, base: map<Ty, Value>, s: State, t: Ty, p: seq<Ty>)
    requires Logged(ps, base, s) && t in s.singletons && PathFrom(ps, base, t, p)
    ensures Last(p) in s.singletons
    decreases |p|
  {
    if |p| > 1 {
      assert Edge(ps, base, p[0], p[1]);
      var j :| 0 <= j < |s.calls| && s.calls[j].callee == ProviderOf(t);
      assert CallSound(ps, base, s, j);
      var k :| 0 <= k < |ps[t].params| && ps[t].params[k] == p[1];
      assert ArgumentFiled(base, s, j, k);
      PathTail(ps, base, t, p);
      BelowMemoised(ps, base, s, p[1], p[1..]);
    }
  }

  ghost predicate ProviderCalled(calls: seq<Call>, t: Ty) {
    exists i :: 0 <= i < |calls| && calls[i].callee == ProviderOf(t)
  }

  lemma {:induction false} NeededIsMemoised(ps: map<Ty, Func>, base: map<Ty, Value>, fs: seq<Func>, s: State, t: Ty)
    requires Logged(ps, base, s) && Needed(ps, base, fs, t) && forall f :: f in fs ==> FactoryCalled(s.calls, f)
    ensures t in s.singletons
  {
    var f, u :| f in fs && u in f.params && Reaches(ps, base, u, t);
    var i :| 0 <= i < |s.calls| && s.calls[i].callee == Factory && s.calls[i].fn == f;
    assert CallSound(ps, base, s, i);
    var k :| 0 <= k < |f.params| && f.params[k] == u;
    assert ArgumentFiled(base, s, i, k);
    var p :| PathFrom(ps, base, u, p) && Last(p) == t;
    BelowMemoised(ps, base, s, u, p);
  }

  /**
    A successful Build over tables without a cycle calls exactly the providers that some factory needs,
    and that were not supplied: no more, and none is left out.
   */
  lemma {:induction false} ProviderCalledIff(ps: map<Ty, Func>, stack: nat, plan: Plan, outside: Outside,
                                             base: map<Ty, Value>, t: Ty)
    requires Acyclic(ps, base) && BuildOutcome(ps, stack, plan, outside, Initial(base)).0.Built?
    ensures ProviderCalled(BuildOutcome(ps, stack, plan, outside, Initial(base)).1.calls, t)
       <==> t !in base && t in ps && Needed(ps, base, InvokedFactories(plan), t)
  {
    hide BuildOutcome, Acyclic, Needed, FactoryCalled, InvokedFactories;
    BuildCallsFactories(ps, stack, plan, outside, base);
    WholeBuild(ps, stack, plan, outside, base);
    var s' := BuildOutcome(ps, stack, plan, outside, Initial(base)).1;
    if ProviderCalled(s'.calls, t) {
      var i :| 0 <= i < |s'.calls| && s'.calls[i].callee == ProviderOf(t);
      assert CallSound(ps, base, s', i);
    }
    if t !in base && t in ps && Needed(ps, base, InvokedFactories(plan), t) {
      NeededIsMemoised(ps, base, InvokedFactories(plan), s', t);
      assert CalledBefore(s', t, |s'.calls|);
    }
  }

  // ---------- to be checked before the Build ----------

  /** A successful Build calls this function. */
  ghost predicate WillBeCalled(ps: map<Ty, Func>, base: map<Ty, Value>, plan: Plan, f: Func) {
    || f in InvokedFactories(plan)
    || exists t :: t in ps && t !in base && Needed(ps, base, InvokedFactories(plan), t) && f == ps[t]
  }

  /** Whatever is filed under `t` has exactly this type, as is so for slice types: they are no interfaces. */
  ghost predicate Exact(ps: map<Ty, Func>, base: map<Ty, Value>, t: Ty) {
    && (t in base ==> base[t].typ == t)
    && (t in ps ==> forall args, n :: ps[t].body(args, n).typ == t)
  }

  ghost predicate SlicesExact(ps: map<Ty, Func>, base: map<Ty, Value>, f: Func) {
    f.variadic.Some? && f.params != [] ==> Exact(ps, base, Last(f.params))
  }

  lemma {:induction false} ExactInstance(ps: map<Ty, Func>, base: map<Ty, Value>, s: State, t: Ty)
    requires Logged(ps, base, s) && Exact(ps, base, t) && t in s.singletons
    ensures s.singletons[t].typ == t
  {
    if t !in base {
      var j :| 0 <= j < |s.calls| && s.calls[j].callee == ProviderOf(t);
      assert CallSound(ps, base, s, j);
    }
  }

  lemma {:induction false} CalledIffWillBe(ps: map<Ty, Func>, stack: nat, plan: Plan, outside: Outside,
                                           base: map<Ty, Value>, f: Func)
    requires Acyclic(ps, base) && BuildOutcome(ps, stack, plan, outside, Initial(base)).0.Built?
    ensures var calls := BuildOutcome(ps, stack, plan, outside, Initial(base)).1.calls;
      (exists i :: 0 <= i < |calls| && calls[i].fn == f) <==> WillBeCalled(ps, base, plan, f)
  {
    hide Acyclic, Needed;
    BuildCallsFactories(ps, stack, plan, outside, base);
    InvokedKnown(ps, stack, plan, outside, base);
    WholeBuild(ps, stack, plan, outside, base);
    hide BuildOutcome, InvokedFactories, Logged;
    var s' := BuildOutcome(ps, stack, plan, outside, Initial(base)).1;
    if i :| 0 <= i < |s'.calls| && s'.calls[i].fn == f {
      assert Known(ps, InvokedFactories(plan), s'.calls[i]);
      if s'.calls[i].callee.ProviderOf? {
        ProviderCalledIff(ps, stack, plan, outside, base, s'.calls[i].callee.t);
      }
    }
    if WillBeCalled(ps, base, plan, f) && f !in InvokedFactories(plan) {
      var t :| t in ps && t !in base && Needed(ps, base, InvokedFactories(plan), t) && f == ps[t];
      ProviderCalledIff(ps, stack, plan, outside, base, t);
      var i :| 0 <= i < |s'.calls| && s'.calls[i].callee == ProviderOf(t);
      assert Known(ps, InvokedFactories(plan), s'.calls[i]);
    }
  }

  /** A successful Build calls no factory that it does not invoke. */
  lemma {:induction false} InvokedKnown(ps: map<Ty, Func>, stack: nat, plan: Plan, outside: Outside,
                                        base: map<Ty, Value>)
    requires BuildOutcome(ps, stack, plan, outside, Initial(base)).0.Built?
    ensures AllKnown(ps, InvokedFactories(plan), BuildOutcome(ps, stack, plan, outside, Initial(base)).1.calls)
  {
    hide AllKnown;
    var s, all := Initial(base), InvokedFactories(plan);
    var s1 := InvokedMany(ps, stack, plan.services, s).1;
    var s2 := InvokedMany(ps, stack, plan.controllers, s1).1;
    assert AllKnown(ps, all, s.calls) by { NothingKnown(ps, all); }
    InvokedManyKnown(ps, all, stack, plan.services, s);
    InvokedManyKnown(ps, all, stack, plan.controllers, s1);
    if plan.temporal {
      InvokedManyKnown(ps, all, stack, plan.activities, s2);
    }
  }

  lemma {:induction false} NothingKnown(ps: map<Ty, Func>, fs: seq<Func>)
    ensures AllKnown(ps, fs, [])
  {
  }

  /**
    Known before the Build: a Build that succeeds is accepted by reflection exactly when for each variadic
    function among the invoked factories and the needed providers, the slice type is itself assignable to
    its element type, as `[]any` is to `any`.
   */
  lemma {:induction false} AcceptedBeforehandIff(asg: (Ty, Ty) -> bool, tables: Tables, stack: nat, plan: Plan,
                                                 outside: Outside)
    requires TypedTables(asg, tables) && Acyclic(tables.providers, tables.singletons)
    requires Declarable(tables.providers, PlannedFactories(plan))
    requires BuildOutcome(tables.providers, stack, plan, outside, Initial(tables.singletons)).0.Built?
    requires forall f :: WillBeCalled(tables.providers, tables.singletons, plan, f)
                     ==> SlicesExact(tables.providers, tables.singletons, f)
    ensures AllAccepted(asg, BuildOutcome(tables.providers, stack, plan, outside, Initial(tables.singletons)).1.calls)
       <==> forall f :: WillBeCalled(tables.providers, tables.singletons, plan, f) && f.variadic.Some? && f.params != []
              ==> asg(Last(f.params), f.variadic.value)
  {
    hide BuildOutcome, Acyclic, WillBeCalled, TypedTables, Declarable, AllAccepted, Logged;
    var Tables(base, ps) := tables;
    BuildAcceptedIff(asg, tables, stack, plan, outside);
    WholeBuild(ps, stack, plan, outside, base);
    var s' := BuildOutcome(ps, stack, plan, outside, Initial(base)).1;
    forall i | 0 <= i < |s'.calls|
      ensures WillBeCalled(ps, base, plan, s'.calls[i].fn)
      ensures s'.calls[i].fn.variadic.Some? && s'.calls[i].fn.params != [] ==>
        (SliceIsElement(asg, s'.singletons, s'.calls[i].fn)
         <==> asg(Last(s'.calls[i].fn.params), s'.calls[i].fn.variadic.value))
    {
      CalledIffWillBe(ps, stack, plan, outside, base, s'.calls[i].fn);
      SliceOfCall(asg, ps, base, s', i);
    }
    forall f | WillBeCalled(ps, base, plan, f) ensures exists i :: 0 <= i < |s'.calls| && s'.calls[i].fn == f {
      CalledIffWillBe(ps, stack, plan, outside, base, f);
    }
  }

  /**
    Known before the Build, over tables without a cycle: no step fails and reflection accepts every call
    exactly when the Build is ready and no function that will be called has a variadic parameter whose
    slice type is not assignable to its element type.
   */
  lemma {:induction false} BuildGoesThroughIff(asg: (Ty, Ty) -> bool, tables: Tables, stack: nat, plan: Plan,
                                               outside: Outside)
    requires TypedTables(asg, tables) && Acyclic(tables.providers, tables.singletons)
    requires Declarable(tables.providers, PlannedFactories(plan)) && stack >= |tables.providers|
    requires forall f :: WillBeCalled(tables.providers, tables.singletons, plan, f)
                     ==> SlicesExact(tables.providers, tables.singletons, f)
    ensures var (r, s') := BuildOutcome(tables.providers, stack, plan, outside, Initial(tables.singletons));
      r.Built? && AllAccepted(asg, s'.calls) <==>
        && Ready(tables.providers, tables.singletons, plan, outside)
        && forall f :: WillBeCalled(tables.providers, tables.singletons, plan, f) && f.variadic.Some? && f.params != []
             ==> asg(Last(f.params), f.variadic.value)
  {
    hide BuildOutcome, Acyclic, WillBeCalled, TypedTables, Declarable, AllAccepted, Ready;
    BuildSucceedsIff(tables.providers, stack, plan, outside, tables.singletons);
    if BuildOutcome(tables.providers, stack, plan, outside, Initial(tables.singletons)).0.Built? {
      AcceptedBeforehandIff(asg, tables, stack, plan, outside);
    }
  }

  lemma {:induction false} SliceOfCall(asg: (Ty, Ty) -> bool, ps: map<Ty, Func>, base: map<Ty, Value>, s: State, i: nat)
    requires Logged(ps, base, s) && i < |s.calls| && SlicesExact(ps, base, s.calls[i].fn)
    ensures var f := s.calls[i].fn;
      f.variadic.Some? && f.params != [] ==>
        (SliceIsElement(asg, s.singletons, f) <==> asg(Last(f.params), f.variadic.value))
  {
    var f := s.calls[i].fn;
    if f.variadic.Some? && f.params != [] {
      assert CallSound(ps, base, s, i);
      assert ArgumentFiled(base, s, i, |f.params| - 1);
      ExactInstance(ps, base, s, Last(f.params));
    }
  }
}
