/**
  The order of the calls in a successful Build over tables without a cycle: depth first, dependencies
  before dependents, from left to right, each provider where it is needed first.
 */
module CallOrder {
  import opened Wrappers
  import opened Container
  import opened DependencyGraph
  import opened CallLog
  import opened Wiring
  import opened Variadic

  /** Who was called, in order. */
  function Callees(calls: seq<Call>): (cs: seq<Callee>)
    ensures |cs| == |calls|
  {
    seq(|calls|, i requires 0 <= i < |calls| => calls[i].callee)
  }

  /** The providers below `t` in depth-first postorder, as often as they come up; cut at supplied types. */
  function Postorder(ps: map<Ty, Func>, base: map<Ty, Value>, n: nat, t: Ty): seq<Callee>
    decreases n, 0
  {
    if t in base || t !in ps || n == 0 then []
    else PostorderAll(ps, base, n - 1, ps[t].params) + [ProviderOf(t)]
  }

  function PostorderAll(ps: map<Ty, Func>, base: map<Ty, Value>, n: nat, ts: seq<Ty>): seq<Callee>
    decreases n, |ts|
  {
    if ts == [] then [] else Postorder(ps, base, n, ts[0]) + PostorderAll(ps, base, n, ts[1..])
  }

  /** What a run of factories would call without a memo table. */
  function PlainOrder(ps: map<Ty, Func>, base: map<Ty, Value>, n: nat, fs: seq<Func>): seq<Callee> {
    if fs == [] then []
    else PostorderAll(ps, base, n, fs[0].params) + [Factory] + PlainOrder(ps, base, n, fs[1..])
  }

  /** The first occurrence of each provider that is not in `seen`, and all factories. */
  function Firsts(cs: seq<Callee>, seen: set<Ty>): seq<Callee> {
    if cs == [] then []
    else match cs[0]
      case Factory => [Factory] + Firsts(cs[1..], seen)
      case ProviderOf(t) =>
        if t in seen then Firsts(cs[1..], seen) else [cs[0]] + Firsts(cs[1..], seen + {t})
  }

  function Types(cs: seq<Callee>): set<Ty> {
    set c | c in cs && c.ProviderOf? :: c.t
  }

  lemma {:induction false} TypesOfSum(a: seq<Callee>, b: seq<Callee>)
    ensures Types(a + b) == Types(a) + Types(b)
  {
    forall t ensures t in Types(a + b) <==> t in Types(a) || t in Types(b) {
      assert ProviderOf(t) in a + b <==> ProviderOf(t) in a || ProviderOf(t) in b;
    }
  }

  lemma {:induction false} FirstsOfSum(a: seq<Callee>, b: seq<Callee>, seen: set<Ty>)
    ensures Firsts(a + b, seen) == Firsts(a, seen) + Firsts(b, seen + Types(a))
  {
    if a == [] {
      assert a + b == b && seen + Types(a) == seen;
    } else {
      var (c, rest) := (a[0], a[1..]);
      assert (a + b)[0] == c && (a + b)[1..] == rest + b && [c] + rest == a;
      TypesOfSum([c], rest);
      match c {
        case Factory =>
          assert Types([c]) == {};
          FirstsOfSum(rest, b, seen);
          assert seen + Types(rest) == seen + Types(a);
        case ProviderOf(t) =>
          assert c in [c];
          assert Types([c]) == {t};
          FirstsOfSum(rest, b, if t in seen then seen else seen + {t});
          assert (if t in seen then seen else seen + {t}) + Types(rest) == seen + Types(a);
      }
    }
  }

  lemma {:induction false} NothingNew(cs: seq<Callee>, seen: set<Ty>)
    requires forall c :: c in cs ==> c.ProviderOf? && c.t in seen
    ensures Firsts(cs, seen) == [] && Types(cs) <= seen
  {
    if cs != [] {
      assert cs[0] in cs;
      NothingNew(cs[1..], seen);
      TypesOfSum([cs[0]], cs[1..]);
      assert [cs[0]] + cs[1..] == cs;
    }
  }

  lemma {:induction false} ReachesPastEdge(ps: map<Ty, Func>, base: map<Ty, Value>, t: Ty, x: Ty, u: Ty)
    requires Edge(ps, base, t, x) && Reaches(ps, base, x, u)
    ensures Reaches(ps, base, t, u)
  {
    var p :| PathFrom(ps, base, x, p) && Last(p) == u;
    var q := [t] + p;
    forall i | 0 <= i < |q| - 1 ensures Edge(ps, base, q[i], q[i + 1]) {
      assert i == 0 || Edge(ps, base, p[i - 1], p[i - 1 + 1]);
    }
    assert PathFrom(ps, base, t, q) && Last(q) == u;
  }

  lemma {:induction false} PostorderIsBelow(ps: map<Ty, Func>, base: map<Ty, Value>, n: nat, t: Ty, c: Callee)
    requires c in Postorder(ps, base, n, t)
    ensures c.ProviderOf? && Reaches(ps, base, t, c.t)
    decreases n, 0
  {
    if c in PostorderAll(ps, base, n - 1, ps[t].params) {
      var x := PostorderAllIsBelow(ps, base, n - 1, ps[t].params, c);
      ReachesPastEdge(ps, base, t, x, c.t);
    } else {
      assert PathFrom(ps, base, t, [t]) && Last([t]) == t;
    }
  }

  lemma {:induction false} PostorderAllIsBelow(ps: map<Ty, Func>, base: map<Ty, Value>, n: nat, ts: seq<Ty>, c: Callee)
    returns (x: Ty)
    requires c in PostorderAll(ps, base, n, ts)
    ensures x in ts && c.ProviderOf? && Reaches(ps, base, x, c.t)
    decreases n, |ts|
  {
    if c in Postorder(ps, base, n, ts[0]) {
      PostorderIsBelow(ps, base, n, ts[0], c);
      x := ts[0];
    } else {
      x := PostorderAllIsBelow(ps, base, n, ts[1..], c);
    }
  }

  /** The log of `s'` is that of `s` with the first calls of `cs` added, and these are memoised. */
  ghost predicate Follows(s: State, s': State, cs: seq<Callee>) {
    && Callees(s'.calls) == Callees(s.calls) + Firsts(cs, s.singletons.Keys)
    && s'.singletons.Keys == s.singletons.Keys + Types(cs)
  }

  lemma {:induction false} FollowsJoin(s: State, s1: State, s2: State, a: seq<Callee>, b: seq<Callee>)
    requires Follows(s, s1, a) && Follows(s1, s2, b)
    ensures Follows(s, s2, a + b)
  {
    FirstsOfSum(a, b, s.singletons.Keys);
    TypesOfSum(a, b);
    var (x, y, z) := (Callees(s.calls), Firsts(a, s.singletons.Keys), Firsts(b, s1.singletons.Keys));
    assert (x + y) + z == x + (y + z);
  }

  lemma {:induction false} FollowsNothing(s: State, s': State)
    requires s'.calls == s.calls && s'.singletons == s.singletons
    ensures Follows(s, s', [])
  {
    assert Callees(s.calls) + [] == Callees(s.calls);
    assert s.singletons.Keys + Types([]) == s.singletons.Keys;
  }

  /** A memoised type adds nothing: all below it is memoised. */
  lemma {:induction false} MemoisedFollows(ps: map<Ty, Func>, base: map<Ty, Value>, n: nat, t: Ty, s: State, s': State)
    requires Logged(ps, base, s) && t in s.singletons
    requires s'.calls == s.calls && s'.singletons == s.singletons
    ensures Follows(s, s', Postorder(ps, base, n, t))
  {
    hide Logged, Postorder;
    var cs := Postorder(ps, base, n, t);
    forall c | c in cs ensures c.ProviderOf? && c.t in s.singletons.Keys {
      PostorderIsBelow(ps, base, n, t, c);
      var p :| PathFrom(ps, base, t, p) && Last(p) == c.t;
      BelowMemoised(ps, base, s, t, p);
    }
    NothingNew(cs, s.singletons.Keys);
    assert Callees(s.calls) + [] == Callees(s.calls);
  }

  lemma {:induction false} CallFollows(s: State, s': State, c: Call)
    requires s'.calls == s.calls + [c]
    requires if c.callee.ProviderOf? then
               c.callee.t !in s.singletons && s'.singletons == s.singletons[c.callee.t := c.result]
             else s'.singletons == s.singletons
    ensures Follows(s, s', [c.callee])
  {
    assert Callees(s'.calls) == Callees(s.calls) + [c.callee];
    assert c.callee in [c.callee] && [c.callee][1..] == [];
    if c.callee.ProviderOf? {
      assert Types([c.callee]) == {c.callee.t};
    } else {
      assert Types([c.callee]) == {};
      assert s.singletons.Keys + {} == s.singletons.Keys;
    }
    assert Firsts([c.callee], s.singletons.Keys) == [c.callee] + [] == [c.callee];
  }

  lemma {:induction false} ResolvedFollows(ps: map<Ty, Func>, base: map<Ty, Value>, rank: Ty -> nat, n: nat, t: Ty,
                                           s: State)
    requires Ranked(ps, base, rank) && Logged(ps, base, s) && Resolved(ps, n, t, s).0.Found?
    ensures Follows(s, Resolved(ps, n, t, s).1, Postorder(ps, base, n, t))
    decreases n, 0
  {
    hide Follows, CallSound, CalledOnce, CalledBefore;
    var s' := Resolved(ps, n, t, s).1;
    if t in s.singletons {
      MemoisedFollows(ps, base, n, t, s, s');
    } else {
      var s0 := s.(entries := s.entries + 1);
      var (o, s1) := ResolvedAll(ps, n - 1, ps[t].params, s0);
      var r: int := rank(t);
      LoggedSame(ps, base, s, s0);
      assert forall x :: x in ps[t].params ==> Edge(ps, base, t, x);
      ResolvedAllFollows(ps, base, rank, n - 1, ps[t].params, s0);
      ResolvedAllLogged(ps, base, rank, n - 1, ps[t].params, s0, r - 1);
      assert t !in Added(s0, s1);
      FollowsNothing(s, s0);
      var cs := PostorderAll(ps, base, n - 1, ps[t].params);
      FollowsJoin(s, s0, s1, [], cs);
      CallFollows(s1, s', s'.calls[|s1.calls|]);
      assert [] + cs == cs;
      FollowsJoin(s, s1, s', cs, [ProviderOf(t)]);
    }
  }

  lemma {:induction false} ResolvedAllFollows(ps: map<Ty, Func>, base: map<Ty, Value>, rank: Ty -> nat, n: nat,
                                              ts: seq<Ty>, s: State)
    requires Ranked(ps, base, rank) && Logged(ps, base, s) && ResolvedAll(ps, n, ts, s).0.Found?
    ensures Follows(s, ResolvedAll(ps, n, ts, s).1, PostorderAll(ps, base, n, ts))
    decreases n, |ts|
  {
    hide Follows, Logged, Ranked;
    if ts == [] {
      FollowsNothing(s, s);
    } else {
      var s1 := Resolved(ps, n, ts[0], s).1;
      ResolvedFollows(ps, base, rank, n, ts[0], s);
      ResolvedLogged(ps, base, rank, n, ts[0], s);
      ResolvedAllFollows(ps, base, rank, n, ts[1..], s1);
      FollowsJoin(s, s1, ResolvedAll(ps, n, ts[1..], s1).1,
                  Postorder(ps, base, n, ts[0]), PostorderAll(ps, base, n, ts[1..]));
    }
  }

  lemma {:induction false} InvokedFollows(ps: map<Ty, Func>, base: map<Ty, Value>, rank: Ty -> nat, n: nat, f: Func,
                                          s: State)
    requires Ranked(ps, base, rank) && Logged(ps, base, s) && Invoked(ps, n, f, s).0.Found?
    ensures Follows(s, Invoked(ps, n, f, s).1, PostorderAll(ps, base, n, f.params) + [Factory])
  {
    hide Follows, Logged, Ranked, PostorderAll;
    var (s1, s') := (ResolvedAll(ps, n, f.params, s).1, Invoked(ps, n, f, s).1);
    ResolvedAllFollows(ps, base, rank, n, f.params, s);
    CallFollows(s1, s', s'.calls[|s1.calls|]);
    FollowsJoin(s, s1, s', PostorderAll(ps, base, n, f.params), [Factory]);
  }

  lemma {:induction false} InvokedManyFollows(ps: map<Ty, Func>, base: map<Ty, Value>, rank: Ty -> nat, n: nat,
                                              fs: seq<Func>, s: State)
    requires Ranked(ps, base, rank) && Logged(ps, base, s) && InvokedMany(ps, n, fs, s).0.Found?
    ensures Follows(s, InvokedMany(ps, n, fs, s).1, PlainOrder(ps, base, n, fs))
  {
    hide Follows, Logged, Ranked, PostorderAll;
    if fs == [] {
      FollowsNothing(s, s);
    } else {
      var s1 := Invoked(ps, n, fs[0], s).1;
      InvokedFollows(ps, base, rank, n, fs[0], s);
      InvokedLogged(ps, base, rank, n, fs[0], s);
      InvokedManyFollows(ps, base, rank, n, fs[1..], s1);
      FollowsJoin(s, s1, InvokedMany(ps, n, fs[1..], s1).1,
                  PostorderAll(ps, base, n, fs[0].params) + [Factory], PlainOrder(ps, base, n, fs[1..]));
    }
  }

  lemma {:induction false} PlainOrderOfSum(ps: map<Ty, Func>, base: map<Ty, Value>, n: nat, fs: seq<Func>,
                                           gs: seq<Func>)
    ensures PlainOrder(ps, base, n, fs + gs) == PlainOrder(ps, base, n, fs) + PlainOrder(ps, base, n, gs)
  {
    hide PostorderAll;
    if fs == [] {
      assert fs + gs == gs;
    } else {
      assert (fs + gs)[1..] == fs[1..] + gs;
      PlainOrderOfSum(ps, base, n, fs[1..], gs);
    }
  }

  /**
    A successful Build calls, in this order: for each service, controller and (with Temporal) activity the
    providers below its parameters in depth-first postorder, then its factory; each provider only the
    first time it comes up, and none that was supplied.
   */
  lemma {:induction false} BuildOrder(ps: map<Ty, Func>, stack: nat, plan: Plan, outside: Outside, base: map<Ty, Value>)
    requires Acyclic(ps, base) && BuildOutcome(ps, stack, plan, outside, Initial(base)).0.Built?
    ensures Callees(BuildOutcome(ps, stack, plan, outside, Initial(base)).1.calls)
         == Firsts(PlainOrder(ps, base, stack, InvokedFactories(plan)), base.Keys)
  {
    hide Acyclic, Logged, Ranked, Follows, PlainOrder;
    var rank := AcyclicHasRank(ps, base);
    var s := Initial(base);
    var s1 := InvokedMany(ps, stack, plan.services, s).1;
    var s2 := InvokedMany(ps, stack, plan.controllers, s1).1;
    InitialLogged(ps, base);
    InvokedManyLogged(ps, base, rank, stack, plan.services, s);
    InvokedManyFollows(ps, base, rank, stack, plan.services, s);
    InvokedManyFollows(ps, base, rank, stack, plan.controllers, s1);
    var (a, b) := (PlainOrder(ps, base, stack, plan.services), PlainOrder(ps, base, stack, plan.controllers));
    FollowsJoin(s, s1, s2, a, b);
    PlainOrderOfSum(ps, base, stack, plan.services, plan.controllers);
    if plan.temporal {
      var s3 := InvokedMany(ps, stack, plan.activities, s2).1;
      InvokedManyLogged(ps, base, rank, stack, plan.controllers, s1);
      InvokedManyFollows(ps, base, rank, stack, plan.activities, s2);
      FollowsJoin(s, s2, s3, a + b, PlainOrder(ps, base, stack, plan.activities));
      PlainOrderOfSum(ps, base, stack, plan.services + plan.controllers, plan.activities);
      FollowsFromStart(base, s3, PlainOrder(ps, base, stack, InvokedFactories(plan)));
    } else {
      assert InvokedFactories(plan) == plan.services + plan.controllers;
      FollowsFromStart(base, s2, PlainOrder(ps, base, stack, InvokedFactories(plan)));
    }
  }

  lemma {:induction false} FollowsFromStart(base: map<Ty, Value>, s: State, cs: seq<Callee>)
    requires Follows(Initial(base), s, cs)
    ensures Callees(s.calls) == Firsts(cs, base.Keys)
  {
    assert Callees([]) == [];
  }
}
