/**
  Which error a failing Build returns, and which factories it has called by then, told from the plan, the
  tables and what the outside answers.
 */
module BuildErrors {
  import opened Wrappers
  import opened Container
  import opened DependencyGraph
  import opened CallLog
  import opened Memoisation
  import opened Wiring

  // ---------- the factories up to the first that cannot be called ----------

  /** Everything that the factory needs is provided. */
  ghost predicate NeedsMet(ps: map<Ty, Func>, base: map<Ty, Value>, f: Func) {
    forall t :: t in f.params ==> AllProvidedFrom(ps, base, t)
  }

  ghost predicate FirstUnmet(ps: map<Ty, Func>, base: map<Ty, Value>, fs: seq<Func>, i: int) {
    0 <= i < |fs| && !NeedsMet(ps, base, fs[i]) && forall j :: 0 <= j < i ==> NeedsMet(ps, base, fs[j])
  }

  /** The first unprovided type in depth-first order below the parameters. */
  ghost predicate GapOf(ps: map<Ty, Func>, base: map<Ty, Value>, stack: nat, ts: seq<Ty>, t: Ty) {
    var vs := PreorderAll(ps, base, stack, ts);
    exists k :: FirstUnprovided(ps, base, vs, k) && vs[k].t == t
  }

  /** The same of the first factory that misses something. */
  ghost predicate FirstGap(ps: map<Ty, Func>, base: map<Ty, Value>, stack: nat, fs: seq<Func>, t: Ty) {
    exists i :: FirstUnmet(ps, base, fs, i) && GapOf(ps, base, stack, fs[i].params, t)
  }

  lemma {:induction false} OneFirstUnmet(ps: map<Ty, Func>, base: map<Ty, Value>, fs: seq<Func>, i: int, j: int)
    requires FirstUnmet(ps, base, fs, i) && FirstUnmet(ps, base, fs, j)
    ensures i == j
  {
  }

  lemma {:induction false} OneFirstGap(ps: map<Ty, Func>, base: map<Ty, Value>, stack: nat, fs: seq<Func>, t: Ty, u: Ty)
    requires FirstGap(ps, base, stack, fs, t) && FirstGap(ps, base, stack, fs, u)
    ensures t == u
  {
    hide GapOf, NeedsMet;
    var i :| FirstUnmet(ps, base, fs, i) && GapOf(ps, base, stack, fs[i].params, t);
    var j :| FirstUnmet(ps, base, fs, j) && GapOf(ps, base, stack, fs[j].params, u);
    OneFirstUnmet(ps, base, fs, i, j);
    OneGap(ps, base, stack, fs[i].params, t, u);
  }

  lemma {:induction false} OneGap(ps: map<Ty, Func>, base: map<Ty, Value>, stack: nat, ts: seq<Ty>, t: Ty, u: Ty)
    requires GapOf(ps, base, stack, ts, t) && GapOf(ps, base, stack, ts, u)
    ensures t == u
  {
    var vs := PreorderAll(ps, base, stack, ts);
    var k :| FirstUnprovided(ps, base, vs, k) && vs[k].t == t;
    var l :| FirstUnprovided(ps, base, vs, l) && vs[l].t == u;
    assert k == l;
  }

  // ---------- what the memo table hides is provided ----------

  lemma {:induction false} EvalAllNeverOverflows(ps: map<Ty, Func>, base: map<Ty, Value>, n: nat, ts: seq<Ty>)
    requires Acyclic(ps, base) && n >= |ps|
    ensures EvalAll(ps, base, n, ts) != Overflow
  {
    if ts != [] {
      AcyclicNeverOverflows(ps, base, n, ts[0]);
      EvalAllNeverOverflows(ps, base, n, ts[1..]);
    }
  }

  lemma {:induction false} MemoisedEvaluates(ps: map<Ty, Func>, base: map<Ty, Value>, s: State, t: Ty)
    requires Acyclic(ps, base) && Logged(ps, base, s) && t in s.singletons
    ensures Eval(ps, base, |ps|, t).Found?
  {
    forall p | PathFrom(ps, base, t, p) ensures Provided(ps, base, Last(p)) {
      MemoisedIsProvided(ps, base, s, t, p);
    }
    SucceedsIff(ps, base, t);
    AcyclicNeverOverflows(ps, base, |ps|, t);
  }

  /** The memo table that deterministic providers would have left. */
  ghost function Settled(ps: map<Ty, Func>, base: map<Ty, Value>, s: State): State
    requires forall t :: t in s.singletons ==> Eval(ps, base, |ps|, t).Found?
  {
    s.(singletons := map t | t in s.singletons :: Eval(ps, base, |ps|, t).value)
  }

  /** Whatever was memoised before, the arguments of a call come out as plain evaluation says, or fail as it says. */
  lemma {:induction false} ArgumentsLikePlain(ps: map<Ty, Func>, base: map<Ty, Value>, n: nat, ts: seq<Ty>, s: State)
    requires Acyclic(ps, base) && Logged(ps, base, s) && n >= |ps|
    ensures EvalAll(ps, base, n, ts) != Overflow
    ensures ResolvedAll(ps, n, ts, s).0.SameShape(EvalAll(ps, base, n, ts))
  {
    hide Acyclic;
    EvalAllNeverOverflows(ps, base, n, ts);
    forall t | t in s.singletons ensures Eval(ps, base, |ps|, t).Found? {
      MemoisedEvaluates(ps, base, s, t);
    }
    var u := Settled(ps, base, s);
    SettledIsConsistent(ps, base, s);
    ShapeAllFrozen(ps, n, ts, s, u);
    ResolvedAllAgrees(Frozen(ps), base, n, ts, u);
    EvalAllFrozen(ps, base, n, ts);
  }

  lemma {:induction false} SettledIsConsistent(ps: map<Ty, Func>, base: map<Ty, Value>, s: State)
    requires Supplied(base, s) && forall t :: t in s.singletons ==> Eval(ps, base, |ps|, t).Found?
    ensures Consistent(Frozen(ps), base, Settled(ps, base, s))
  {
    hide Frozen;
    var u := Settled(ps, base, s);
    forall t | t in u.singletons ensures Settles(Frozen(ps), base, t, Found(u.singletons[t])) {
      EvalFrozen(ps, base, |ps|, t);
    }
    forall t | t in base ensures u.singletons[t] == base[t] {
      assert t in s.singletons;
    }
  }

  lemma {:induction false} EvalAllFoundIff(ps: map<Ty, Func>, base: map<Ty, Value>, n: nat, ts: seq<Ty>)
    requires Acyclic(ps, base) && n >= |ps|
    ensures EvalAll(ps, base, n, ts).Found? <==> forall t :: t in ts ==> AllProvidedFrom(ps, base, t)
  {
    if ts != [] {
      var t := ts[0];
      SucceedsIff(ps, base, t);
      assert AcyclicFrom(ps, base, t);
      AcyclicNeverOverflows(ps, base, |ps|, t);
      EvalGrows(ps, base, |ps|, n, t);
      EvalAllFoundIff(ps, base, n, ts[1..]);
      assert forall u :: u in ts <==> u == t || u in ts[1..];
    }
  }

  lemma {:induction false} MissingIsFirstUnprovided(ps: map<Ty, Func>, base: map<Ty, Value>, n: nat, ts: seq<Ty>)
    requires EvalAll(ps, base, n, ts).Missing?
    ensures GapOf(ps, base, n, ts, EvalAll(ps, base, n, ts).t)
  {
    FirstStopAll(ps, base, n, ts);
    var (o, vs) := (EvalAll(ps, base, n, ts), PreorderAll(ps, base, n, ts));
    var i :| 0 <= i < |vs| && StopsFirstAt(ps, base, vs, i) && vs[i].t == o.t && !Provided(ps, base, o.t);
    forall k | 0 <= k < i ensures Provided(ps, base, vs[k].t) {
      assert !Stops(ps, base, vs[k]);
    }
    assert FirstUnprovided(ps, base, vs, i);
  }

  // ---------- a run of factories ----------

  /** The factories in the log, in order. */
  function FactoriesIn(calls: seq<Call>): seq<Func> {
    if calls == [] then []
    else
      var c := calls[|calls| - 1];
      FactoriesIn(calls[..|calls| - 1]) + (if c.callee.Factory? then [c.fn] else [])
  }

  lemma {:induction false} FactoriesInSnoc(calls: seq<Call>, c: Call)
    ensures FactoriesIn(calls + [c]) == FactoriesIn(calls) + if c.callee.Factory? then [c.fn] else []
  {
    assert (calls + [c])[..|calls|] == calls;
  }

  lemma {:induction false} ResolvedCallsNoFactory(ps: map<Ty, Func>, n: nat, t: Ty, s: State)
    ensures FactoriesIn(Resolved(ps, n, t, s).1.calls) == FactoriesIn(s.calls)
    decreases n, 0
  {
    if t !in s.singletons && t in ps && n > 0 {
      var s0 := s.(entries := s.entries + 1);
      ResolvedAllCallsNoFactory(ps, n - 1, ps[t].params, s0);
      var (o, s1) := ResolvedAll(ps, n - 1, ps[t].params, s0);
      if o.Found? {
        FactoriesInSnoc(s1.calls, Call(ProviderOf(t), ps[t], o.value, ps[t].body(o.value, |s1.calls|)));
      }
    }
  }

  lemma {:induction false} ResolvedAllCallsNoFactory(ps: map<Ty, Func>, n: nat, ts: seq<Ty>, s: State)
    ensures FactoriesIn(ResolvedAll(ps, n, ts, s).1.calls) == FactoriesIn(s.calls)
    decreases n, |ts|
  {
    hide FactoriesIn;
    if ts != [] {
      ResolvedCallsNoFactory(ps, n, ts[0], s);
      var (o, s1) := Resolved(ps, n, ts[0], s);
      if o.Found? {
        ResolvedAllCallsNoFactory(ps, n, ts[1..], s1);
      }
    }
  }

  /** How many factories come before the first that misses something. */
  ghost function Leading(ps: map<Ty, Func>, base: map<Ty, Value>, fs: seq<Func>): (i: nat)
    ensures i <= |fs| && (i == |fs| <==> Supported(ps, base, fs)) && (i < |fs| ==> FirstUnmet(ps, base, fs, i))
  {
    if fs == [] then 0
    else if !NeedsMet(ps, base, fs[0]) then 0
    else
      LeadingRest(ps, base, fs, Leading(ps, base, fs[1..]));
      1 + Leading(ps, base, fs[1..])
  }

  lemma {:induction false} LeadingRest(ps: map<Ty, Func>, base: map<Ty, Value>, fs: seq<Func>, i: nat)
    requires fs != [] && NeedsMet(ps, base, fs[0]) && i <= |fs[1..]|
    requires (i == |fs[1..]| <==> Supported(ps, base, fs[1..])) && (i < |fs[1..]| ==> FirstUnmet(ps, base, fs[1..], i))
    ensures (1 + i == |fs| <==> Supported(ps, base, fs)) && (1 + i < |fs| ==> FirstUnmet(ps, base, fs, 1 + i))
  {
    hide AllProvidedFrom;
    var rest := fs[1..];
    if Supported(ps, base, rest) {
      forall j, t | 0 <= j < |fs| && t in fs[j].params ensures AllProvidedFrom(ps, base, t) {
        assert j == 0 || fs[j] == rest[j - 1];
      }
    } else {
      assert !NeedsMet(ps, base, fs[1 + i]);
      forall j | 0 <= j < 1 + i ensures NeedsMet(ps, base, fs[j]) {
        assert j == 0 || fs[j] == rest[j - 1];
      }
    }
  }

  lemma {:induction false} LeadingOne(ps: map<Ty, Func>, base: map<Ty, Value>, fs: seq<Func>)
    requires fs != []
    ensures Leading(ps, base, fs) == if NeedsMet(ps, base, fs[0]) then 1 + Leading(ps, base, fs[1..]) else 0
  {
  }

  lemma {:induction false} OneFactory(ps: map<Ty, Func>, base: map<Ty, Value>, n: nat, f: Func, s: State)
    requires Acyclic(ps, base) && Logged(ps, base, s) && n >= |ps|
    ensures var (o, s') := Invoked(ps, n, f, s);
      && (o.Found? <==> NeedsMet(ps, base, f))
      && (!o.Found? ==> o.Missing? && EvalAll(ps, base, n, f.params) == Missing(o.t))
      && FactoriesIn(s'.calls) == FactoriesIn(s.calls) + if o.Found? then [f] else []
  {
    hide Acyclic, Logged, FactoriesIn, AllProvidedFrom, ResolvedAll, EvalAll;
    var (args, s1) := ResolvedAll(ps, n, f.params, s);
    ArgumentsLikePlain(ps, base, n, f.params, s);
    EvalAllFoundIff(ps, base, n, f.params);
    ResolvedAllCallsNoFactory(ps, n, f.params, s);
    if args.Found? {
      FactoriesInSnoc(s1.calls, Call(Factory, f, args.value, f.body(args.value, |s1.calls|)));
    }
  }

  /**
    A run of factories calls those before the first that misses something, in order; it succeeds when there
    is none such, and otherwise fails as that one does.
   */
  lemma {:induction false} FactoryRun(ps: map<Ty, Func>, base: map<Ty, Value>, rank: Ty -> nat, n: nat,
                                      fs: seq<Func>, s: State)
    requires Acyclic(ps, base) && Ranked(ps, base, rank) && Logged(ps, base, s) && n >= |ps|
    ensures var (o, s') := InvokedMany(ps, n, fs, s);
      var i := Leading(ps, base, fs);
      && FactoriesIn(s'.calls) == FactoriesIn(s.calls) + fs[..i]
      && (o.Found? <==> i == |fs|)
      && (i < |fs| ==> o.Missing? && EvalAll(ps, base, n, fs[i].params) == Missing(o.t))
  {
    hide Acyclic, Ranked, Logged, FactoriesIn, Supported, FirstUnmet, NeedsMet, Invoked, EvalAll, Leading;
    if fs == [] {
      assert FactoriesIn(s.calls) + fs[..0] == FactoriesIn(s.calls);
    } else {
      var (f, rest) := (fs[0], fs[1..]);
      var (head, s2) := Invoked(ps, n, f, s);
      OneFactory(ps, base, n, f, s);
      LeadingOne(ps, base, fs);
      if head.Found? {
        InvokedLogged(ps, base, rank, n, f, s);
        FactoryRun(ps, base, rank, n, rest, s2);
        var i := Leading(ps, base, rest);
        assert FactoriesIn(s.calls) + fs[..1 + i] == (FactoriesIn(s.calls) + [f]) + rest[..i];
        assert i < |rest| ==> rest[i] == fs[1 + i];
      } else {
        assert FactoriesIn(s.calls) + fs[..0] == FactoriesIn(s.calls) + [];
      }
    }
  }

  lemma {:induction false} FactoryRunNames(ps: map<Ty, Func>, base: map<Ty, Value>, rank: Ty -> nat, n: nat,
                                           fs: seq<Func>, s: State, t: Ty)
    requires Acyclic(ps, base) && Ranked(ps, base, rank) && Logged(ps, base, s) && n >= |ps|
    ensures InvokedMany(ps, n, fs, s).0 == Missing(t) <==> FirstGap(ps, base, n, fs, t)
    ensures InvokedMany(ps, n, fs, s).0.Found? <==> Supported(ps, base, fs)
    ensures InvokedMany(ps, n, fs, s).0 != Overflow
  {
    hide Acyclic, Ranked, Logged, Supported, GapOf, NeedsMet;
    FactoryRun(ps, base, rank, n, fs, s);
    var i := Leading(ps, base, fs);
    if i < |fs| {
      MissingIsFirstUnprovided(ps, base, n, fs[i].params);
      var u := InvokedMany(ps, n, fs, s).0.t;
      assert FirstGap(ps, base, n, fs, u);
      if FirstGap(ps, base, n, fs, t) {
        OneFirstGap(ps, base, n, fs, t, u);
      }
    } else if FirstGap(ps, base, n, fs, t) {
      var j :| FirstUnmet(ps, base, fs, j);
      NoneUnmet(ps, base, fs, j);
    }
  }

  lemma {:induction false} NoneUnmet(ps: map<Ty, Func>, base: map<Ty, Value>, fs: seq<Func>, i: int)
    requires Supported(ps, base, fs)
    ensures !FirstUnmet(ps, base, fs, i)
  {
  }

  // ---------- the whole Build ----------

  /** The ports are set and open, and this is the first Build. */
  predicate Started(plan: Plan, outside: Outside) {
    && plan.grpcPort != "" && plan.httpPort != "" && outside.grpcListens && outside.httpListens
    && !plan.interceptorsSet
  }

  /** All that precedes TLS is there. */
  ghost predicate Served(ps: map<Ty, Func>, base: map<Ty, Value>, plan: Plan, outside: Outside) {
    Started(plan, outside) && Supported(ps, base, plan.services) && Supported(ps, base, plan.controllers)
  }

  /** All that precedes the activities is there, if they are asked for. */
  ghost predicate Dialled(ps: map<Ty, Func>, base: map<Ty, Value>, plan: Plan, outside: Outside) {
    && Served(ps, base, plan, outside) && (plan.ssl ==> outside.sslConfigures)
    && plan.temporal && outside.temporalDials
  }

  /** Over tables without a cycle: exactly which error a Build returns. */
  lemma {:induction false} BuildErrorIff(ps: map<Ty, Func>, stack: nat, plan: Plan, outside: Outside,
                                         base: map<Ty, Value>, t: Ty)
    requires Acyclic(ps, base) && stack >= |ps|
    ensures var r := BuildOutcome(ps, stack, plan, outside, Initial(base)).0;
      && (r == NotBuilt(PortsUnset) <==> plan.grpcPort == "" || plan.httpPort == "")
      && (r == NotBuilt(ListenFailed) <==>
            plan.grpcPort != "" && plan.httpPort != "" && (!outside.grpcListens || !outside.httpListens))
      && (r == NotBuilt(InterceptorsSet) <==>
            && plan.grpcPort != "" && plan.httpPort != "" && outside.grpcListens && outside.httpListens
            && plan.interceptorsSet)
      && (r == NotBuilt(ServiceFailed(t)) <==>
            Started(plan, outside) && FirstGap(ps, base, stack, plan.services, t))
      && (r == NotBuilt(ControllerFailed(t)) <==>
            && Started(plan, outside) && Supported(ps, base, plan.services)
            && FirstGap(ps, base, stack, plan.controllers, t))
      && (r == NotBuilt(SslFailed) <==> Served(ps, base, plan, outside) && plan.ssl && !outside.sslConfigures)
      && (r == NotBuilt(TemporalFailed) <==>
            && Served(ps, base, plan, outside) && (plan.ssl ==> outside.sslConfigures)
            && plan.temporal && !outside.temporalDials)
      && (r == NotBuilt(ActivityFailed(t)) <==>
            Dialled(ps, base, plan, outside) && FirstGap(ps, base, stack, plan.activities, t))
      && r != NotBuilt(Crashed)
  {
    hide Acyclic, Logged, Ranked, Supported, FirstGap;
    var rank := AcyclicHasRank(ps, base);
    var s := Initial(base);
    var s1 := InvokedMany(ps, stack, plan.services, s).1;
    var s2 := InvokedMany(ps, stack, plan.controllers, s1).1;
    InitialLogged(ps, base);
    InvokedManyLogged(ps, base, rank, stack, plan.services, s);
    InvokedManyLogged(ps, base, rank, stack, plan.controllers, s1);
    FactoryRunNames(ps, base, rank, stack, plan.services, s, t);
    FactoryRunNames(ps, base, rank, stack, plan.controllers, s1, t);
    FactoryRunNames(ps, base, rank, stack, plan.activities, s2, t);
  }

  /** The leading factories of a group, if the Build gets to it. */
  ghost function CalledOf(ps: map<Ty, Func>, base: map<Ty, Value>, fs: seq<Func>, reached: bool): seq<Func> {
    if reached then fs[..Leading(ps, base, fs)] else []
  }

  /** And which factories it calls, however it ends: each group up to the first that misses something. */
  lemma {:induction false} BuildCallsExactly(ps: map<Ty, Func>, stack: nat, plan: Plan, outside: Outside,
                                             base: map<Ty, Value>)
    requires Acyclic(ps, base) && stack >= |ps|
    ensures var calls := BuildOutcome(ps, stack, plan, outside, Initial(base)).1.calls;
      FactoriesIn(calls)
      == CalledOf(ps, base, plan.services, Started(plan, outside))
       + CalledOf(ps, base, plan.controllers, Started(plan, outside) && Supported(ps, base, plan.services))
       + CalledOf(ps, base, plan.activities, Dialled(ps, base, plan, outside))
  {
    hide Acyclic, Logged, Ranked, Supported, Leading, FirstUnmet, EvalAll, InvokedMany, FactoriesIn;
    var rank := AcyclicHasRank(ps, base);
    var s := Initial(base);
    var s1 := InvokedMany(ps, stack, plan.services, s).1;
    var s2 := InvokedMany(ps, stack, plan.controllers, s1).1;
    InitialLogged(ps, base);
    InvokedManyLogged(ps, base, rank, stack, plan.services, s);
    InvokedManyLogged(ps, base, rank, stack, plan.controllers, s1);
    FactoryRun(ps, base, rank, stack, plan.services, s);
    FactoryRun(ps, base, rank, stack, plan.controllers, s1);
    FactoryRun(ps, base, rank, stack, plan.activities, s2);
    NoFactories();
    var (a, b, c) := (plan.services[..Leading(ps, base, plan.services)],
                      plan.controllers[..Leading(ps, base, plan.controllers)],
                      plan.activities[..Leading(ps, base, plan.activities)]);
    assert [] + a == a && [] + a + b == a + b && [] + a + b + c == a + b + c;
    assert a + [] + [] == a && a + b + [] == a + b;
  }

  lemma {:induction false} NoFactories()
    ensures FactoriesIn([]) == []
  {
  }

  // ---------- one builder, several Builds ----------

  predicate Opens(plan: Plan, outside: Outside) {
    plan.grpcPort != "" && plan.httpPort != "" && outside.grpcListens && outside.httpListens
  }

  /** The plans of one builder at its Builds; nothing is done in between to its server options. */
  predicate Untouched(plans: seq<Plan>, outsides: seq<Outside>) {
    && |plans| == |outsides|
    && forall k :: 0 <= k < |plans| - 1 ==>
         plans[k + 1].interceptorsSet == PlanAfter(plans[k], outsides[k]).interceptorsSet
  }

  lemma {:induction false} InterceptorsSetIff(plans: seq<Plan>, outsides: seq<Outside>, j: nat)
    requires Untouched(plans, outsides) && j < |plans|
    ensures plans[j].interceptorsSet <==>
      plans[0].interceptorsSet || exists i :: 0 <= i < j && Opens(plans[i], outsides[i])
  {
    if j > 0 {
      InterceptorsSetIff(plans, outsides, j - 1);
      assert plans[j].interceptorsSet <==>
        plans[j - 1].interceptorsSet || Opens(plans[j - 1], outsides[j - 1]);
    }
  }

  /**
    A Build panics in grpc.NewServer exactly when it gets past the listeners and an earlier one did, or the
    options held interceptors from the start. A Build changes nothing else of the plan.
   */
  lemma {:induction false} BuildPanicsIff(plans: seq<Plan>, outsides: seq<Outside>, j: nat,
                                          ps: map<Ty, Func>, stack: nat, base: map<Ty, Value>)
    requires Untouched(plans, outsides) && j < |plans|
    ensures BuildOutcome(ps, stack, plans[j], outsides[j], Initial(base)).0 == NotBuilt(InterceptorsSet) <==>
      && Opens(plans[j], outsides[j])
      && (plans[0].interceptorsSet || exists i :: 0 <= i < j && Opens(plans[i], outsides[i]))
    ensures PlanAfter(plans[j], outsides[j]).(interceptorsSet := plans[j].interceptorsSet) == plans[j]
  {
    InterceptorsSetIff(plans, outsides, j);
    PanicOf(ps, stack, plans[j], outsides[j], base);
  }

  lemma {:induction false} PanicOf(ps: map<Ty, Func>, stack: nat, plan: Plan, outside: Outside, base: map<Ty, Value>)
    ensures BuildOutcome(ps, stack, plan, outside, Initial(base)).0 == NotBuilt(InterceptorsSet)
       <==> Opens(plan, outside) && plan.interceptorsSet
  {
  }
}
