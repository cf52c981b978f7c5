/**
  The fluent builder (server/builder.go): what each registration does to the tables, and Build as a
  run of the factories over one container. Sockets, TLS and the Temporal dial are outcomes handed in.
 */
module Wiring {
  import opened Wrappers
  import opened Container
  import opened DependencyGraph
  import opened CallLog
  import opened Memoisation

  datatype Tables = Tables(singletons: map<Ty, Value>, providers: map<Ty, Func>)

  /** A registration that touches the tables; `Func?` arguments that are not functions are `None`. */
  datatype Registration =
    | Provide(value: Value)
    | ProvideAs(value: Value, iface: Ty)
    | ProvideFunc(fn: Option<Func>)

  /** `None` is logger.Fatal, which ends the process. */
  function Registered(implements: (Ty, Ty) -> bool, tables: Tables, r: Registration): Option<Tables> {
    match r
    case Provide(v) => Some(tables.(singletons := tables.singletons[v.typ := v]))
    case ProvideAs(v, iface) =>
      if implements(v.typ, iface) then Some(tables.(singletons := tables.singletons[iface := v])) else None
    case ProvideFunc(None) => None
    case ProvideFunc(Some(f)) => Some(tables.(providers := tables.providers[f.out := f]))
  }

  function RegisteredAll(implements: (Ty, Ty) -> bool, tables: Tables, rs: seq<Registration>): Option<Tables>
    decreases |rs|
  {
    if rs == [] then Some(tables)
    else
      var t := Registered(implements, tables, rs[0]);
      if t.Some? then RegisteredAll(implements, t.value, rs[1..]) else None
  }

  // ---------- what registrations leave behind ----------

  predicate EndsProcess(implements: (Ty, Ty) -> bool, r: Registration) {
    (r.ProvideAs? && !implements(r.value.typ, r.iface)) || (r.ProvideFunc? && r.fn.None?)
  }

  /** The registration supplies an instance for `t`. */
  predicate SuppliesFor(r: Registration, t: Ty) {
    (r.Provide? && r.value.typ == t) || (r.ProvideAs? && r.iface == t)
  }

  predicate ProvidesFor(r: Registration, t: Ty) {
    r.ProvideFunc? && r.fn.Some? && r.fn.value.out == t
  }

  predicate LastSupplies(rs: seq<Registration>, t: Ty, i: int) {
    0 <= i < |rs| && SuppliesFor(rs[i], t) && forall j :: i < j < |rs| ==> !SuppliesFor(rs[j], t)
  }

  predicate LastProvides(rs: seq<Registration>, t: Ty, i: int) {
    0 <= i < |rs| && ProvidesFor(rs[i], t) && forall j :: i < j < |rs| ==> !ProvidesFor(rs[j], t)
  }

  ghost predicate SuppliedBy(before: map<Ty, Value>, after: map<Ty, Value>, rs: seq<Registration>, t: Ty) {
    if exists i :: 0 <= i < |rs| && SuppliesFor(rs[i], t) then
      t in after && exists i :: LastSupplies(rs, t, i) && after[t] == rs[i].value
    else (t in after <==> t in before) && (t in before ==> after[t] == before[t])
  }

  ghost predicate ProvidedBy(before: map<Ty, Func>, after: map<Ty, Func>, rs: seq<Registration>, t: Ty) {
    if exists i :: 0 <= i < |rs| && ProvidesFor(rs[i], t) then
      t in after && exists i :: LastProvides(rs, t, i) && after[t] == rs[i].fn.value
    else (t in after <==> t in before) && (t in before ==> after[t] == before[t])
  }

  /**
    After any registrations: the process has ended exactly when one of them demanded it; otherwise each
    type has the instance supplied last and the provider registered last, or what it had before.
   */
  lemma {:induction false} RegistrationsReadBack(implements: (Ty, Ty) -> bool, tables: Tables,
                                                 rs: seq<Registration>, t: Ty)
    ensures var after := RegisteredAll(implements, tables, rs);
      && (after.None? <==> exists i :: 0 <= i < |rs| && EndsProcess(implements, rs[i]))
      && (after.Some? ==>
            && SuppliedBy(tables.singletons, after.value.singletons, rs, t)
            && ProvidedBy(tables.providers, after.value.providers, rs, t))
    decreases |rs|
  {
    if rs != [] {
      var (r, rest) := (rs[0], rs[1..]);
      var next := Registered(implements, tables, r);
      assert next.None? <==> EndsProcess(implements, r);
      assert forall i :: 1 <= i < |rs| ==> rs[i] == rest[i - 1];
      if next.Some? {
        RegistrationsReadBack(implements, next.value, rest, t);
        var after := RegisteredAll(implements, next.value, rest);
        if i :| 0 <= i < |rest| && EndsProcess(implements, rest[i]) {
          assert EndsProcess(implements, rs[i + 1]);
        }
        if after.Some? {
          SuppliedByRest(tables.singletons, next.value.singletons, after.value.singletons, rs, t);
          ProvidedByRest(tables.providers, next.value.providers, after.value.providers, rs, t);
        }
      }
    }
  }

  lemma {:induction false} SuppliedByRest(before: map<Ty, Value>, next: map<Ty, Value>, after: map<Ty, Value>,
                                          rs: seq<Registration>, t: Ty)
    requires rs != [] && SuppliedBy(next, after, rs[1..], t)
    requires if SuppliesFor(rs[0], t) then t in next && next[t] == rs[0].value
             else (t in next <==> t in before) && (t in before ==> next[t] == before[t])
    ensures SuppliedBy(before, after, rs, t)
  {
    var rest := rs[1..];
    assert forall i :: 1 <= i < |rs| ==> rs[i] == rest[i - 1];
    if i :| LastSupplies(rest, t, i) && t in after && after[t] == rest[i].value {
      assert SuppliesFor(rs[i + 1], t);
      assert LastSupplies(rs, t, i + 1);
    } else if SuppliesFor(rs[0], t) {
      assert LastSupplies(rs, t, 0);
    }
  }

  lemma {:induction false} ProvidedByRest(before: map<Ty, Func>, next: map<Ty, Func>, after: map<Ty, Func>,
                                          rs: seq<Registration>, t: Ty)
    requires rs != [] && ProvidedBy(next, after, rs[1..], t)
    requires if ProvidesFor(rs[0], t) then t in next && next[t] == rs[0].fn.value
             else (t in next <==> t in before) && (t in before ==> next[t] == before[t])
    ensures ProvidedBy(before, after, rs, t)
  {
    var rest := rs[1..];
    assert forall i :: 1 <= i < |rs| ==> rs[i] == rest[i - 1];
    if i :| LastProvides(rest, t, i) && t in after && after[t] == rest[i].fn.value {
      assert ProvidesFor(rs[i + 1], t);
      assert LastProvides(rs, t, i + 1);
    } else if ProvidesFor(rs[0], t) {
      assert LastProvides(rs, t, 0);
    }
  }

  // ---------- the Build ----------

  /** What the calls outside this repository answer during a Build. */
  datatype Outside = Outside(grpcListens: bool, httpListens: bool, sslConfigures: bool, temporalDials: bool)

  /** `InterceptorsSet` is the panic of grpc.NewServer, `Crashed` the stack overflow; the others are returned. */
  datatype BuildError =
    | PortsUnset | ListenFailed | SslFailed | TemporalFailed
    | ServiceFailed(t: Ty) | ControllerFailed(t: Ty) | ActivityFailed(t: Ty)
    | InterceptorsSet | Crashed

  datatype BuildResult =
    | Built(services: seq<Value>, controllers: seq<Value>, activities: seq<Value>)
    | NotBuilt(error: BuildError)

  /** `interceptorsSet`: the server options hold interceptors already, which grpc.NewServer takes only once. */
  datatype Plan = Plan(grpcPort: string, httpPort: string, services: seq<Func>, controllers: seq<Func>,
                       activities: seq<Func>, ssl: bool, temporal: bool, interceptorsSet: bool)

  function ListenError(plan: Plan, outside: Outside): Option<BuildError> {
    if plan.grpcPort == "" || plan.httpPort == "" then Some(PortsUnset)
    else if !outside.grpcListens || !outside.httpListens then Some(ListenFailed)
    else None
  }

  function Failure(o: Outcome<seq<Value>>, missing: Ty -> BuildError): BuildResult
    requires !o.Found?
  {
    NotBuilt(if o.Missing? then missing(o.t) else Crashed)
  }

  function BuildOutcome(ps: map<Ty, Func>, stack: nat, plan: Plan, outside: Outside, s: State): (BuildResult, State) {
    var e := ListenError(plan, outside);
    if e.Some? then (NotBuilt(e.value), s)
    else if plan.interceptorsSet then (NotBuilt(InterceptorsSet), s)
    else
      var (services, s1) := InvokedMany(ps, stack, plan.services, s);
      if !services.Found? then (Failure(services, t => ServiceFailed(t)), s1)
      else
        var (controllers, s2) := InvokedMany(ps, stack, plan.controllers, s1);
        if !controllers.Found? then (Failure(controllers, t => ControllerFailed(t)), s2)
        else if plan.ssl && !outside.sslConfigures then (NotBuilt(SslFailed), s2)
        else if !plan.temporal then (Built(services.value, controllers.value, []), s2)
        else if !outside.temporalDials then (NotBuilt(TemporalFailed), s2)
        else
          var (activities, s3) := InvokedMany(ps, stack, plan.activities, s2);
          if !activities.Found? then (Failure(activities, t => ActivityFailed(t)), s3)
          else (Built(services.value, controllers.value, activities.value), s3)
  }

  /** A Build that gets past the listeners leaves its interceptors in the server options. */
  function PlanAfter(plan: Plan, outside: Outside): Plan {
    if ListenError(plan, outside).None? then plan.(interceptorsSet := true) else plan
  }

  class Builder {
    const singletons: Table<Value>
    const providers: Table<Func>
    // reflect.Type.Implements, and the RestController interface type.
    const implements: (Ty, Ty) -> bool
    const restController: Ty
    var plan: Plan

    constructor (implements: (Ty, Ty) -> bool, restController: Ty)
      ensures fresh(singletons) && fresh(providers)
      ensures this.implements == implements && this.restController == restController
      ensures Current() == Tables(map[], map[])
      ensures plan == Plan("", "", [], [], [], false, false, false)
    {
      singletons := new Table<Value>();
      providers := new Table<Func>();
      this.implements, this.restController := implements, restController;
      plan := Plan("", "", [], [], [], false, false, false);
    }

    ghost function Current(): Tables
      reads singletons, providers
    {
      Tables(singletons.m, providers.m)
    }

    method Provide(value: Value)
      modifies singletons
      ensures Some(Current()) == Registered(implements, old(Current()), Registration.Provide(value))
    {
      singletons.m := singletons.m[value.typ := value];
    }

    method ProvideAs(value: Value, iface: Ty) returns (fatal: bool)
      modifies singletons
      ensures (if fatal then None else Some(Current()))
           == Registered(implements, old(Current()), Registration.ProvideAs(value, iface))
      ensures fatal ==> Current() == old(Current())
    {
      if !implements(value.typ, iface) {
        return true;
      }
      singletons.m := singletons.m[iface := value];
      return false;
    }

    method ProvideFunc(fn: Option<Func>) returns (fatal: bool)
      modifies providers
      ensures (if fatal then None else Some(Current()))
           == Registered(implements, old(Current()), Registration.ProvideFunc(fn))
      ensures fatal ==> Current() == old(Current())
    {
      if fn == None {
        return true;
      }
      providers.m := providers.m[fn.value.out := fn.value];
      return false;
    }

    method RegisterService(factory: Option<Func>) returns (fatal: bool)
      modifies `plan
      ensures fatal == factory.None?
      ensures plan == if fatal then old(plan) else old(plan).(services := old(plan).services + [factory.value])
    {
      if factory == None {
        return true;
      }
      plan := plan.(services := plan.services + [factory.value]);
      return false;
    }

    method AddRestController(factory: Option<Func>) returns (fatal: bool)
      modifies `plan
      ensures fatal == (factory.None? || !implements(factory.value.out, restController))
      ensures plan == if fatal then old(plan) else old(plan).(controllers := old(plan).controllers + [factory.value])
    {
      if factory == None || !implements(factory.value.out, restController) {
        return true;
      }
      plan := plan.(controllers := plan.controllers + [factory.value]);
      return false;
    }

    method RegisterTemporalActivity(factory: Option<Func>) returns (fatal: bool)
      modifies `plan
      ensures fatal == factory.None?
      ensures plan == if fatal then old(plan) else old(plan).(activities := old(plan).activities + [factory.value])
    {
      if factory == None {
        return true;
      }
      plan := plan.(activities := plan.activities + [factory.value]);
      return false;
    }

    method InvokeEach(ctn: Injector, fs: seq<Func>, stack: nat) returns (r: Outcome<seq<Value>>)
      requires ctn.singletons == singletons && ctn.providers == providers
      modifies ctn, singletons
      ensures (r, ctn.Abs()) == InvokedMany(providers.m, stack, fs, old(ctn.Abs()))
      ensures providers.m == old(providers.m)
    {
      ghost var s0 := ctn.Abs();
      var made: seq<Value> := [];
      assert fs[0..] == fs && forall xs: seq<Value> :: made + xs == xs;
      for i := 0 to |fs|
        invariant |made| == i
        invariant providers.m == old(providers.m)
        invariant InvokedMany(providers.m, stack, fs, s0)
               == Prepend(made, InvokedMany(providers.m, stack, fs[i..], ctn.Abs()))
      {
        var v := ctn.InvokeFactory(fs[i], stack);
        assert fs[i..][1..] == fs[i + 1..];
        if !v.Found? {
          return v.Failed();
        }
        assert forall xs: seq<Value> :: made + ([v.value] + xs) == (made + [v.value]) + xs;
        made := made + [v.value];
      }
      assert made + [] == made;
      return Found(made);
    }

    /** The container shares the builder's two maps, so what it memoises stays in the builder. */
    method Build(outside: Outside, stack: nat) returns (r: BuildResult, ctn: Injector)
      modifies singletons, `plan
      ensures fresh(ctn) && ctn.singletons == singletons && ctn.providers == providers
      ensures (r, ctn.Abs()) == BuildOutcome(providers.m, stack, old(plan), outside, old(Initial(singletons.m)))
      ensures providers.m == old(providers.m) && plan == PlanAfter(old(plan), outside)
    {
      ctn := new Injector(singletons, providers);
      if plan.grpcPort == "" || plan.httpPort == "" {
        return NotBuilt(PortsUnset), ctn;
      }
      if !outside.grpcListens || !outside.httpListens {
        return NotBuilt(ListenFailed), ctn;
      }
      if plan.interceptorsSet {
        return NotBuilt(InterceptorsSet), ctn;
      }
      plan := plan.(interceptorsSet := true);
      var services := InvokeEach(ctn, plan.services, stack);
      if !services.Found? {
        return Failure(services, t => ServiceFailed(t)), ctn;
      }
      var controllers := InvokeEach(ctn, plan.controllers, stack);
      if !controllers.Found? {
        return Failure(controllers, t => ControllerFailed(t)), ctn;
      }
      if plan.ssl && !outside.sslConfigures {
        return NotBuilt(SslFailed), ctn;
      }
      if !plan.temporal {
        return Built(services.value, controllers.value, []), ctn;
      }
      if !outside.temporalDials {
        return NotBuilt(TemporalFailed), ctn;
      }
      var activities := InvokeEach(ctn, plan.activities, stack);
      if !activities.Found? {
        return Failure(activities, t => ActivityFailed(t)), ctn;
      }
      return Built(services.value, controllers.value, activities.value), ctn;
    }
  }

  // ---------- the whole Build ----------

  function PlannedFactories(plan: Plan): seq<Func> {
    plan.services + plan.controllers + plan.activities
  }

  lemma {:induction false} ArityOfConcat(fs: seq<Func>, gs: seq<Func>)
    ensures FactoryArities(fs + gs) == FactoryArities(fs) + FactoryArities(gs)
  {
    if fs == [] {
      assert fs + gs == gs;
    } else {
      assert (fs + gs)[1..] == fs[1..] + gs;
      ArityOfConcat(fs[1..], gs);
    }
  }

  /** One group of factories: the invariant is kept, and the entries stay within what is still open. */
  lemma {:induction false} GroupOfFactories(ps: map<Ty, Func>, base: map<Ty, Value>, n: nat, fs: seq<Func>, s: State)
    requires Acyclic(ps, base) && Logged(ps, base, s)
    ensures var (o, s') := InvokedMany(ps, n, fs, s);
      && Logged(ps, base, s')
      && s'.entries <= s.entries + FactoryArities(fs) + Open(ps, s)
      && (o.Found? ==> s'.entries + Open(ps, s') <= s.entries + FactoryArities(fs) + Open(ps, s))
  {
    BuildLogged(ps, base, n, fs, s);
    BuildEntries(ps, base, n, fs, s);
    var s' := InvokedMany(ps, n, fs, s).1;
    AddedAreProvided(ps, base, s, s');
    AritiesGrow(ps, Added(s, s'), ps.Keys - s'.singletons.Keys, ps.Keys - s.singletons.Keys);
  }

  /** The parameters of the providers that are not memoised yet. */
  ghost function Open(ps: map<Ty, Func>, s: State): nat {
    Arities(ps, ps.Keys - s.singletons.Keys)
  }

  lemma {:induction false} AddedAreProvided(ps: map<Ty, Func>, base: map<Ty, Value>, s: State, s': State)
    requires Logged(ps, base, s') && Supplied(base, s)
    ensures Added(s, s') <= ps.Keys
  {
    forall t | t in Added(s, s') ensures t in ps {
      var j :| 0 <= j < |s'.calls| && s'.calls[j].callee == ProviderOf(t);
      assert CallSound(ps, base, s', j);
    }
  }

  lemma {:induction false} AcyclicPastMemo(ps: map<Ty, Func>, base: map<Ty, Value>, s: State, t: Ty)
    requires Acyclic(ps, base) && Supplied(base, s)
    ensures AcyclicFrom(ps, s.singletons, t)
  {
    forall p | PathFrom(ps, s.singletons, t, p) ensures Simple(p) {
      forall i | 0 <= i < |p| - 1 ensures Edge(ps, base, p[i], p[i + 1]) {
        assert Edge(ps, s.singletons, p[i], p[i + 1]);
      }
      assert AcyclicFrom(ps, base, t) && PathFrom(ps, base, t, p);
    }
  }

  lemma {:induction false} NoOverflow(ps: map<Ty, Func>, base: map<Ty, Value>, n: nat, t: Ty, s: State)
    requires Acyclic(ps, base) && Supplied(base, s) && n >= |ps|
    ensures Resolved(ps, n, t, s).0 != Overflow
  {
    AcyclicPastMemo(ps, base, s, t);
    AcyclicNeverOverflows(ps, s.singletons, n, t);
    ShapeOfResolve(ps, n, t, s);
  }

  lemma {:induction false} NoOverflowAll(ps: map<Ty, Func>, base: map<Ty, Value>, rank: Ty -> nat, n: nat, ts: seq<Ty>,
                                         s: State)
    requires Acyclic(ps, base) && Ranked(ps, base, rank) && Logged(ps, base, s) && n >= |ps|
    ensures ResolvedAll(ps, n, ts, s).0 != Overflow
  {
    if ts != [] {
      NoOverflow(ps, base, n, ts[0], s);
      ResolvedLogged(ps, base, rank, n, ts[0], s);
      NoOverflowAll(ps, base, rank, n, ts[1..], Resolved(ps, n, ts[0], s).1);
    }
  }

  lemma {:induction false} NoOverflowMany(ps: map<Ty, Func>, base: map<Ty, Value>, rank: Ty -> nat, n: nat,
                                          fs: seq<Func>, s: State)
    requires Acyclic(ps, base) && Ranked(ps, base, rank) && Logged(ps, base, s) && n >= |ps|
    ensures InvokedMany(ps, n, fs, s).0 != Overflow
  {
    if fs != [] {
      NoOverflowAll(ps, base, rank, n, fs[0].params, s);
      InvokedLogged(ps, base, rank, n, fs[0], s);
      NoOverflowMany(ps, base, rank, n, fs[1..], Invoked(ps, n, fs[0], s).1);
    }
  }

  /**
    A Build over tables without a cycle, however it ends: no provider is called twice or for a supplied
    type, each after the providers it depends on, all who need a type get the same instance, and
    `resolve` is entered at most once per registered parameter and once per provider parameter.
   */
  lemma {:induction false} WholeBuild(ps: map<Ty, Func>, stack: nat, plan: Plan, outside: Outside, base: map<Ty, Value>)
    requires Acyclic(ps, base)
    ensures var s' := BuildOutcome(ps, stack, plan, outside, Initial(base)).1;
      && Logged(ps, base, s')
      && s'.entries <= FactoryArities(PlannedFactories(plan)) + Arities(ps, ps.Keys - base.Keys)
  {
    hide Acyclic, Logged, Arities;
    InitialLogged(ps, base);
    var s := Initial(base);
    var (services, s1) := InvokedMany(ps, stack, plan.services, s);
    ArityOfConcat(plan.services + plan.controllers, plan.activities);
    ArityOfConcat(plan.services, plan.controllers);
    GroupOfFactories(ps, base, stack, plan.services, s);
    var (controllers, s2) := InvokedMany(ps, stack, plan.controllers, s1);
    GroupOfFactories(ps, base, stack, plan.controllers, s1);
    GroupOfFactories(ps, base, stack, plan.activities, s2);
  }

  /** Without a cycle, a stack as deep as the provider table does not overflow. */
  lemma {:induction false} BuildDoesNotCrash(ps: map<Ty, Func>, stack: nat, plan: Plan, outside: Outside,
                                             base: map<Ty, Value>)
    requires Acyclic(ps, base) && stack >= |ps|
    ensures BuildOutcome(ps, stack, plan, outside, Initial(base)).0 != NotBuilt(Crashed)
  {
    var rank := AcyclicHasRank(ps, base);
    var s := Initial(base);
    var s1 := InvokedMany(ps, stack, plan.services, s).1;
    var s2 := InvokedMany(ps, stack, plan.controllers, s1).1;
    NoOverflowMany(ps, base, rank, stack, plan.services, s);
    BuildLogged(ps, base, stack, plan.services, s);
    NoOverflowMany(ps, base, rank, stack, plan.controllers, s1);
    BuildLogged(ps, base, stack, plan.controllers, s1);
    NoOverflowMany(ps, base, rank, stack, plan.activities, s2);
  }

  // ---------- when a Build succeeds, and what it delivers ----------

  /** Whatever was memoised has everything below it provided. */
  lemma {:induction false} MemoisedIsProvided(ps: map<Ty, Func>, base: map<Ty, Value>, s: State, t: Ty, p: seq<Ty>)
    requires Logged(ps, base, s) && t in s.singletons && PathFrom(ps, base, t, p)
    ensures Provided(ps, base, Last(p))
    decreases |p|
  {
    if t !in base {
      var j :| 0 <= j < |s.calls| && s.calls[j].callee == ProviderOf(t);
      assert CallSound(ps, base, s, j);
      if |p| > 1 {
        assert Edge(ps, base, p[0], p[1]);
        var k :| 0 <= k < |ps[t].params| && ps[t].params[k] == p[1];
        assert ArgumentFiled(base, s, j, k);
        PathTail(ps, base, t, p);
        MemoisedIsProvided(ps, base, s, p[1], p[1..]);
      }
    } else {
      assert |p| > 1 ==> Edge(ps, base, p[0], p[1]);
    }
  }

  lemma {:induction false} PathTail(ps: map<Ty, Func>, base: map<Ty, Value>, t: Ty, p: seq<Ty>)
    requires PathFrom(ps, base, t, p) && |p| > 1
    ensures PathFrom(ps, base, p[1], p[1..]) && Last(p[1..]) == Last(p)
  {
    forall i | 0 <= i < |p[1..]| - 1 ensures Edge(ps, base, p[1..][i], p[1..][i + 1]) {
      assert Edge(ps, base, p[i + 1], p[i + 2]);
    }
  }

  /** A path of the starting graph ends in something provided, if all paths cut at the memo table do. */
  lemma {:induction false} ProvidedPastMemo(ps: map<Ty, Func>, base: map<Ty, Value>, s: State, t: Ty, p: seq<Ty>)
    requires Logged(ps, base, s) && AllProvidedFrom(ps, s.singletons, t) && PathFrom(ps, base, t, p)
    ensures Provided(ps, base, Last(p))
    decreases |p|
  {
    if t in s.singletons {
      MemoisedIsProvided(ps, base, s, t, p);
    } else if |p| == 1 {
      assert PathFrom(ps, s.singletons, t, [t]) && Last([t]) == t && Last(p) == t;
    } else {
      assert Edge(ps, base, p[0], p[1]);
      assert Edge(ps, s.singletons, t, p[1]);
      forall q | PathFrom(ps, s.singletons, p[1], q) ensures Provided(ps, s.singletons, Last(q)) {
        var r := [t] + q;
        forall i | 0 <= i < |r| - 1 ensures Edge(ps, s.singletons, r[i], r[i + 1]) {
          assert i == 0 || Edge(ps, s.singletons, q[i - 1], q[i - 1 + 1]);
        }
        assert PathFrom(ps, s.singletons, t, r) && Last(r) == Last(q);
      }
      PathTail(ps, base, t, p);
      ProvidedPastMemo(ps, base, s, p[1], p[1..]);
    }
  }

  /** What a run left in the memo table does not change which types have everything provided. */
  lemma {:induction false} SameProvision(ps: map<Ty, Func>, base: map<Ty, Value>, s: State, t: Ty)
    requires Logged(ps, base, s)
    ensures AllProvidedFrom(ps, s.singletons, t) <==> AllProvidedFrom(ps, base, t)
  {
    if AllProvidedFrom(ps, s.singletons, t) {
      forall p | PathFrom(ps, base, t, p) ensures Provided(ps, base, Last(p)) {
        ProvidedPastMemo(ps, base, s, t, p);
      }
    }
    if AllProvidedFrom(ps, base, t) {
      forall p | PathFrom(ps, s.singletons, t, p) ensures Provided(ps, s.singletons, Last(p)) {
        forall i | 0 <= i < |p| - 1 ensures Edge(ps, base, p[i], p[i + 1]) {
          assert Edge(ps, s.singletons, p[i], p[i + 1]);
        }
        assert PathFrom(ps, base, t, p);
      }
    }
  }

  lemma {:induction false} ResolvedFoundIff(ps: map<Ty, Func>, base: map<Ty, Value>, n: nat, t: Ty, s: State)
    requires Acyclic(ps, base) && Logged(ps, base, s) && n >= |ps|
    ensures Resolved(ps, n, t, s).0.Found? <==> AllProvidedFrom(ps, base, t)
  {
    SameProvision(ps, base, s, t);
    SucceedsIff(ps, s.singletons, t);
    AcyclicPastMemo(ps, base, s, t);
    AcyclicNeverOverflows(ps, s.singletons, n, t);
    AcyclicNeverOverflows(ps, s.singletons, |ps|, t);
    EvalGrows(ps, s.singletons, |ps|, n, t);
    ShapeOfResolve(ps, n, t, s);
  }

  lemma {:induction false} ResolvedAllFoundIff(ps: map<Ty, Func>, base: map<Ty, Value>, rank: Ty -> nat, n: nat,
                                               ts: seq<Ty>, s: State)
    requires Acyclic(ps, base) && Ranked(ps, base, rank) && Logged(ps, base, s) && n >= |ps|
    ensures ResolvedAll(ps, n, ts, s).0.Found? <==> forall t :: t in ts ==> AllProvidedFrom(ps, base, t)
  {
    if ts != [] {
      ResolvedFoundIff(ps, base, n, ts[0], s);
      ResolvedLogged(ps, base, rank, n, ts[0], s);
      ResolvedAllFoundIff(ps, base, rank, n, ts[1..], Resolved(ps, n, ts[0], s).1);
      assert forall t :: t in ts <==> t == ts[0] || t in ts[1..];
    }
  }

  /** Everything the factories need is there. */
  ghost predicate Supported(ps: map<Ty, Func>, base: map<Ty, Value>, fs: seq<Func>) {
    forall i, t :: 0 <= i < |fs| && t in fs[i].params ==> AllProvidedFrom(ps, base, t)
  }

  lemma {:induction false} InvokedManyFoundIff(ps: map<Ty, Func>, base: map<Ty, Value>, rank: Ty -> nat, n: nat,
                                               fs: seq<Func>, s: State)
    requires Acyclic(ps, base) && Ranked(ps, base, rank) && Logged(ps, base, s) && n >= |ps|
    ensures InvokedMany(ps, n, fs, s).0.Found? <==> Supported(ps, base, fs)
  {
    if fs != [] {
      var rest := fs[1..];
      ResolvedAllFoundIff(ps, base, rank, n, fs[0].params, s);
      InvokedLogged(ps, base, rank, n, fs[0], s);
      InvokedManyFoundIff(ps, base, rank, n, rest, Invoked(ps, n, fs[0], s).1);
      if Supported(ps, base, fs) {
        forall i, t | 0 <= i < |rest| && t in rest[i].params ensures AllProvidedFrom(ps, base, t) {
          assert rest[i] == fs[i + 1];
        }
      }
      if Supported(ps, base, rest) && (forall t :: t in fs[0].params ==> AllProvidedFrom(ps, base, t)) {
        forall i, t | 0 <= i < |fs| && t in fs[i].params ensures AllProvidedFrom(ps, base, t) {
          assert i == 0 || fs[i] == rest[i - 1];
        }
      }
    }
  }

  /** What a Build needs: ports, a fresh server, all that its factories need, and TLS and Temporal if asked for. */
  ghost predicate Ready(ps: map<Ty, Func>, base: map<Ty, Value>, plan: Plan, outside: Outside) {
    && plan.grpcPort != "" && plan.httpPort != "" && outside.grpcListens && outside.httpListens
    && !plan.interceptorsSet
    && Supported(ps, base, plan.services) && Supported(ps, base, plan.controllers)
    && (plan.ssl ==> outside.sslConfigures)
    && (plan.temporal ==> outside.temporalDials && Supported(ps, base, plan.activities))
  }

  /**
    Over tables without a cycle, no step of Build fails exactly when the ports are set and open, it is the
    first Build, everything that the registered services, controllers and (with Temporal) activities need
    is provided, and TLS and Temporal, where asked for, come up. Whether reflection accepts the calls is
    not part of this (module Variadic).
   */
  lemma {:induction false} BuildSucceedsIff(ps: map<Ty, Func>, stack: nat, plan: Plan, outside: Outside,
                                            base: map<Ty, Value>)
    requires Acyclic(ps, base) && stack >= |ps|
    ensures BuildOutcome(ps, stack, plan, outside, Initial(base)).0.Built? <==> Ready(ps, base, plan, outside)
  {
    hide Acyclic, Logged, Supported;
    var rank := AcyclicHasRank(ps, base);
    var s := Initial(base);
    var s1 := InvokedMany(ps, stack, plan.services, s).1;
    var s2 := InvokedMany(ps, stack, plan.controllers, s1).1;
    InitialLogged(ps, base);
    BuildLogged(ps, base, stack, plan.services, s);
    BuildLogged(ps, base, stack, plan.controllers, s1);
    InvokedManyFoundIff(ps, base, rank, stack, plan.services, s);
    InvokedManyFoundIff(ps, base, rank, stack, plan.controllers, s1);
    InvokedManyFoundIff(ps, base, rank, stack, plan.activities, s2);
  }

  /** The plans of one builder at its Builds; what is done to it in between takes no interceptors away. */
  predicate OneBuilder(plans: seq<Plan>, outsides: seq<Outside>) {
    && |plans| == |outsides|
    && forall k :: 0 <= k < |plans| - 1 && PlanAfter(plans[k], outsides[k]).interceptorsSet
         ==> plans[k + 1].interceptorsSet
  }

  lemma {:induction false} InterceptorsStay(plans: seq<Plan>, outsides: seq<Outside>, i: nat, j: nat)
    requires OneBuilder(plans, outsides) && i < j < |plans| && ListenError(plans[i], outsides[i]).None?
    ensures plans[j].interceptorsSet
  {
    if j > i + 1 {
      InterceptorsStay(plans, outsides, i, j - 1);
    }
    assert PlanAfter(plans[j - 1], outsides[j - 1]).interceptorsSet;
  }

  /**
    Of all the Builds of one builder, the first that gets past the listeners is the only one that can
    succeed: a later one fails at the listeners or panics, and calls nothing.
   */
  lemma {:induction false} OnlyOneBuildSucceeds(plans: seq<Plan>, outsides: seq<Outside>, i: nat, j: nat,
                                                ps: map<Ty, Func>, stack: nat, s: State)
    requires OneBuilder(plans, outsides) && i < j < |plans| && ListenError(plans[i], outsides[i]).None?
    ensures var (r, s') := BuildOutcome(ps, stack, plans[j], outsides[j], s);
      && s' == s && r.NotBuilt?
      && (r.error == InterceptorsSet <==> ListenError(plans[j], outsides[j]).None?)
  {
    InterceptorsStay(plans, outsides, i, j);
  }

  lemma {:induction false} InitialLogged(ps: map<Ty, Func>, base: map<Ty, Value>)
    ensures Logged(ps, base, Initial(base))
  {
  }

  /**
    With deterministic providers, every call that a Build makes, however it ends, gets the arguments that
    plain evaluation of the starting tables gives. A successful one called every service, controller and
    activity factory so; a failing one names a type that evaluation misses for some factory.
   */
  lemma {:induction false} BuildDelivers(ps: map<Ty, Func>, stack: nat, plan: Plan, outside: Outside,
                                         base: map<Ty, Value>)
    requires Deterministic(ps)
    ensures var (r, s') := BuildOutcome(ps, stack, plan, outside, Initial(base));
      && AllGotSettled(ps, base, s'.calls)
      && (r.Built? ==>
            && AllMade(ps, base, s'.calls, plan.services, r.services)
            && AllMade(ps, base, s'.calls, plan.controllers, r.controllers)
            && AllMade(ps, base, s'.calls, if plan.temporal then plan.activities else [], r.activities))
      && (r.NotBuilt? && r.error.ServiceFailed? ==> SomeMisses(ps, base, plan.services, r.error.t))
      && (r.NotBuilt? && r.error.ControllerFailed? ==> SomeMisses(ps, base, plan.controllers, r.error.t))
      && (r.NotBuilt? && r.error.ActivityFailed? ==> SomeMisses(ps, base, plan.activities, r.error.t))
  {
    hide Deterministic, Consistent, SomeMisses, Made, GotSettled;
    var s := Initial(base);
    var (services, s1) := InvokedMany(ps, stack, plan.services, s);
    var (controllers, s2) := InvokedMany(ps, stack, plan.controllers, s1);
    var s3 := InvokedMany(ps, stack, plan.activities, s2).1;
    InitialConsistent(ps, base);
    FactoriesReceive(ps, base, stack, plan.services, s);
    FactoriesReceive(ps, base, stack, plan.controllers, s1);
    FactoriesReceive(ps, base, stack, plan.activities, s2);
    if services.Found? && controllers.Found? {
      AllMadeStays(ps, base, s1.calls, s2.calls, plan.services, services.value);
      AllMadeStays(ps, base, s2.calls, s3.calls, plan.services, services.value);
      AllMadeStays(ps, base, s2.calls, s3.calls, plan.controllers, controllers.value);
    }
  }

  lemma {:induction false} InitialConsistent(ps: map<Ty, Func>, base: map<Ty, Value>)
    ensures Consistent(ps, base, Initial(base))
  {
  }
}
