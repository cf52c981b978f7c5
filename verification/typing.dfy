/**
  Reflection gives up Go's static types; this is what is left of them. `asg` is assignability, under
  which reflect.Call accepts an argument for a parameter.
 */
module Typing {
  import opened Wrappers
  import opened Container
  import opened Wiring

  /** What Go's own type rules give: identity is assignable, and implementing an interface is. */
  ghost predicate GoTypes(implements: (Ty, Ty) -> bool, asg: (Ty, Ty) -> bool) {
    && (forall t :: asg(t, t))
    && (forall t, u :: implements(t, u) ==> asg(t, u))
  }

  /** A function returns what its signature says, and only its last parameter can be variadic. */
  ghost predicate WellTypedFunc(asg: (Ty, Ty) -> bool, f: Func) {
    && (forall args, n :: asg(f.body(args, n).typ, f.out))
    && (f.variadic.Some? ==> f.params != [])
  }

  ghost predicate TypedValues(asg: (Ty, Ty) -> bool, m: map<Ty, Value>) {
    forall t :: t in m ==> asg(m[t].typ, t)
  }

  ghost predicate TypedProviders(asg: (Ty, Ty) -> bool, ps: map<Ty, Func>) {
    forall t :: t in ps ==> ps[t].out == t && WellTypedFunc(asg, ps[t])
  }

  ghost predicate TypedTables(asg: (Ty, Ty) -> bool, tables: Tables) {
    TypedValues(asg, tables.singletons) && TypedProviders(asg, tables.providers)
  }

  /** Every argument is assignable to the parameter type as `In(i)` reports it. */
  predicate TypedCall(asg: (Ty, Ty) -> bool, c: Call) {
    |c.args| == |c.fn.params| && forall k :: 0 <= k < |c.args| ==> asg(c.args[k].typ, c.fn.params[k])
  }

  /** What reflect.Call demands: for a variadic function the last value is one element of the slice. */
  predicate Accepted(asg: (Ty, Ty) -> bool, c: Call) {
    && |c.args| == |c.fn.params|
    && (forall k :: 0 <= k < |c.args| && (c.fn.variadic.None? || k < |c.args| - 1)
          ==> asg(c.args[k].typ, c.fn.params[k]))
    && (c.fn.variadic.Some? && c.args != [] ==> asg(c.args[|c.args| - 1].typ, c.fn.variadic.value))
  }

  ghost predicate TypedState(asg: (Ty, Ty) -> bool, s: State) {
    TypedValues(asg, s.singletons) && forall i :: 0 <= i < |s.calls| ==> TypedCall(asg, s.calls[i])
  }

  lemma {:induction false} RegistrationsAreTyped(implements: (Ty, Ty) -> bool, asg: (Ty, Ty) -> bool,
                                                 tables: Tables, rs: seq<Registration>)
    requires GoTypes(implements, asg) && TypedTables(asg, tables)
    requires forall i :: 0 <= i < |rs| && rs[i].ProvideFunc? && rs[i].fn.Some? ==> WellTypedFunc(asg, rs[i].fn.value)
    ensures var t := RegisteredAll(implements, tables, rs);
      t.Some? ==> TypedTables(asg, t.value)
    decreases |rs|
  {
    if rs != [] {
      var t := Registered(implements, tables, rs[0]);
      if t.Some? {
        assert TypedTables(asg, t.value);
        RegistrationsAreTyped(implements, asg, t.value, rs[1..]);
      }
    }
  }

  lemma {:induction false} ResolvedTyped(asg: (Ty, Ty) -> bool, ps: map<Ty, Func>, n: nat, t: Ty, s: State)
    requires TypedProviders(asg, ps) && TypedState(asg, s)
    ensures var (o, s') := Resolved(ps, n, t, s);
      TypedState(asg, s') && (o.Found? ==> asg(o.value.typ, t))
    decreases n, 0
  {
    if t !in s.singletons && t in ps && n > 0 {
      ResolvedAllTyped(asg, ps, n - 1, ps[t].params, s.(entries := s.entries + 1));
    }
  }

  lemma {:induction false} ResolvedAllTyped(asg: (Ty, Ty) -> bool, ps: map<Ty, Func>, n: nat, ts: seq<Ty>, s: State)
    requires TypedProviders(asg, ps) && TypedState(asg, s)
    ensures var (o, s') := ResolvedAll(ps, n, ts, s);
      TypedState(asg, s') && (o.Found? ==> forall k :: 0 <= k < |ts| ==> asg(o.value[k].typ, ts[k]))
    decreases n, |ts|
  {
    if ts != [] {
      ResolvedTyped(asg, ps, n, ts[0], s);
      var (o, s1) := Resolved(ps, n, ts[0], s);
      if o.Found? {
        ResolvedAllTyped(asg, ps, n, ts[1..], s1);
        var rest := ResolvedAll(ps, n, ts[1..], s1).0;
        if rest.Found? {
          forall k | 0 <= k < |ts| ensures asg(([o.value] + rest.value)[k].typ, ts[k]) {
            assert k == 0 || ts[k] == ts[1..][k - 1];
          }
        }
      }
    }
  }

  lemma {:induction false} InvokedManyTyped(asg: (Ty, Ty) -> bool, ps: map<Ty, Func>, n: nat, fs: seq<Func>, s: State)
    requires TypedProviders(asg, ps) && TypedState(asg, s)
    ensures TypedState(asg, InvokedMany(ps, n, fs, s).1)
  {
    if fs != [] {
      ResolvedAllTyped(asg, ps, n, fs[0].params, s);
      InvokedManyTyped(asg, ps, n, fs[1..], Invoked(ps, n, fs[0], s).1);
    }
  }

  /** From typed tables, however the Build ends: filed values stay typed, and so is every call. */
  lemma {:induction false} BuildIsTyped(asg: (Ty, Ty) -> bool, tables: Tables, stack: nat, plan: Plan, outside: Outside)
    requires TypedTables(asg, tables)
    ensures TypedState(asg, BuildOutcome(tables.providers, stack, plan, outside, Initial(tables.singletons)).1)
  {
    var Tables(singletons, ps) := tables;
    var s := Initial(singletons);
    var s1 := InvokedMany(ps, stack, plan.services, s).1;
    var s2 := InvokedMany(ps, stack, plan.controllers, s1).1;
    InvokedManyTyped(asg, ps, stack, plan.services, s);
    InvokedManyTyped(asg, ps, stack, plan.controllers, s1);
    InvokedManyTyped(asg, ps, stack, plan.activities, s2);
  }

  // ---------- every reachable builder ----------

  /** What can be done to a builder's tables: a registration, or a Build, which leaves its memo table there. */
  datatype Use = Register(r: Registration) | RunBuild(stack: nat, plan: Plan, outside: Outside)

  function Used(implements: (Ty, Ty) -> bool, tables: Tables, use: Use): Option<Tables> {
    match use
    case Register(r) => Registered(implements, tables, r)
    case RunBuild(stack, plan, outside) =>
      var s' := BuildOutcome(tables.providers, stack, plan, outside, Initial(tables.singletons)).1;
      Some(tables.(singletons := s'.singletons))
  }

  /** The tables after all that, if no registration ended the process. */
  function UsedAll(implements: (Ty, Ty) -> bool, tables: Tables, uses: seq<Use>): Option<Tables> {
    if uses == [] then Some(tables)
    else
      var t := UsedAll(implements, tables, uses[..|uses| - 1]);
      if t.Some? then Used(implements, t.value, uses[|uses| - 1]) else None
  }

  ghost predicate WellTypedUse(asg: (Ty, Ty) -> bool, use: Use) {
    use.Register? && use.r.ProvideFunc? && use.r.fn.Some? ==> WellTypedFunc(asg, use.r.fn.value)
  }

  /** After any registrations and Builds in any order the tables are typed. */
  lemma {:induction false} ReachableIsTyped(implements: (Ty, Ty) -> bool, asg: (Ty, Ty) -> bool, uses: seq<Use>)
    requires GoTypes(implements, asg)
    requires forall i :: 0 <= i < |uses| ==> WellTypedUse(asg, uses[i])
    requires UsedAll(implements, Tables(map[], map[]), uses).Some?
    ensures TypedTables(asg, UsedAll(implements, Tables(map[], map[]), uses).value)
  {
    if uses != [] {
      var init, use := uses[..|uses| - 1], uses[|uses| - 1];
      ReachableIsTyped(implements, asg, init);
      var tables := UsedAll(implements, Tables(map[], map[]), init).value;
      assert WellTypedUse(asg, use);
      match use {
        case Register(r) =>
          assert [r][1..] == [] && RegisteredAll(implements, tables, [r]) == Registered(implements, tables, r);
          RegistrationsAreTyped(implements, asg, tables, [r]);
        case RunBuild(stack, plan, outside) => BuildIsTyped(asg, tables, stack, plan, outside);
      }
    }
  }

  /**
    So in every reachable state of a builder, every call that a Build makes gets arguments assignable to
    its parameter types, and every value that it files is assignable to its type.
   */
  lemma {:induction false} ReachableBuildIsTyped(implements: (Ty, Ty) -> bool, asg: (Ty, Ty) -> bool, uses: seq<Use>,
                                                 stack: nat, plan: Plan, outside: Outside)
    requires GoTypes(implements, asg)
    requires forall i :: 0 <= i < |uses| ==> WellTypedUse(asg, uses[i])
    requires UsedAll(implements, Tables(map[], map[]), uses).Some?
    ensures var tables := UsedAll(implements, Tables(map[], map[]), uses).value;
      TypedState(asg, BuildOutcome(tables.providers, stack, plan, outside, Initial(tables.singletons)).1)
  {
    ReachableIsTyped(implements, asg, uses);
    BuildIsTyped(asg, UsedAll(implements, Tables(map[], map[]), uses).value, stack, plan, outside);
  }

  /** A variadic provider whose slice type is supplied: resolution calls it in a way reflection rejects. */
  lemma {:induction false} VariadicProviderRejected(asg: (Ty, Ty) -> bool, slice: Ty, elem: Ty, out: Ty, id: nat,
                                                    body: (seq<Value>, nat) -> Value)
    requires slice != out && asg(slice, slice) && !asg(slice, elem)
    ensures var f := Func([slice], Some(elem), out, body);
      var (o, s') := Resolved(map[out := f], 1, out, Initial(map[slice := Value(slice, id)]));
      && o.Found? && |s'.calls| == 1 && s'.calls[0].fn == f
      && TypedCall(asg, s'.calls[0]) && !Accepted(asg, s'.calls[0])
  {
    var f := Func([slice], Some(elem), out, body);
    var ps, s := map[out := f], Initial(map[slice := Value(slice, id)]);
    var s0 := s.(entries := 1);
    assert [slice][1..] == [];
    assert Resolved(ps, 0, slice, s0).0 == Found(Value(slice, id));
    assert [Value(slice, id)] + [] == [Value(slice, id)];
    assert ResolvedAll(ps, 0, [slice], s0).0 == Found([Value(slice, id)]);
  }
}
