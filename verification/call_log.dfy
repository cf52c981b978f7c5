/**
  What a container does to the user's functions over a whole Build, when the provider table has no
  dependency cycle: which are called, how often, in what order, with which instances, and how many
  resolutions that takes. The bodies may be impure and the Build may end on a failure.
 */
module CallLog {
  import opened Wrappers
  import opened Container
  import opened DependencyGraph

  // ---------- a rank that drops along every edge ----------

  ghost predicate Reaches(ps: map<Ty, Func>, base: map<Ty, Value>, t: Ty, u: Ty) {
    exists p :: PathFrom(ps, base, t, p) && Last(p) == u
  }

  ghost function Below(ps: map<Ty, Func>, base: map<Ty, Value>, t: Ty): set<Ty> {
    set u | u in ps.Keys && Reaches(ps, base, t, u)
  }

  ghost function Rank(ps: map<Ty, Func>, base: map<Ty, Value>, t: Ty): nat {
    |Below(ps, base, t)|
  }

  lemma {:induction false} RankDrops(ps: map<Ty, Func>, base: map<Ty, Value>, a: Ty, b: Ty)
    requires AcyclicFrom(ps, base, a) && Edge(ps, base, a, b)
    ensures Rank(ps, base, b) < Rank(ps, base, a)
  {
    var above := Below(ps, base, a);
    var below := Below(ps, base, b);
    forall u | u in below ensures u in above - {a} {
      var p :| PathFrom(ps, base, b, p) && Last(p) == u;
      var q := [a] + p;
      forall i | 0 <= i < |q| - 1 ensures Edge(ps, base, q[i], q[i + 1]) {
        assert i == 0 || (q[i] == p[i - 1] && q[i + 1] == p[i] && Edge(ps, base, p[i - 1], p[i - 1 + 1]));
      }
      assert PathFrom(ps, base, a, q) && q[0] != q[|q| - 1];
    }
    assert PathFrom(ps, base, a, [a]) && Last([a]) == a;
    SubsetSmaller(below, above - {a});
  }

  lemma {:induction false} SubsetSmaller<T>(a: set<T>, b: set<T>)
    requires a <= b
    ensures |a| <= |b|
  {
    if x :| x in a {
      SubsetSmaller(a - {x}, b - {x});
    }
  }

  lemma {:induction false} RankBounded(ps: map<Ty, Func>, base: map<Ty, Value>, t: Ty)
    ensures Rank(ps, base, t) <= |ps|
  {
    SubsetSmaller(Below(ps, base, t), ps.Keys);
    assert |ps.Keys| == |ps|;
  }

  /** `rank` drops along every edge and stays within the size of the table. */
  ghost predicate Ranked(ps: map<Ty, Func>, base: map<Ty, Value>, rank: Ty -> nat) {
    && (forall a, b :: Edge(ps, base, a, b) ==> rank(b) < rank(a))
    && (forall t :: rank(t) <= |ps|)
  }

  lemma {:induction false} AcyclicHasRank(ps: map<Ty, Func>, base: map<Ty, Value>) returns (rank: Ty -> nat)
    requires Acyclic(ps, base)
    ensures Ranked(ps, base, rank)
  {
    rank := t => Rank(ps, base, t);
    forall a, b | Edge(ps, base, a, b) ensures rank(b) < rank(a) {
      RankDrops(ps, base, a, b);
    }
    forall t ensures rank(t) <= |ps| {
      RankBounded(ps, base, t);
    }
  }

  // ---------- the invariant ----------

  ghost predicate Supplied(base: map<Ty, Value>, s: State) {
    forall t :: t in base ==> t in s.singletons && s.singletons[t] == base[t]
  }

  /** Argument `k` of call `i` is the filed instance, and was supplied or made by an earlier call. */
  ghost predicate ArgumentFiled(base: map<Ty, Value>, s: State, i: int, k: int)
    requires 0 <= i < |s.calls| && 0 <= k < |s.calls[i].args| == |s.calls[i].fn.params|
  {
    var t := s.calls[i].fn.params[k];
    && t in s.singletons && s.calls[i].args[k] == s.singletons[t]
    && (t in base || CalledBefore(s, t, i))
  }

  ghost predicate CalledBefore(s: State, t: Ty, i: int)
    requires 0 <= i <= |s.calls|
  {
    exists j :: 0 <= j < i && s.calls[j].callee == ProviderOf(t)
  }

  ghost predicate CallSound(ps: map<Ty, Func>, base: map<Ty, Value>, s: State, i: int)
    requires 0 <= i < |s.calls|
  {
    var c := s.calls[i];
    && |c.args| == |c.fn.params| && c.result == c.fn.body(c.args, i)
    && (forall k :: 0 <= k < |c.args| ==> ArgumentFiled(base, s, i, k))
    && (c.callee.ProviderOf? ==>
          var t := c.callee.t;
          t !in base && t in ps && c.fn == ps[t] && t in s.singletons && s.singletons[t] == c.result)
  }

  /** No provider appears twice in the log. */
  ghost predicate CalledOnce(s: State) {
    forall i, j :: 0 <= i < j < |s.calls| && s.calls[i].callee.ProviderOf? ==> s.calls[i].callee != s.calls[j].callee
  }

  ghost predicate Logged(ps: map<Ty, Func>, base: map<Ty, Value>, s: State) {
    && Supplied(base, s)
    && CalledOnce(s)
    && (forall i :: 0 <= i < |s.calls| ==> CallSound(ps, base, s, i))
    && (forall t :: t in s.singletons ==> t in base || CalledBefore(s, t, |s.calls|))
  }

  ghost predicate Extends(s: State, s': State) {
    && s.calls <= s'.calls
    && (forall t :: t in s.singletons ==> t in s'.singletons && s'.singletons[t] == s.singletons[t])
  }

  ghost function Added(s: State, s': State): set<Ty> {
    s'.singletons.Keys - s.singletons.Keys
  }

  /** What is newly memoised has a provider, and its rank is at most `r`. */
  ghost predicate AddedUpTo(ps: map<Ty, Func>, rank: Ty -> nat, r: int, s: State, s': State) {
    forall t :: t in Added(s, s') ==> t in ps && rank(t) <= r
  }

  /** The values are the instances filed under the types. */
  ghost predicate Filed(s: State, ts: seq<Ty>, vs: seq<Value>) {
    |vs| == |ts| && forall k :: 0 <= k < |ts| ==> ts[k] in s.singletons && vs[k] == s.singletons[ts[k]]
  }

  lemma {:induction false} FiledCons(s: State, s': State, ts: seq<Ty>, v: Value, vs: seq<Value>)
    requires ts != [] && Extends(s, s') && ts[0] in s.singletons && v == s.singletons[ts[0]]
    requires Filed(s', ts[1..], vs)
    ensures Filed(s', ts, [v] + vs)
  {
    forall k | 0 <= k < |ts| ensures ts[k] in s'.singletons && ([v] + vs)[k] == s'.singletons[ts[k]] {
      assert k == 0 || ts[k] == ts[1..][k - 1];
    }
  }

  lemma {:induction false} ExtendsJoin(ps: map<Ty, Func>, rank: Ty -> nat, r: int, s: State, s1: State, s2: State)
    requires Extends(s, s1) && AddedUpTo(ps, rank, r, s, s1)
    requires Extends(s1, s2) && AddedUpTo(ps, rank, r, s1, s2)
    ensures Extends(s, s2) && AddedUpTo(ps, rank, r, s, s2)
  {
    forall t | t in Added(s, s2) ensures t in ps && rank(t) <= r {
      assert t in Added(s, s1) || t in Added(s1, s2);
    }
  }

  lemma {:induction false} CalledBeforeStays(s: State, s': State, t: Ty, i: int)
    requires s.calls <= s'.calls && 0 <= i <= |s.calls|
    ensures CalledBefore(s, t, i) <==> CalledBefore(s', t, i)
  {
    assert forall j :: 0 <= j < i ==> s'.calls[j] == s.calls[j];
    if j :| 0 <= j < i && s.calls[j].callee == ProviderOf(t) {
      assert s'.calls[j].callee == ProviderOf(t);
    }
  }

  lemma {:induction false} CallSoundStays(ps: map<Ty, Func>, base: map<Ty, Value>, s: State, s': State, i: int)
    requires Extends(s, s') && 0 <= i < |s.calls| && CallSound(ps, base, s, i)
    ensures CallSound(ps, base, s', i)
  {
    assert s'.calls[i] == s.calls[i];
    forall k | 0 <= k < |s'.calls[i].args| ensures ArgumentFiled(base, s', i, k) {
      assert ArgumentFiled(base, s, i, k);
      CalledBeforeStays(s, s', s.calls[i].fn.params[k], i);
    }
  }

  /** Logging a call on filed instances keeps the invariant. */
  lemma {:induction false} LogCall(ps: map<Ty, Func>, base: map<Ty, Value>, s: State, c: Call, s': State)
    requires Logged(ps, base, s) && s'.calls == s.calls + [c]
    requires c.result == c.fn.body(c.args, |s.calls|)
    requires Filed(s, c.fn.params, c.args)
    requires if c.callee.ProviderOf? then
               c.callee.t !in s.singletons && c.callee.t in ps && c.fn == ps[c.callee.t]
               && s'.singletons == s.singletons[c.callee.t := c.result]
             else s'.singletons == s.singletons
    ensures Logged(ps, base, s') && Extends(s, s')
  {
    var n := |s.calls|;
    assert s'.calls[..n] == s.calls && s'.calls[n] == c;
    forall i | 0 <= i < n ensures CallSound(ps, base, s', i) {
      CallSoundStays(ps, base, s, s', i);
    }
    forall k | 0 <= k < |c.args| ensures ArgumentFiled(base, s', n, k) {
      CalledBeforeStays(s, s', c.fn.params[k], n);
    }
    assert CallSound(ps, base, s', n);
    forall i, j | 0 <= i < j <= n && s'.calls[i].callee.ProviderOf?
      ensures s'.calls[i].callee != s'.calls[j].callee
    {
      assert CallSound(ps, base, s, i);
    }
    forall t | t in s'.singletons ensures t in base || CalledBefore(s', t, n + 1) {
      if t in s.singletons {
        CalledBeforeStays(s, s', t, n);
      } else {
        assert s'.calls[n].callee == ProviderOf(t);
      }
    }
  }

  lemma {:induction false} ResolvedLogged(ps: map<Ty, Func>, base: map<Ty, Value>, rank: Ty -> nat, n: nat, t: Ty,
                                          s: State)
    requires Ranked(ps, base, rank) && Logged(ps, base, s)
    ensures var (o, s') := Resolved(ps, n, t, s);
      && Logged(ps, base, s') && Extends(s, s') && AddedUpTo(ps, rank, rank(t), s, s')
      && (o.Found? ==> t in s'.singletons && s'.singletons[t] == o.value)
    decreases n, 0
  {
    if t !in s.singletons && t in ps && n > 0 {
      var s0 := s.(entries := s.entries + 1);
      var r: int := rank(t);
      assert Logged(ps, base, s0) by { LoggedSame(ps, base, s, s0); }
      assert forall x :: x in ps[t].params ==> Edge(ps, base, t, x);
      ResolvedAllLogged(ps, base, rank, n - 1, ps[t].params, s0, r - 1);
      var (o, s1) := ResolvedAll(ps, n - 1, ps[t].params, s0);
      assert t !in Added(s0, s1);
      if o.Found? {
        var v := ps[t].body(o.value, |s1.calls|);
        LogCall(ps, base, s1, Call(ProviderOf(t), ps[t], o.value, v), Resolved(ps, n, t, s).1);
      }
    } else {
      LoggedSame(ps, base, s, Resolved(ps, n, t, s).1);
    }
  }

  lemma {:induction false} LoggedSame(ps: map<Ty, Func>, base: map<Ty, Value>, s: State, s': State)
    requires Logged(ps, base, s) && s'.calls == s.calls && s'.singletons == s.singletons
    ensures Logged(ps, base, s') && Extends(s, s')
  {
    forall t, i | 0 <= i <= |s.calls| ensures CalledBefore(s, t, i) <==> CalledBefore(s', t, i) {}
    forall i | 0 <= i < |s'.calls| ensures CallSound(ps, base, s', i) {
      assert CallSound(ps, base, s, i);
      forall k | 0 <= k < |s'.calls[i].args| ensures ArgumentFiled(base, s', i, k) {
        assert ArgumentFiled(base, s, i, k);
      }
    }
  }

  lemma {:induction false} ResolvedAllLogged(ps: map<Ty, Func>, base: map<Ty, Value>, rank: Ty -> nat, n: nat,
                                             ts: seq<Ty>, s: State, r: int)
    requires Ranked(ps, base, rank) && Logged(ps, base, s) && forall x :: x in ts ==> rank(x) <= r
    ensures var (o, s') := ResolvedAll(ps, n, ts, s);
      && Logged(ps, base, s') && Extends(s, s') && AddedUpTo(ps, rank, r, s, s')
      && (o.Found? ==> Filed(s', ts, o.value))
    decreases n, |ts|
  {
    if ts != [] {
      ResolvedLogged(ps, base, rank, n, ts[0], s);
      var (o, s1) := Resolved(ps, n, ts[0], s);
      if o.Found? {
        ResolvedAllLogged(ps, base, rank, n, ts[1..], s1, r);
        var (rest, s2) := ResolvedAll(ps, n, ts[1..], s1);
        ExtendsJoin(ps, rank, r, s, s1, s2);
        if rest.Found? {
          FiledCons(s1, s2, ts, o.value, rest.value);
        }
      }
    }
  }

  lemma {:induction false} InvokedLogged(ps: map<Ty, Func>, base: map<Ty, Value>, rank: Ty -> nat, n: nat, f: Func,
                                         s: State)
    requires Ranked(ps, base, rank) && Logged(ps, base, s)
    ensures Logged(ps, base, Invoked(ps, n, f, s).1) && Extends(s, Invoked(ps, n, f, s).1)
  {
    ResolvedAllLogged(ps, base, rank, n, f.params, s, |ps|);
    var (o, s1) := ResolvedAll(ps, n, f.params, s);
    if o.Found? {
      var c := Call(Factory, f, o.value, f.body(o.value, |s1.calls|));
      LogCall(ps, base, s1, c, Invoked(ps, n, f, s).1);
    }
  }

  lemma {:induction false} InvokedManyLogged(ps: map<Ty, Func>, base: map<Ty, Value>, rank: Ty -> nat, n: nat,
                                             fs: seq<Func>, s: State)
    requires Ranked(ps, base, rank) && Logged(ps, base, s)
    ensures Logged(ps, base, InvokedMany(ps, n, fs, s).1) && Extends(s, InvokedMany(ps, n, fs, s).1)
  {
    if fs != [] {
      InvokedLogged(ps, base, rank, n, fs[0], s);
      var (o, s1) := Invoked(ps, n, fs[0], s);
      if o.Found? {
        InvokedManyLogged(ps, base, rank, n, fs[1..], s1);
      }
    }
  }

  /**
    Over a whole Build: no provider is called twice or for a supplied type, every argument was supplied
    or made by an earlier call, and whoever needs a type gets the one instance filed under it.
   */
  lemma {:induction false} BuildLogged(ps: map<Ty, Func>, base: map<Ty, Value>, n: nat, fs: seq<Func>, s: State)
    requires Acyclic(ps, base) && Logged(ps, base, s)
    ensures Logged(ps, base, InvokedMany(ps, n, fs, s).1) && Extends(s, InvokedMany(ps, n, fs, s).1)
  {
    var rank := AcyclicHasRank(ps, base);
    InvokedManyLogged(ps, base, rank, n, fs, s);
  }

  /** Two calls of one Build that need the same type are given the same instance of it. */
  lemma {:induction false} SameInstance(ps: map<Ty, Func>, base: map<Ty, Value>, n: nat, fs: seq<Func>,
                                        i: nat, k: nat, j: nat, l: nat)
    requires Acyclic(ps, base)
    requires var calls := InvokedMany(ps, n, fs, Initial(base)).1.calls;
      && i < |calls| && j < |calls| && k < |calls[i].args| && l < |calls[j].args|
      && |calls[i].fn.params| == |calls[i].args| && |calls[j].fn.params| == |calls[j].args|
      && calls[i].fn.params[k] == calls[j].fn.params[l]
    ensures var calls := InvokedMany(ps, n, fs, Initial(base)).1.calls;
      calls[i].args[k] == calls[j].args[l]
  {
    BuildLogged(ps, base, n, fs, Initial(base));
    var s := InvokedMany(ps, n, fs, Initial(base)).1;
    assert CallSound(ps, base, s, i) && CallSound(ps, base, s, j);
    assert ArgumentFiled(base, s, i, k) && ArgumentFiled(base, s, j, l);
  }

  // ---------- how often resolve is entered ----------

  ghost function Arities(ps: map<Ty, Func>, ts: set<Ty>): nat {
    if ts == {} then 0
    else
      var t :| t in ts;
      (if t in ps then |ps[t].params| else 0) + Arities(ps, ts - {t})
  }

  lemma {:induction false} AritiesWithout(ps: map<Ty, Func>, ts: set<Ty>, t: Ty)
    requires t in ts
    ensures Arities(ps, ts) == (if t in ps then |ps[t].params| else 0) + Arities(ps, ts - {t})
  {
    var u :| u in ts && Arities(ps, ts) == (if u in ps then |ps[u].params| else 0) + Arities(ps, ts - {u});
    if u != t {
      AritiesWithout(ps, ts - {u}, t);
      AritiesWithout(ps, ts - {t}, u);
      assert ts - {u} - {t} == ts - {t} - {u};
    }
  }

  lemma {:induction false} AritiesOfUnion(ps: map<Ty, Func>, ts: set<Ty>, us: set<Ty>)
    requires ts !! us
    ensures Arities(ps, ts + us) == Arities(ps, ts) + Arities(ps, us)
  {
    if t :| t in ts {
      AritiesWithout(ps, ts + us, t);
      AritiesWithout(ps, ts, t);
      assert ts + us - {t} == (ts - {t}) + us;
      AritiesOfUnion(ps, ts - {t}, us);
    } else {
      assert ts + us == us;
    }
  }

  lemma {:induction false} AritiesGrow(ps: map<Ty, Func>, ts: set<Ty>, us: set<Ty>, all: set<Ty>)
    requires ts !! us && ts + us <= all
    ensures Arities(ps, ts) + Arities(ps, us) <= Arities(ps, all)
  {
    AritiesOfUnion(ps, ts, us);
    AritiesOfUnion(ps, ts + us, all - (ts + us));
    assert (ts + us) + (all - (ts + us)) == all;
  }

  /** The types that may still be expanded by a resolution of rank at most `r`. */
  ghost function Pending(ps: map<Ty, Func>, rank: Ty -> nat, r: int, s: State): set<Ty> {
    set t | t in ps.Keys && t !in s.singletons && rank(t) <= r
  }

  lemma {:induction false} AddedJoin(ps: map<Ty, Func>, s: State, s1: State, s2: State)
    requires Extends(s, s1) && Extends(s1, s2)
    ensures Arities(ps, Added(s, s2)) == Arities(ps, Added(s, s1)) + Arities(ps, Added(s1, s2))
  {
    AritiesOfUnion(ps, Added(s, s1), Added(s1, s2));
    assert Added(s, s2) == Added(s, s1) + Added(s1, s2);
  }

  lemma {:induction false} PendingAfter(ps: map<Ty, Func>, rank: Ty -> nat, r: int, s: State, s1: State)
    requires Extends(s, s1) && AddedUpTo(ps, rank, r, s, s1)
    ensures Arities(ps, Added(s, s1)) + Arities(ps, Pending(ps, rank, r, s1)) <= Arities(ps, Pending(ps, rank, r, s))
  {
    AritiesGrow(ps, Added(s, s1), Pending(ps, rank, r, s1), Pending(ps, rank, r, s));
  }

  lemma {:induction false} PendingGrows(ps: map<Ty, Func>, rank: Ty -> nat, q: int, r: int, s: State)
    requires q <= r
    ensures Arities(ps, Pending(ps, rank, q, s)) <= Arities(ps, Pending(ps, rank, r, s))
  {
    AritiesGrow(ps, Pending(ps, rank, q, s), {}, Pending(ps, rank, r, s));
  }

  /** The expansion of `t` accounts for its own parameters. */
  lemma {:induction false} ExpansionEntries(ps: map<Ty, Func>, rank: Ty -> nat, t: Ty, s: State, s1: State,
                                            s': State, found: bool)
    requires t in ps && t !in s.singletons
    requires if found then
               && t !in s1.singletons && s'.singletons.Keys == s1.singletons.Keys + {t}
               && s'.entries == s.entries + 1 + |ps[t].params| + Arities(ps, Added(s, s1))
             else s'.entries <= s.entries + 1 + |ps[t].params| + Arities(ps, Pending(ps, rank, rank(t) as int - 1, s))
    ensures if found then s'.entries == s.entries + 1 + Arities(ps, Added(s, s'))
            else s'.entries <= s.entries + 1 + Arities(ps, Pending(ps, rank, rank(t), s))
  {
    if found {
      AritiesWithout(ps, Added(s, s'), t);
      assert Added(s, s') - {t} == Added(s, s1);
    } else {
      var r: int := rank(t);
      AritiesWithout(ps, Pending(ps, rank, r, s), t);
      AritiesGrow(ps, Pending(ps, rank, r - 1, s), {}, Pending(ps, rank, r, s) - {t});
    }
  }

  lemma {:induction false} ResolvedEntries(ps: map<Ty, Func>, base: map<Ty, Value>, rank: Ty -> nat, n: nat, t: Ty,
                                           s: State)
    requires Ranked(ps, base, rank) && Logged(ps, base, s)
    ensures var (o, s') := Resolved(ps, n, t, s);
      if o.Found? then s'.entries == s.entries + 1 + Arities(ps, Added(s, s'))
      else s'.entries <= s.entries + 1 + Arities(ps, Pending(ps, rank, rank(t), s))
    decreases n, 0
  {
    hide CallSound, CalledOnce, CalledBefore;
    var s' := Resolved(ps, n, t, s).1;
    if t !in s.singletons && t in ps && n > 0 {
      var s0 := s.(entries := s.entries + 1);
      var r: int := rank(t);
      var (o, s1) := ResolvedAll(ps, n - 1, ps[t].params, s0);
      LoggedSame(ps, base, s, s0);
      assert forall x :: x in ps[t].params ==> Edge(ps, base, t, x);
      ResolvedAllLogged(ps, base, rank, n - 1, ps[t].params, s0, r - 1);
      ResolvedAllEntries(ps, base, rank, n - 1, ps[t].params, s0, r - 1);
      assert Added(s, s1) == Added(s0, s1) && Pending(ps, rank, r - 1, s) == Pending(ps, rank, r - 1, s0);
      ExpansionEntries(ps, rank, t, s, s1, s', o.Found?);
    } else {
      assert Added(s, s') == {};
    }
  }

  lemma {:induction false} ResolvedAllEntries(ps: map<Ty, Func>, base: map<Ty, Value>, rank: Ty -> nat, n: nat,
                                              ts: seq<Ty>, s: State, r: int)
    requires Ranked(ps, base, rank) && Logged(ps, base, s) && forall x :: x in ts ==> rank(x) <= r
    ensures var (o, s') := ResolvedAll(ps, n, ts, s);
      if o.Found? then s'.entries == s.entries + |ts| + Arities(ps, Added(s, s'))
      else s'.entries <= s.entries + |ts| + Arities(ps, Pending(ps, rank, r, s))
    decreases n, |ts|
  {
    if ts == [] {
      assert Added(s, s) == {};
    } else {
      var (o, s1) := Resolved(ps, n, ts[0], s);
      ResolvedEntries(ps, base, rank, n, ts[0], s);
      ResolvedLogged(ps, base, rank, n, ts[0], s);
      if o.Found? {
        ResolvedAllEntries(ps, base, rank, n, ts[1..], s1, r);
        ResolvedAllLogged(ps, base, rank, n, ts[1..], s1, r);
        var (rest, s2) := ResolvedAll(ps, n, ts[1..], s1);
        if rest.Found? {
          AddedJoin(ps, s, s1, s2);
        } else {
          PendingAfter(ps, rank, r, s, s1);
        }
      } else {
        PendingGrows(ps, rank, rank(ts[0]), r, s);
      }
    }
  }

  function FactoryArities(fs: seq<Func>): nat {
    if fs == [] then 0 else |fs[0].params| + FactoryArities(fs[1..])
  }

  lemma {:induction false} InvokedEntries(ps: map<Ty, Func>, base: map<Ty, Value>, rank: Ty -> nat, n: nat, f: Func,
                                          s: State)
    requires Ranked(ps, base, rank) && Logged(ps, base, s)
    ensures var (o, s') := Invoked(ps, n, f, s);
      && AddedUpTo(ps, rank, |ps|, s, s')
      && if o.Found? then s'.entries == s.entries + |f.params| + Arities(ps, Added(s, s'))
         else s'.entries <= s.entries + |f.params| + Arities(ps, Pending(ps, rank, |ps|, s))
  {
    ResolvedAllEntries(ps, base, rank, n, f.params, s, |ps|);
    ResolvedAllLogged(ps, base, rank, n, f.params, s, |ps|);
    assert Added(s, Invoked(ps, n, f, s).1) == Added(s, ResolvedAll(ps, n, f.params, s).1);
  }

  lemma {:induction false} InvokedManyEntries(ps: map<Ty, Func>, base: map<Ty, Value>, rank: Ty -> nat, n: nat,
                                              fs: seq<Func>, s: State)
    requires Ranked(ps, base, rank) && Logged(ps, base, s)
    ensures var (o, s') := InvokedMany(ps, n, fs, s);
      && AddedUpTo(ps, rank, |ps|, s, s')
      && if o.Found? then s'.entries == s.entries + FactoryArities(fs) + Arities(ps, Added(s, s'))
         else s'.entries <= s.entries + FactoryArities(fs) + Arities(ps, Pending(ps, rank, |ps|, s))
  {
    if fs == [] {
      assert Added(s, s) == {};
    } else {
      InvokedEntries(ps, base, rank, n, fs[0], s);
      InvokedLogged(ps, base, rank, n, fs[0], s);
      var (o, s1) := Invoked(ps, n, fs[0], s);
      if o.Found? {
        InvokedManyEntries(ps, base, rank, n, fs[1..], s1);
        InvokedManyLogged(ps, base, rank, n, fs[1..], s1);
        AddedJoin(ps, s, s1, InvokedMany(ps, n, fs[1..], s1).1);
        PendingAfter(ps, rank, |ps|, s, s1);
      }
    }
  }

  /**
    A whole Build enters `resolve` at most once per factory parameter and once per parameter of each
    provider that was not memoised before it, whether it succeeds or stops on a failure.
   */
  lemma {:induction false} BuildEntries(ps: map<Ty, Func>, base: map<Ty, Value>, n: nat, fs: seq<Func>, s: State)
    requires Acyclic(ps, base) && Logged(ps, base, s)
    ensures var (o, s') := InvokedMany(ps, n, fs, s);
      && s'.entries <= s.entries + FactoryArities(fs) + Arities(ps, ps.Keys - s.singletons.Keys)
      && (o.Found? ==> s'.entries == s.entries + FactoryArities(fs) + Arities(ps, Added(s, s')))
  {
    var rank := AcyclicHasRank(ps, base);
    InvokedManyEntries(ps, base, rank, n, fs, s);
    var (o, s') := InvokedMany(ps, n, fs, s);
    AritiesGrow(ps, Pending(ps, rank, |ps|, s), {}, ps.Keys - s.singletons.Keys);
    AritiesGrow(ps, Added(s, s'), {}, ps.Keys - s.singletons.Keys);
  }
}
