/**
  When resolution succeeds, and what it reports when it fails, read off the dependency graph alone.
  `Eval` is resolution without memoisation; the graph is cut at the types supplied as singletons.
 */
module DependencyGraph {
  import opened Wrappers
  import opened Container

  /** Plain recursive evaluation: no memo table, every body called as if it were the first. */
  function Eval(ps: map<Ty, Func>, base: map<Ty, Value>, stack: nat, t: Ty): Outcome<Value>
    decreases stack, 0
  {
    if t in base then Found(base[t])
    else if t in ps then
      if stack == 0 then Overflow
      else
        var o := EvalAll(ps, base, stack - 1, ps[t].params);
        if o.Found? then Found(ps[t].body(o.value, 0)) else o.Failed()
    else Missing(t)
  }

  function EvalAll(ps: map<Ty, Func>, base: map<Ty, Value>, stack: nat, ts: seq<Ty>): (r: Outcome<seq<Value>>)
    ensures r.Found? ==> |r.value| == |ts|
    decreases stack, |ts|
  {
    if ts == [] then Found([])
    else
      var o := Eval(ps, base, stack, ts[0]);
      if o.Found? then
        var rest := EvalAll(ps, base, stack, ts[1..]);
        if rest.Found? then Found([o.value] + rest.value) else rest
      else o.Failed()
  }

  lemma {:induction false} EvalGrows(ps: map<Ty, Func>, base: map<Ty, Value>, n: nat, m: nat, t: Ty)
    requires n <= m && Eval(ps, base, n, t) != Overflow
    ensures Eval(ps, base, m, t) == Eval(ps, base, n, t)
    decreases n, 0
  {
    if t !in base && t in ps {
      EvalAllGrows(ps, base, n - 1, m - 1, ps[t].params);
    }
  }

  lemma {:induction false} EvalAllGrows(ps: map<Ty, Func>, base: map<Ty, Value>, n: nat, m: nat, ts: seq<Ty>)
    requires n <= m && EvalAll(ps, base, n, ts) != Overflow
    ensures EvalAll(ps, base, m, ts) == EvalAll(ps, base, n, ts)
    decreases n, |ts|
  {
    if ts != [] {
      EvalGrows(ps, base, n, m, ts[0]);
      if Eval(ps, base, n, ts[0]).Found? {
        EvalAllGrows(ps, base, n, m, ts[1..]);
      }
    }
  }

  // ---------- paths ----------

  predicate Edge(ps: map<Ty, Func>, base: map<Ty, Value>, a: Ty, b: Ty) {
    a !in base && a in ps && b in ps[a].params
  }

  predicate PathFrom(ps: map<Ty, Func>, base: map<Ty, Value>, t: Ty, p: seq<Ty>) {
    && p != [] && p[0] == t
    && forall i :: 0 <= i < |p| - 1 ==> Edge(ps, base, p[i], p[i + 1])
  }

  function Last(p: seq<Ty>): Ty
    requires p != []
  {
    p[|p| - 1]
  }

  predicate Simple(p: seq<Ty>) {
    forall i, j :: 0 <= i < j < |p| ==> p[i] != p[j]
  }

  predicate Provided(ps: map<Ty, Func>, base: map<Ty, Value>, t: Ty) {
    t in base || t in ps
  }

  /** No dependency path from `t` comes back to a type it has passed. */
  ghost predicate AcyclicFrom(ps: map<Ty, Func>, base: map<Ty, Value>, t: Ty) {
    forall p :: PathFrom(ps, base, t, p) ==> Simple(p)
  }

  ghost predicate Acyclic(ps: map<Ty, Func>, base: map<Ty, Value>) {
    forall t :: AcyclicFrom(ps, base, t)
  }

  ghost predicate AllProvidedFrom(ps: map<Ty, Func>, base: map<Ty, Value>, t: Ty) {
    forall p :: PathFrom(ps, base, t, p) ==> Provided(ps, base, Last(p))
  }

  lemma {:induction false} FoundBoundsPaths(ps: map<Ty, Func>, base: map<Ty, Value>, n: nat, t: Ty, p: seq<Ty>)
    requires Eval(ps, base, n, t).Found? && PathFrom(ps, base, t, p)
    ensures |p| <= n + 1 && Provided(ps, base, Last(p))
  {
    if |p| > 1 {
      assert Edge(ps, base, p[0], p[1]);
      FoundAllMember(ps, base, n - 1, ps[t].params, p[1]);
      assert PathFrom(ps, base, p[1], p[1..]) by {
        forall i | 0 <= i < |p[1..]| - 1 ensures Edge(ps, base, p[1..][i], p[1..][i + 1]) {
          assert Edge(ps, base, p[i + 1], p[i + 2]);
        }
      }
      FoundBoundsPaths(ps, base, n - 1, p[1], p[1..]);
    }
  }

  lemma {:induction false} FoundAllMember(ps: map<Ty, Func>, base: map<Ty, Value>, n: nat, ts: seq<Ty>, t: Ty)
    requires EvalAll(ps, base, n, ts).Found? && t in ts
    ensures Eval(ps, base, n, t).Found?
    decreases |ts|
  {
    if t != ts[0] {
      FoundAllMember(ps, base, n, ts[1..], t);
    }
  }

  /** A failing evaluation points at a path: to the unprovided type, or as long as the stack is deep. */
  lemma {:induction false} FailurePath(ps: map<Ty, Func>, base: map<Ty, Value>, n: nat, t: Ty) returns (p: seq<Ty>)
    requires !Eval(ps, base, n, t).Found?
    ensures PathFrom(ps, base, t, p)
    ensures Eval(ps, base, n, t).Missing? ==> Last(p) == Eval(ps, base, n, t).t && !Provided(ps, base, Last(p))
    ensures Eval(ps, base, n, t).Overflow? ==> |p| == n + 1 && forall i :: 0 <= i < |p| ==> p[i] in ps.Keys
    decreases n, 0
  {
    if t in ps && n > 0 {
      var u, q := FailurePathAll(ps, base, n - 1, ps[t].params);
      p := [t] + q;
      forall i | 0 <= i < |p| - 1 ensures Edge(ps, base, p[i], p[i + 1]) {
        assert i == 0 || (p[i] == q[i - 1] && p[i + 1] == q[i] && Edge(ps, base, q[i - 1], q[i - 1 + 1]));
      }
    } else {
      p := [t];
    }
  }

  lemma {:induction false} FailurePathAll(ps: map<Ty, Func>, base: map<Ty, Value>, n: nat, ts: seq<Ty>)
    returns (u: Ty, p: seq<Ty>)
    requires !EvalAll(ps, base, n, ts).Found?
    ensures u in ts && PathFrom(ps, base, u, p)
    ensures EvalAll(ps, base, n, ts).Missing?
        ==> Last(p) == EvalAll(ps, base, n, ts).t && !Provided(ps, base, Last(p))
    ensures EvalAll(ps, base, n, ts).Overflow? ==> |p| == n + 1 && forall i :: 0 <= i < |p| ==> p[i] in ps.Keys
    decreases n, |ts|
  {
    if Eval(ps, base, n, ts[0]).Found? {
      u, p := FailurePathAll(ps, base, n, ts[1..]);
    } else {
      u := ts[0];
      p := FailurePath(ps, base, n, ts[0]);
    }
  }

  lemma {:induction false} SimpleFits(p: seq<Ty>, s: set<Ty>)
    requires Simple(p) && forall i :: 0 <= i < |p| ==> p[i] in s
    ensures |p| <= |s|
    decreases |p|
  {
    if p != [] {
      var q := p[..|p| - 1];
      forall i | 0 <= i < |q| ensures q[i] in s - {Last(p)} {
        assert q[i] == p[i];
      }
      SimpleFits(q, s - {Last(p)});
    }
  }

  /** A path that repeats a type can be made as long as one likes. */
  lemma {:induction false} Pump(ps: map<Ty, Func>, base: map<Ty, Value>, t: Ty, p: seq<Ty>, i: nat, j: nat, k: nat)
    returns (q: seq<Ty>)
    requires PathFrom(ps, base, t, p) && i < j < |p| && p[i] == p[j]
    ensures PathFrom(ps, base, t, q) && |q| > k
    decreases k - |p|
  {
    q := p;
    if |p| <= k {
      var longer := p[..j] + p[i..];
      assert longer[i] == longer[j];
      forall l | 0 <= l < |longer| - 1 ensures Edge(ps, base, longer[l], longer[l + 1]) {
        if l < j - 1 {
          assert Edge(ps, base, p[l], p[l + 1]);
        } else if l == j - 1 {
          assert Edge(ps, base, p[j - 1], p[j - 1 + 1]);
        } else {
          assert Edge(ps, base, p[l - j + i], p[l - j + i + 1]);
        }
      }
      q := Pump(ps, base, t, longer, i, j, k);
    }
  }

  lemma {:induction false} AcyclicNeverOverflows(ps: map<Ty, Func>, base: map<Ty, Value>, n: nat, t: Ty)
    requires AcyclicFrom(ps, base, t) && n >= |ps|
    ensures Eval(ps, base, n, t) != Overflow
  {
    if Eval(ps, base, n, t).Overflow? {
      var p := FailurePath(ps, base, n, t);
      assert |ps.Keys| == |ps|;
      SimpleFits(p, ps.Keys);
    }
  }

  /**
    A type can be resolved exactly when no dependency path from it is cyclic and every type on such a
    path is provided; and then a stack as deep as the provider table is enough.
   */
  lemma {:induction false} SucceedsIff(ps: map<Ty, Func>, base: map<Ty, Value>, t: Ty)
    ensures (exists n: nat :: Eval(ps, base, n, t).Found?)
       <==> AcyclicFrom(ps, base, t) && AllProvidedFrom(ps, base, t)
    ensures (exists n: nat :: Eval(ps, base, n, t).Found?) <==> Eval(ps, base, |ps|, t).Found?
  {
    if n: nat :| Eval(ps, base, n, t).Found? {
      forall p | PathFrom(ps, base, t, p) ensures Simple(p) && Provided(ps, base, Last(p)) {
        FoundBoundsPaths(ps, base, n, t, p);
        forall i, j | 0 <= i < j < |p| ensures p[i] != p[j] {
          if p[i] == p[j] {
            var q := Pump(ps, base, t, p, i, j, n + 1);
            FoundBoundsPaths(ps, base, n, t, q);
          }
        }
      }
    }
    if AcyclicFrom(ps, base, t) && AllProvidedFrom(ps, base, t) {
      AcyclicNeverOverflows(ps, base, |ps|, t);
      if !Eval(ps, base, |ps|, t).Found? {
        var p := FailurePath(ps, base, |ps|, t);
      }
    }
  }

  // ---------- which type a failure names ----------

  /** A visit of the dependency tree: the type, and how much stack was left for it. */
  datatype Visit = Visit(t: Ty, stack: nat)

  /** The dependency tree of `t` in left-to-right depth-first order. */
  function Preorder(ps: map<Ty, Func>, base: map<Ty, Value>, stack: nat, t: Ty): seq<Visit>
    decreases stack, 0
  {
    [Visit(t, stack)] +
    if t !in base && t in ps && stack > 0 then PreorderAll(ps, base, stack - 1, ps[t].params) else []
  }

  function PreorderAll(ps: map<Ty, Func>, base: map<Ty, Value>, stack: nat, ts: seq<Ty>): seq<Visit>
    decreases stack, |ts|
  {
    if ts == [] then []
    else Preorder(ps, base, stack, ts[0]) + PreorderAll(ps, base, stack, ts[1..])
  }

  /** A visit at which resolution cannot go on. */
  predicate Stops(ps: map<Ty, Func>, base: map<Ty, Value>, v: Visit) {
    v.t !in base && (v.t !in ps || v.stack == 0)
  }

  /** `o` is what the first stop in `vs` says. */
  ghost predicate NamesFirstStop<A>(ps: map<Ty, Func>, base: map<Ty, Value>, vs: seq<Visit>, o: Outcome<A>) {
    if o.Found? then forall k :: 0 <= k < |vs| ==> !Stops(ps, base, vs[k])
    else (exists i :: 0 <= i < |vs| && StopsFirstAt(ps, base, vs, i)
                   && (o.Missing? ==> vs[i].t == o.t && !Provided(ps, base, o.t))
                   && (o.Overflow? ==> vs[i].t in ps))
  }

  ghost predicate StopsFirstAt(ps: map<Ty, Func>, base: map<Ty, Value>, vs: seq<Visit>, i: nat)
    requires i < |vs|
  {
    Stops(ps, base, vs[i]) && forall k :: 0 <= k < i ==> !Stops(ps, base, vs[k])
  }

  lemma {:induction false} FirstStop(ps: map<Ty, Func>, base: map<Ty, Value>, n: nat, t: Ty)
    ensures NamesFirstStop(ps, base, Preorder(ps, base, n, t), Eval(ps, base, n, t))
    decreases n, 0
  {
    var vs := Preorder(ps, base, n, t);
    if t !in base && t in ps && n > 0 {
      var rest := PreorderAll(ps, base, n - 1, ps[t].params);
      var o := EvalAll(ps, base, n - 1, ps[t].params);
      FirstStopAll(ps, base, n - 1, ps[t].params);
      StopsAppend(ps, base, [Visit(t, n)], rest, o);
      assert vs == [Visit(t, n)] + rest;
      assert NamesFirstStop(ps, base, vs, o);
    } else {
      assert Eval(ps, base, n, t).Found? || StopsFirstAt(ps, base, vs, 0);
    }
  }

  lemma {:induction false} FirstStopAll(ps: map<Ty, Func>, base: map<Ty, Value>, n: nat, ts: seq<Ty>)
    ensures NamesFirstStop(ps, base, PreorderAll(ps, base, n, ts), EvalAll(ps, base, n, ts))
    decreases n, |ts|
  {
    if ts != [] {
      var head, rest := Preorder(ps, base, n, ts[0]), PreorderAll(ps, base, n, ts[1..]);
      var o := Eval(ps, base, n, ts[0]);
      FirstStop(ps, base, n, ts[0]);
      if o.Found? {
        FirstStopAll(ps, base, n, ts[1..]);
        StopsAppend(ps, base, head, rest, EvalAll(ps, base, n, ts[1..]));
      } else {
        var i :| 0 <= i < |head| && StopsFirstAt(ps, base, head, i)
          && (o.Missing? ==> head[i].t == o.t && !Provided(ps, base, o.t))
          && (o.Overflow? ==> head[i].t in ps);
        assert StopsFirstAt(ps, base, head + rest, i);
      }
    }
  }

  lemma {:induction false} StopsAppend<A>(ps: map<Ty, Func>, base: map<Ty, Value>, vs: seq<Visit>, ws: seq<Visit>,
                                          o: Outcome<A>)
    requires forall k :: 0 <= k < |vs| ==> !Stops(ps, base, vs[k])
    requires NamesFirstStop(ps, base, ws, o)
    ensures NamesFirstStop(ps, base, vs + ws, o)
  {
    if !o.Found? {
      var i :| 0 <= i < |ws| && StopsFirstAt(ps, base, ws, i)
        && (o.Missing? ==> ws[i].t == o.t && !Provided(ps, base, o.t))
        && (o.Overflow? ==> ws[i].t in ps);
      assert (vs + ws)[|vs| + i] == ws[i];
      assert StopsFirstAt(ps, base, vs + ws, |vs| + i);
    }
  }

  predicate AllProvided(ps: map<Ty, Func>, base: map<Ty, Value>, vs: seq<Visit>) {
    forall k :: 0 <= k < |vs| ==> Provided(ps, base, vs[k].t)
  }

  ghost predicate FirstUnprovided(ps: map<Ty, Func>, base: map<Ty, Value>, vs: seq<Visit>, i: int) {
    && 0 <= i < |vs| && !Provided(ps, base, vs[i].t)
    && forall k :: 0 <= k < i ==> Provided(ps, base, vs[k].t)
  }

  /**
    Without a cycle, resolution either succeeds, or reports the first type of the left-to-right
    depth-first order that is not provided.
   */
  lemma {:induction false} FailureNamesFirstUnprovided(ps: map<Ty, Func>, base: map<Ty, Value>, n: nat, t: Ty)
    requires AcyclicFrom(ps, base, t) && n >= |ps|
    ensures var o, vs := Eval(ps, base, n, t), Preorder(ps, base, n, t);
      && (o.Found? <==> AllProvided(ps, base, vs))
      && (!o.Found? ==> o.Missing? && (exists i :: FirstUnprovided(ps, base, vs, i) && vs[i].t == o.t))
  {
    FirstStop(ps, base, n, t);
    AcyclicNeverOverflows(ps, base, n, t);
    var o, vs := Eval(ps, base, n, t), Preorder(ps, base, n, t);
    if o.Missing? {
      var i :| 0 <= i < |vs| && StopsFirstAt(ps, base, vs, i) && vs[i].t == o.t && !Provided(ps, base, o.t);
      forall k | 0 <= k < i ensures Provided(ps, base, vs[k].t) {
        assert !Stops(ps, base, vs[k]);
      }
      assert FirstUnprovided(ps, base, vs, i);
      assert !AllProvided(ps, base, vs);
    } else {
      forall k | 0 <= k < |vs| ensures Provided(ps, base, vs[k].t) {
        assert !Stops(ps, base, vs[k]);
      }
    }
  }
}
