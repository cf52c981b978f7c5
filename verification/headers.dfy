/**
  Copying one header map into another while skipping and rewriting entries (server/headers.go). Go
  visits the keys of a map in an arbitrary order, so the order is a parameter here. The theorems ask
  that it lists the keys of the source, each once.
 */
module Headers {
  import opened Wrappers
  import opened Text

  type Header = map<Bytes, seq<Bytes>>

  /** The rewriting options of copyHeader; each gives the new key and values, or `None` when it does not apply. */
  datatype Replacer =
    | ReplaceInVals(key: Bytes, from: Bytes, to: Bytes)
    | ReplaceInKeys(from: Bytes, to: Bytes)
    | KeyCase(f: Bytes -> Bytes)
  {
    function Apply(k: Bytes, vv: seq<Bytes>): Option<(Bytes, seq<Bytes>)> {
      match this
      case ReplaceInVals(key, from, to) =>
        if Lower(k) == Lower(key) then
          Some((k, seq(|vv|, i requires 0 <= i < |vv| => ReplaceFirst(vv[i], from, to))))
        else None
      case ReplaceInKeys(from, to) =>
        if Contains(k, from) then Some((ReplaceFirst(k, from, to), vv)) else None
      case KeyCase(f) => Some((f(k), vv))
    }
  }

  /** The replacers applied from left to right to one entry. */
  function Rewritten(rs: seq<Replacer>, k: Bytes, vv: seq<Bytes>): (Bytes, seq<Bytes>) {
    if rs == [] then (k, vv)
    else match rs[0].Apply(k, vv)
      case Some(p) => Rewritten(rs[1..], p.0, p.1)
      case None => Rewritten(rs[1..], k, vv)
  }

  function SkipSet(keys: seq<Bytes>): set<Bytes> {
    set k | k in keys :: Lower(k)
  }

  predicate Unskipped(src: Header, skip: set<Bytes>, k: Bytes) {
    k in src && Lower(k) !in skip
  }

  /** The copy loop over the keys in `order`; what is not a key of the source is never visited. */
  function Copied(dst: Header, src: Header, skip: set<Bytes>, rs: seq<Replacer>, order: seq<Bytes>): Header {
    if order == [] then dst
    else
      var d := Copied(dst, src, skip, rs, order[..|order| - 1]);
      var k := order[|order| - 1];
      if !Unskipped(src, skip, k) then d
      else
        var (k', vv') := Rewritten(rs, k, src[k]);
        d[k' := vv']
  }

  /** A header map is shared by reference: whoever holds it sees every change. */
  class HeaderMap {
    var m: Header

    constructor ()
      ensures m == map[]
    {
      m := map[];
    }
  }

  method SkipKeys(keys: seq<Bytes>) returns (skip: set<Bytes>)
    ensures skip == SkipSet(keys)
  {
    skip := {};
    for i := 0 to |keys|
      invariant skip == SkipSet(keys[..i])
    {
      assert keys[..i + 1] == keys[..i] + [keys[i]];
      skip := skip + {Lower(keys[i])};
    }
    assert keys[..|keys|] == keys;
  }

  method CopyHeader(dst: HeaderMap, src: HeaderMap, skipped: seq<Bytes>, replacers: seq<Replacer>, order: seq<Bytes>)
    requires dst != src
    modifies dst
    ensures dst.m == Copied(old(dst.m), src.m, SkipSet(skipped), replacers, order)
  {
    var skip := SkipKeys(skipped);
    for i := 0 to |order|
      invariant dst.m == Copied(old(dst.m), src.m, skip, replacers, order[..i])
    {
      assert order[..i + 1][..i] == order[..i];
      if order[i] !in src.m || Lower(order[i]) in skip {
        continue;
      }
      var k, vv := order[i], src.m[order[i]];
      for j := 0 to |replacers|
        invariant Rewritten(replacers, order[i], src.m[order[i]]) == Rewritten(replacers[j..], k, vv)
      {
        var p := replacers[j].Apply(k, vv);
        if p.Some? {
          k, vv := p.value.0, p.value.1;
        }
        assert replacers[j..][1..] == replacers[j + 1..];
      }
      dst.m := dst.m[k := vv];
    }
    assert order[..|order|] == order;
  }

  // ---------- what the copy loop computes ----------

  function NewKey(src: Header, rs: seq<Replacer>, k: Bytes): Bytes
    requires k in src
  {
    Rewritten(rs, k, src[k]).0
  }

  function NewVals(src: Header, rs: seq<Replacer>, k: Bytes): seq<Bytes>
    requires k in src
  {
    Rewritten(rs, k, src[k]).1
  }

  /** Entries that end up under the same key carry the same values. */
  ghost predicate Agree(src: Header, skip: set<Bytes>, rs: seq<Replacer>) {
    forall k, l :: Unskipped(src, skip, k) && Unskipped(src, skip, l) && NewKey(src, rs, k) == NewKey(src, rs, l)
      ==> NewVals(src, rs, k) == NewVals(src, rs, l)
  }

  ghost predicate InjectiveRewrite(src: Header, skip: set<Bytes>, rs: seq<Replacer>) {
    forall k, l :: Unskipped(src, skip, k) && Unskipped(src, skip, l) && NewKey(src, rs, k) == NewKey(src, rs, l)
      ==> k == l
  }

  /** Every unskipped entry in rewritten form. */
  ghost function Overlay(src: Header, skip: set<Bytes>, rs: seq<Replacer>): Header
    requires Agree(src, skip, rs)
  {
    map k | k in src.Keys && Unskipped(src, skip, k) :: NewKey(src, rs, k) := NewVals(src, rs, k)
  }

  /** Entry `k` of the source is copied to key `x`. */
  predicate Feeds(src: Header, skip: set<Bytes>, rs: seq<Replacer>, k: Bytes, x: Bytes) {
    Unskipped(src, skip, k) && NewKey(src, rs, k) == x
  }

  /** Key `x` of the copy holds the entry visited last among those copied to it, or is as before. */
  lemma {:induction false} LastVisitWins(dst: Header, src: Header, skip: set<Bytes>, rs: seq<Replacer>,
                                         order: seq<Bytes>, x: Bytes) returns (w: int)
    ensures -1 <= w < |order| && forall i :: w < i < |order| ==> !Feeds(src, skip, rs, order[i], x)
    ensures var r := Copied(dst, src, skip, rs, order);
      if w == -1 then (x in r <==> x in dst) && (x in dst ==> r[x] == dst[x])
      else Feeds(src, skip, rs, order[w], x) && x in r && r[x] == NewVals(src, rs, order[w])
  {
    if order == [] {
      w := -1;
    } else {
      var init, k := order[..|order| - 1], order[|order| - 1];
      if Feeds(src, skip, rs, k, x) {
        w := |order| - 1;
      } else {
        w := LastVisitWins(dst, src, skip, rs, init, x);
        forall i | w < i < |order| ensures !Feeds(src, skip, rs, order[i], x) {
          assert i == |order| - 1 || order[i] == init[i];
        }
      }
    }
  }

  /** The keys of the copy do not depend on the order, whatever collides. */
  lemma {:induction false} CopiedKeys(dst: Header, src: Header, skip: set<Bytes>, rs: seq<Replacer>, order: seq<Bytes>,
                                      x: Bytes)
    requires Enumerates(order, src.Keys)
    ensures x in Copied(dst, src, skip, rs, order) <==> x in dst || exists k :: Feeds(src, skip, rs, k, x)
  {
    var w := LastVisitWins(dst, src, skip, rs, order, x);
    if k :| Feeds(src, skip, rs, k, x) {
      assert k in src.Keys && k in order;
    }
  }

  /** When colliding entries agree, the copy is the old map overridden by the rewritten entries. */
  lemma {:induction false} CopiedIsOverlay(dst: Header, src: Header, skip: set<Bytes>, rs: seq<Replacer>,
                                           order: seq<Bytes>)
    requires Enumerates(order, src.Keys) && Agree(src, skip, rs)
    ensures Copied(dst, src, skip, rs, order) == dst + Overlay(src, skip, rs)
  {
    var r, o := Copied(dst, src, skip, rs, order), Overlay(src, skip, rs);
    forall x ensures (x in r <==> x in dst + o) && (x in r ==> r[x] == (dst + o)[x]) {
      var w := LastVisitWins(dst, src, skip, rs, order, x);
      if w != -1 {
        assert order[w] in src.Keys && Unskipped(src, skip, order[w]);
        assert NewKey(src, rs, order[w]) in o;
      }
    }
  }

  /**
    The copy is the same for every order in which Go may visit the source exactly when entries that
    end up under the same key carry the same values.
   */
  lemma {:induction false} OrderIndependentIff(dst: Header, src: Header, skip: set<Bytes>, rs: seq<Replacer>)
    ensures Agree(src, skip, rs)
       <==> (forall o1, o2 :: Enumerates(o1, src.Keys) && Enumerates(o2, src.Keys)
               ==> Copied(dst, src, skip, rs, o1) == Copied(dst, src, skip, rs, o2))
  {
    if Agree(src, skip, rs) {
      forall o | Enumerates(o, src.Keys) ensures Copied(dst, src, skip, rs, o) == dst + Overlay(src, skip, rs) {
        CopiedIsOverlay(dst, src, skip, rs, o);
      }
    } else {
      var k, l :| Unskipped(src, skip, k) && Unskipped(src, skip, l)
        && NewKey(src, rs, k) == NewKey(src, rs, l) && NewVals(src, rs, k) != NewVals(src, rs, l);
      var o1 := EnumerationEndingIn(src.Keys, k);
      var o2 := EnumerationEndingIn(src.Keys, l);
      var x := NewKey(src, rs, k);
      var w1 := LastVisitWins(dst, src, skip, rs, o1, x);
      var w2 := LastVisitWins(dst, src, skip, rs, o2, x);
      assert Feeds(src, skip, rs, o1[|o1| - 1], x) && Feeds(src, skip, rs, o2[|o2| - 1], x);
      assert Copied(dst, src, skip, rs, o1)[x] != Copied(dst, src, skip, rs, o2)[x];
    }
  }

  /** In particular when no two unskipped keys are rewritten to the same key. */
  lemma {:induction false} InjectiveAgrees(src: Header, skip: set<Bytes>, rs: seq<Replacer>, dst: Header,
                                           order: seq<Bytes>)
    requires InjectiveRewrite(src, skip, rs) && Enumerates(order, src.Keys)
    ensures Agree(src, skip, rs) && Copied(dst, src, skip, rs, order) == dst + Overlay(src, skip, rs)
  {
    assert Agree(src, skip, rs);
    CopiedIsOverlay(dst, src, skip, rs, order);
  }
}
