/** An optional value, and the orders in which Go may range over the keys of a map. */
module Wrappers {

  datatype Option<+T> = None | Some(value: T)

  /** `order` holds the keys and nothing else. */
  predicate Lists<T(==)>(order: seq<T>, keys: set<T>) {
    && (forall i :: 0 <= i < |order| ==> order[i] in keys)
    && (forall k :: k in keys ==> k in order)
  }

  /** `order` lists the keys of a map, each once. */
  predicate Enumerates<T(==)>(order: seq<T>, keys: set<T>) {
    && Lists(order, keys)
    && (forall i, j :: 0 <= i < j < |order| ==> order[i] != order[j])
  }

  lemma {:induction false} EnumerationExists<T>(keys: set<T>) returns (order: seq<T>)
    ensures Enumerates(order, keys)
    decreases |keys|
  {
    order := [];
    if k :| k in keys {
      var rest := EnumerationExists(keys - {k});
      order := rest + [k];
      forall l | l in keys ensures l in order {
        assert l == k == order[|rest|] || l in rest;
      }
    }
  }

  /** An order that visits `last` at the end. */
  lemma {:induction false} EnumerationEndingIn<T>(keys: set<T>, last: T) returns (order: seq<T>)
    requires last in keys
    ensures Enumerates(order, keys) && order != [] && order[|order| - 1] == last
  {
    var rest := EnumerationExists(keys - {last});
    order := rest + [last];
    forall l | l in keys ensures l in order {
      assert l == last == order[|rest|] || l in rest;
    }
  }
}
