/** Hash containers iterate in an order of their own choosing: listings of a map or a set. */
module Listing {

  /** `order` names every key of `m` exactly once, with its value. */
  ghost predicate Lists<K, V>(order: seq<(K, V)>, m: map<K, V>) {
    && (forall i :: 0 <= i < |order| ==> order[i].0 in m && m[order[i].0] == order[i].1)
    && (forall i, j :: 0 <= i < j < |order| ==> order[i].0 != order[j].0)
    && (forall k :: k in m ==> exists i :: 0 <= i < |order| && order[i].0 == k)
  }

  ghost predicate ListsSet<K>(order: seq<K>, s: set<K>) {
    && (forall i, j :: 0 <= i < j < |order| ==> order[i] != order[j])
    && s == set k | k in order
  }

  /** What a reader inserting the pairs one after another ends up with. */
  function InsertAll<K, V>(m: map<K, V>, order: seq<(K, V)>): map<K, V> {
    if order == [] then m
    else
      var last := |order| - 1;
      InsertAll(m, order[..last])[order[last].0 := order[last].1]
  }

  lemma InsertNothing<K, V>(m: map<K, V>)
    ensures InsertAll(m, []) == m
  {}

  lemma {:induction false} InsertAllConcat<K, V>(m: map<K, V>, a: seq<(K, V)>, b: seq<(K, V)>)
    ensures InsertAll(InsertAll(m, a), b) == InsertAll(m, a + b)
    decreases b
  {
    if b == [] {
      assert a + b == a;
    } else {
      assert (a + b)[..|a + b| - 1] == a + b[..|b| - 1];
      InsertAllConcat(m, a, b[..|b| - 1]);
    }
  }

  lemma {:induction false} InsertAllMeaning<K, V>(order: seq<(K, V)>)
    requires forall i, j :: 0 <= i < j < |order| ==> order[i].0 != order[j].0
    ensures Lists(order, InsertAll(map[], order))
  {
    if order != [] {
      var last := |order| - 1;
      var m := InsertAll(map[], order[..last]);
      InsertAllMeaning(order[..last]);
      forall k | k in InsertAll(map[], order)
        ensures exists i :: 0 <= i < |order| && order[i].0 == k
      {
        if k in m {
          var i :| 0 <= i < last && order[..last][i].0 == k;
          assert order[i].0 == k;
        } else {
          assert order[last].0 == k;
        }
      }
    }
  }

  /** Two maps with one listing are the same map. */
  lemma ListingDetermines<K, V>(order: seq<(K, V)>, a: map<K, V>, b: map<K, V>)
    requires Lists(order, a) && Lists(order, b)
    ensures a == b
  {
    assert forall k :: k in a <==> k in b;
  }

  lemma InsertingListing<K, V>(order: seq<(K, V)>, m: map<K, V>)
    requires Lists(order, m)
    ensures InsertAll(map[], order) == m
  {
    InsertAllMeaning(order);
    ListingDetermines(order, InsertAll(map[], order), m);
  }
}
