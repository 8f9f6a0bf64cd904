/**
  Lists of the values of a map, each once, in the arbitrary order of a hash
  map: which values they hold does not depend on the order.
*/
module Enumerations {
  import opened Sequences

  /** The values of `keys`, in order. */
  function Dealt<K, V>(keys: seq<K>, values: map<K, V>): (vs: seq<V>)
    requires forall i :: 0 <= i < |keys| ==> keys[i] in values
    ensures |vs| == |keys|
    ensures forall i :: 0 <= i < |keys| ==> vs[i] == values[keys[i]]
  {
    seq(|keys|, i requires 0 <= i < |keys| => values[keys[i]])
  }

  ghost predicate Enumerates<K(!new), V>(keys: seq<K>, values: map<K, V>) {
    && Distinct(keys)
    && (forall i :: 0 <= i < |keys| ==> keys[i] in values)
    && (forall key :: key in values ==> key in keys)
  }

  /** The list holds the value of each key once. */
  ghost predicate Lists<K(!new), V>(out: seq<V>, values: map<K, V>) {
    exists keys :: Enumerates(keys, values) && multiset(out) == multiset(Dealt(keys, values))
  }

  /** Every key has been listed but those still to do. */
  ghost predicate Listing<K(!new), V>(keys: seq<K>, todo: set<K>, values: map<K, V>) {
    && Distinct(keys)
    && (forall i :: 0 <= i < |keys| ==> keys[i] in values && keys[i] !in todo)
    && (forall key :: key in values && key !in todo ==> key in keys)
  }

  lemma ListingStep<K(!new), V>(keys: seq<K>, todo: set<K>, key: K, values: map<K, V>)
    requires Listing(keys, todo, values) && key in todo
    ensures key !in values ==> Listing(keys, todo - {key}, values)
    ensures key in values ==> Listing(keys + [key], todo - {key}, values)
                              && Dealt(keys + [key], values) == Dealt(keys, values) + [values[key]]
  {}

  function Restricted<K, V>(values: map<K, V>, keep: K -> bool): map<K, V> {
    map key | key in values && keep(key) :: values[key]
  }

  // ---------------------------------------------------------------------
  // Bags of values
  // ---------------------------------------------------------------------

  lemma DealtSplit<K, V>(a: seq<K>, key: K, b: seq<K>, values: map<K, V>)
    requires key in values && forall i :: 0 <= i < |a| ==> a[i] in values
    requires forall i :: 0 <= i < |b| ==> b[i] in values
    ensures multiset(Dealt(a + [key] + b, values)) == multiset(Dealt(a + b, values)) + multiset{values[key]}
  {
    assert Dealt(a + [key] + b, values) == Dealt(a, values) + [values[key]] + Dealt(b, values);
    assert Dealt(a + b, values) == Dealt(a, values) + Dealt(b, values);
  }

  /** Distinct keys that all occur in another list deal no value that it does not deal. */
  lemma {:induction false} SubBag<K, V>(a: seq<K>, b: seq<K>, values: map<K, V>)
    requires Distinct(a) && forall i :: 0 <= i < |a| ==> a[i] in b
    requires forall i :: 0 <= i < |b| ==> b[i] in values
    ensures multiset(Dealt(a, values)) <= multiset(Dealt(b, values))
  {
    if a != [] {
      var n := |a| - 1;
      var init, last := a[..n], a[n];
      var i: nat :| i < |b| && b[i] == last;
      var front, back := b[..i], b[i + 1..];
      OthersRemain(init, last, b, i);
      SubBag(init, front + back, values);
      assert a == init + [last] + [];
      assert b == front + [last] + back;
      assert init + [] == init;
      DealtSplit(init, last, [], values);
      DealtSplit(front, last, back, values);
    }
  }

  lemma OthersRemain<K>(init: seq<K>, last: K, b: seq<K>, i: nat)
    requires i < |b| && b[i] == last && last !in init && forall k :: 0 <= k < |init| ==> init[k] in b
    ensures forall k :: 0 <= k < |init| ==> init[k] in b[..i] + b[i + 1..]
  {
    var rest := b[..i] + b[i + 1..];
    forall k | 0 <= k < |init| ensures init[k] in rest {
      var j :| 0 <= j < |b| && b[j] == init[k];
      assert rest[if j < i then j else j - 1] == init[k];
    }
  }

  /** Keeping values is keeping their keys. */
  lemma {:induction false} KeptDealt<K(!new), V>(keys: seq<K>, values: map<K, V>, keepKey: K -> bool,
                                       keepValue: V -> bool)
    requires forall i :: 0 <= i < |keys| ==> keys[i] in values
    requires forall key :: key in values ==> (keepValue(values[key]) <==> keepKey(key))
    ensures forall i :: 0 <= i < |Kept(keys, keepKey)| ==> Kept(keys, keepKey)[i] in Restricted(values, keepKey)
    ensures Kept(Dealt(keys, values), keepValue) == Dealt(Kept(keys, keepKey), Restricted(values, keepKey))
  {
    KeptIs(keys, keepKey);
    forall i | 0 <= i < |Kept(keys, keepKey)| ensures Kept(keys, keepKey)[i] in Restricted(values, keepKey) {
      assert Kept(keys, keepKey)[i] in Kept(keys, keepKey);
    }
    if keys != [] {
      var init, last := keys[..|keys| - 1], keys[|keys| - 1];
      KeptDealt(init, values, keepKey, keepValue);
      var dealt := Dealt(keys, values);
      assert dealt[..|dealt| - 1] == Dealt(init, values);
    }
  }

  lemma KeptEnumerates<K(!new), V>(keys: seq<K>, values: map<K, V>, keep: K -> bool)
    requires Enumerates(keys, values)
    ensures Enumerates(Kept(keys, keep), Restricted(values, keep))
  {
    KeptIs(keys, keep);
    KeptDistinct(keys, keep);
    var kept := Kept(keys, keep);
    forall i | 0 <= i < |kept| ensures kept[i] in Restricted(values, keep) {
      assert kept[i] in kept;
    }
  }

  lemma SameValues<K(!new), V>(a: seq<K>, b: seq<K>, values: map<K, V>)
    requires Enumerates(a, values) && Enumerates(b, values)
    ensures multiset(Dealt(a, values)) == multiset(Dealt(b, values))
  {
    SubBag(a, b, values);
    SubBag(b, a, values);
  }

  /** Of any list of the values, those kept are the values any list of the kept entries holds. */
  lemma {:induction false} KeptLists<K(!new), V(!new)>(values: map<K, V>, keepKey: K -> bool, keepValue: V -> bool,
                                       out: seq<V>, own: seq<V>)
    requires Lists(out, values) && Lists(own, Restricted(values, keepKey))
    requires forall key :: key in values ==> (keepValue(values[key]) <==> keepKey(key))
    ensures multiset(Kept(out, keepValue)) == multiset(own)
  {
    var mine := Restricted(values, keepKey);
    var keys :| Enumerates(keys, values) && multiset(out) == multiset(Dealt(keys, values));
    var ownKeys :| Enumerates(ownKeys, mine) && multiset(own) == multiset(Dealt(ownKeys, mine));
    KeptBag(out, Dealt(keys, values), keepValue);
    KeptDealt(keys, values, keepKey, keepValue);
    KeptEnumerates(keys, values, keepKey);
    SameValues(Kept(keys, keepKey), ownKeys, mine);
  }
}
