/** Overwriting the entries of a map key by key, until it is another map of the same keys. */
module Filling {

  ghost predicate Enumerates<K(!new)>(order: seq<K>, keys: set<K>) { forall k :: k in order <==> k in keys }

  /** The entries under the first `i` keys are those of `target`, the others still those of `entries`. */
  ghost predicate FilledUpTo<K, V>(filled: map<K, V>, entries: map<K, V>, target: map<K, V>, order: seq<K>, i: nat) {
    && i <= |order| && filled.Keys == entries.Keys == target.Keys
    && forall k :: k in entries ==> filled[k] == if k in order[..i] then target[k] else entries[k]
  }

  /** The target differs only under the keys that something is given for. */
  ghost predicate RestAgrees<K, V>(entries: map<K, V>, target: map<K, V>, given: set<K>) {
    target.Keys == entries.Keys && forall k :: k in entries && k !in given ==> entries[k] == target[k]
  }

  lemma FillStart<K, V>(entries: map<K, V>, target: map<K, V>, order: seq<K>, given: set<K>)
    requires RestAgrees(entries, target, given)
    ensures FilledUpTo(entries, entries, target, order, 0)
  {
  }

  /** One more key; one that has no entry is passed over. */
  lemma FillStep<K, V>(filled: map<K, V>, entries: map<K, V>, target: map<K, V>, order: seq<K>, i: nat)
    requires FilledUpTo(filled, entries, target, order, i) && i < |order|
    ensures var key := order[i];
      && (key in filled <==> key in entries) && target.Keys == entries.Keys
      && (key in filled ==> filled[key] == entries[key] || filled[key] == target[key])
      && (key in filled ==> FilledUpTo(filled[key := target[key]], entries, target, order, i + 1))
      && (key !in filled ==> FilledUpTo(filled, entries, target, order, i + 1))
  {
    assert order[..i + 1] == order[..i] + [order[i]];
  }

  /** Once every key that matters has been passed, the map is the target. */
  lemma FillEnd<K(!new), V>(filled: map<K, V>, entries: map<K, V>, target: map<K, V>, order: seq<K>, given: set<K>)
    requires FilledUpTo(filled, entries, target, order, |order|) && RestAgrees(entries, target, given)
    requires Enumerates(order, given)
    ensures filled == target
  {
    assert order[..|order|] == order;
  }
}
