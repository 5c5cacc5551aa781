/** Ordered enumeration of finite sets: what iterating a `BTreeMap` or `BTreeSet`
    yields, and what a stable `sort_by` produces. */
module Ordering {

  /** A strict total order. */
  ghost predicate StrictOrder<T(!new)>(less: (T, T) -> bool) {
    && (forall x :: !less(x, x))
    && (forall x, y, z :: less(x, y) && less(y, z) ==> less(x, z))
    && (forall x, y :: x != y ==> less(x, y) || less(y, x))
  }

  ghost predicate Asymmetric<T(!new)>(less: (T, T) -> bool) {
    forall x, y :: less(x, y) ==> !less(y, x)
  }

  /** Every element precedes every later one. */
  ghost predicate AscendingBy<T>(s: seq<T>, less: (T, T) -> bool) {
    forall i, j :: 0 <= i < j < |s| ==> less(s[i], s[j])
  }

  /** Two ascending sequences with the same elements are the same sequence. */
  lemma {:induction false} AscendingUnique<T(!new)>(s: seq<T>, t: seq<T>, less: (T, T) -> bool)
    requires Asymmetric(less)
    requires AscendingBy(s, less) && AscendingBy(t, less)
    requires forall x :: x in s <==> x in t
    ensures s == t
  {
    if s == [] {
      assert forall i :: 0 <= i < |t| ==> t[i] in s;
    } else {
      assert s[0] in t;
      var i :| 0 <= i < |t| && t[i] == s[0];
      assert t[0] in s;
      var j :| 0 <= j < |s| && s[j] == t[0];
      assert s[0] == t[0];
      forall x ensures x in s[1..] <==> x in t[1..] {
        if x in s[1..] {
          var k :| 1 <= k < |s| && s[k] == x;
          assert less(s[0], x) && x in t;
        }
        if x in t[1..] {
          var k :| 1 <= k < |t| && t[k] == x;
          assert less(t[0], x) && x in s;
        }
      }
      AscendingUnique(s[1..], t[1..], less);
      assert s == [s[0]] + s[1..] && t == [t[0]] + t[1..];
    }
  }

  predicate IsLeast<T(==)>(m: T, s: set<T>, less: (T, T) -> bool) {
    m in s && forall y :: y in s && y != m ==> less(m, y)
  }

  /** A nonempty finite set has a least element. */
  lemma {:induction false} LeastExists<T(!new)>(s: set<T>, less: (T, T) -> bool)
    requires StrictOrder(less)
    requires s != {}
    ensures exists m :: IsLeast(m, s, less)
  {
    var x :| x in s;
    if s == {x} {
      assert IsLeast(x, s, less);
    } else {
      LeastExists(s - {x}, less);
      var m :| IsLeast(m, s - {x}, less);
      assert m in s && m != x;
      if less(x, m) {
        LeastExtends(m, x, s, less);
      } else {
        assert less(m, x);
        assert IsLeast(m, s, less);
      }
    }
  }

  lemma LeastExtends<T(!new)>(m: T, x: T, s: set<T>, less: (T, T) -> bool)
    requires StrictOrder(less) && x in s
    requires IsLeast(m, s - {x}, less) && less(x, m)
    ensures IsLeast(x, s, less)
  {
    forall y | y in s && y != x ensures less(x, y) {
      if y != m { assert less(m, y); }
    }
  }

  lemma LeastFirst<T(!new)>(m: T, rest: seq<T>, s: set<T>, less: (T, T) -> bool)
    requires IsLeast(m, s, less) && AscendingBy(rest, less) && |rest| == |s - {m}|
    requires forall x :: x in rest <==> x in s - {m}
    ensures AscendingBy([m] + rest, less) && |[m] + rest| == |s| && forall x :: x in [m] + rest <==> x in s
  {
    assert forall x :: x in rest ==> less(m, x);
    assert forall x :: x in [m] + rest <==> x == m || x in rest;
    assert s == (s - {m}) + {m};
  }

  /** The elements of `s` in ascending order. */
  function Ascending<T(!new,==)>(s: set<T>, less: (T, T) -> bool): (r: seq<T>)
    requires StrictOrder(less)
    ensures AscendingBy(r, less)
    ensures forall x :: x in r <==> x in s
    ensures |r| == |s|
  {
    if s == {} then [] else
      LeastExists(s, less);
      var m :| IsLeast(m, s, less);
      var rest := Ascending(s - {m}, less);
      LeastFirst(m, rest, s, less);
      [m] + rest
  }

  /** An ascending sequence enumerates its own element set. */
  lemma AscendingOfElements<T(!new)>(r: seq<T>, s: set<T>, less: (T, T) -> bool)
    requires StrictOrder(less)
    requires AscendingBy(r, less)
    requires forall x :: x in r <==> x in s
    ensures Ascending(s, less) == r
  {
    AscendingUnique(Ascending(s, less), r, less);
  }

  /** The values of `m` in ascending key order, as `BTreeMap::into_values`. */
  function ValuesInOrder<K(!new,==), V>(m: map<K, V>, less: (K, K) -> bool): seq<V>
    requires StrictOrder(less)
  {
    var keys := Ascending(m.Keys, less);
    seq(|keys|, i requires 0 <= i < |keys| => assert keys[i] in keys; m[keys[i]])
  }

  lemma ValuesInOrderHolds<K(!new), V(!new)>(m: map<K, V>, less: (K, K) -> bool)
    requires StrictOrder(less)
    ensures |ValuesInOrder(m, less)| == |m|
    ensures forall v :: v in ValuesInOrder(m, less) <==> exists k :: k in m && m[k] == v
  {
    var keys, r := Ascending(m.Keys, less), ValuesInOrder(m, less);
    assert |m.Keys| == |m|;
    forall v | v in r ensures exists k :: k in m && m[k] == v {
      var i :| 0 <= i < |r| && r[i] == v;
      assert keys[i] in keys;
    }
    forall k | k in m ensures m[k] in r {
      assert k in keys;
      var i :| 0 <= i < |keys| && keys[i] == k;
      assert r[i] == m[k];
    }
  }

  /** When every value is ordered as its key is, the values come out ascending. */
  lemma ValuesAscending<K(!new), V(!new)>(m: map<K, V>, less: (K, K) -> bool, before: (V, V) -> bool)
    requires StrictOrder(less)
    requires forall j, k :: j in m && k in m && less(j, k) ==> before(m[j], m[k])
    ensures AscendingBy(ValuesInOrder(m, less), before)
  {
  }

  /** Insert after every element that is not strictly greater. */
  function InsertStable<T>(sorted: seq<T>, x: T, before: (T, T) -> bool): (r: seq<T>)
    ensures multiset(r) == multiset(sorted) + multiset{x}
  {
    var n := |sorted|;
    if n == 0 || !before(x, sorted[n - 1]) then
      sorted + [x]
    else
      assert sorted == sorted[..n - 1] + [sorted[n - 1]];
      InsertStable(sorted[..n - 1], x, before) + [sorted[n - 1]]
  }

  /** A stable sort: equal elements keep their input order. */
  function StableSort<T>(s: seq<T>, before: (T, T) -> bool): (r: seq<T>)
    ensures multiset(r) == multiset(s)
  {
    var n := |s|;
    if n == 0 then [] else
      assert s == s[..n - 1] + [s[n - 1]];
      InsertStable(StableSort(s[..n - 1], before), s[n - 1], before)
  }

  /** Any two positions hold strictly ordered elements, and the order is transitive on them. */
  ghost predicate Comparable<T(!new)>(s: seq<T>, before: (T, T) -> bool) {
    && (forall i, j :: 0 <= i < j < |s| ==> before(s[i], s[j]) || before(s[j], s[i]))
    && (forall i, j, k :: 0 <= i < |s| && 0 <= j < |s| && 0 <= k < |s| && before(s[i], s[j]) && before(s[j], s[k])
          ==> before(s[i], s[k]))
  }

  /** Whatever has been inserted into is the old elements and the new one. */
  lemma InsertedElements<T(!new)>(sorted: seq<T>, x: T, before: (T, T) -> bool)
    ensures forall y :: y in InsertStable(sorted, x, before) <==> y in sorted || y == x
  {
    var r := InsertStable(sorted, x, before);
    hide InsertStable;
    forall y ensures y in r <==> y in sorted || y == x {
      assert y in r <==> y in multiset(r);
      assert y in sorted <==> y in multiset(sorted);
    }
  }

  lemma AppendAscending<T(!new)>(s: seq<T>, x: T, before: (T, T) -> bool)
    requires AscendingBy(s, before) && forall y :: y in s ==> before(y, x)
    ensures AscendingBy(s + [x], before)
  {
    forall i | 0 <= i < |s| ensures before(s[i], x) { assert s[i] in s; }
  }

  lemma PrependAscending<T(!new)>(x: T, s: seq<T>, before: (T, T) -> bool)
    requires AscendingBy(s, before) && forall y :: y in s ==> before(x, y)
    ensures AscendingBy([x] + s, before)
  {
    forall i | 0 <= i < |s| ensures before(x, s[i]) { assert s[i] in s; }
  }

  lemma {:induction false} InsertStableAscending<T(!new)>(sorted: seq<T>, x: T, before: (T, T) -> bool)
    requires AscendingBy(sorted, before)
    requires forall i :: 0 <= i < |sorted| ==> before(sorted[i], x) || before(x, sorted[i])
    requires forall i, j :: 0 <= i < j < |sorted| && before(sorted[j], x) ==> before(sorted[i], x)
    ensures AscendingBy(InsertStable(sorted, x, before), before)
  {
    var n := |sorted|;
    if n > 0 && before(x, sorted[n - 1]) {
      var last, front := sorted[n - 1], sorted[..n - 1];
      assert sorted == front + [last];
      assert forall i :: 0 <= i < |front| ==> front[i] == sorted[i];
      InsertStableAscending(front, x, before);
      InsertedElements(front, x, before);
      forall y | y in InsertStable(front, x, before) ensures before(y, last) {
        if y in front { var i :| 0 <= i < |front| && front[i] == y; }
      }
      AppendAscending(InsertStable(front, x, before), last, before);
    } else {
      forall y | y in sorted ensures before(y, x) {
        var i :| 0 <= i < n && sorted[i] == y;
        assert before(sorted[n - 1], x);
      }
      AppendAscending(sorted, x, before);
    }
  }

  lemma SortedElements<T(!new)>(s: seq<T>, before: (T, T) -> bool)
    ensures forall y :: y in StableSort(s, before) <==> y in s
  {
    var sorted := StableSort(s, before);
    hide StableSort;
    forall y ensures y in sorted <==> y in s {
      assert y in sorted <==> y in multiset(sorted);
      assert y in s <==> y in multiset(s);
    }
  }

  /** Any two of the elements are ordered, and the order is transitive on them. */
  ghost predicate OrderedOn<T(!new)>(s: seq<T>, before: (T, T) -> bool) {
    && (forall i, j :: 0 <= i < j < |s| ==> before(s[i], s[j]) || before(s[j], s[i]))
    && (forall a, b, c :: a in s && b in s && c in s && before(a, b) && before(b, c) ==> before(a, c))
  }

  lemma ComparableOrdered<T(!new)>(s: seq<T>, before: (T, T) -> bool)
    requires Comparable(s, before)
    ensures OrderedOn(s, before)
  {
    forall a, b, c | a in s && b in s && c in s && before(a, b) && before(b, c) ensures before(a, c) {
      var i :| 0 <= i < |s| && s[i] == a;
      var j :| 0 <= j < |s| && s[j] == b;
      var k :| 0 <= k < |s| && s[k] == c;
    }
  }

  lemma FrontOrdered<T(!new)>(front: seq<T>, x: T, before: (T, T) -> bool)
    requires OrderedOn(front + [x], before)
    ensures OrderedOn(front, before) && forall y :: y in front ==> before(y, x) || before(x, y)
  {
    var s := front + [x];
    assert forall y :: y in front ==> y in s;
    assert forall i :: 0 <= i < |front| ==> front[i] == s[i];
    assert s[|front|] == x;
  }

  /** The element goes into its place in a sorted arrangement of the others. */
  lemma PlacedAscending<T(!new)>(s: seq<T>, sorted: seq<T>, x: T, before: (T, T) -> bool)
    requires OrderedOn(s + [x], before) && AscendingBy(sorted, before)
    requires forall y :: y in sorted <==> y in s
    requires forall y :: y in s ==> before(y, x) || before(x, y)
    ensures AscendingBy(InsertStable(sorted, x, before), before)
  {
    forall i | 0 <= i < |sorted| ensures sorted[i] in s { assert sorted[i] in sorted; }
    assert x in s + [x] && forall y :: y in s ==> y in s + [x];
    forall i, j | 0 <= i < j < |sorted| && before(sorted[j], x) ensures before(sorted[i], x) {
      assert before(sorted[i], sorted[j]);
    }
    hide OrderedOn, InsertStable;
    InsertStableAscending(sorted, x, before);
  }

  /** On pairwise comparable elements the stable sort is the ascending arrangement. */
  lemma {:induction false} OrderedSortAscending<T(!new)>(s: seq<T>, before: (T, T) -> bool)
    requires OrderedOn(s, before)
    ensures AscendingBy(StableSort(s, before), before)
  {
    hide OrderedOn, AscendingBy, InsertStable;
    var n := |s|;
    if n == 0 {
      EmptyAscending(before);
    } else {
      var front, x := s[..n - 1], s[n - 1];
      assert s == front + [x];
      FrontOrdered(front, x, before);
      OrderedSortAscending(front, before);
      SortedElements(front, before);
      PlacedAscending(front, StableSort(front, before), x, before);
    }
  }

  lemma EmptyAscending<T(!new)>(before: (T, T) -> bool)
    ensures AscendingBy([], before)
  {
  }

  lemma StableSortAscending<T(!new)>(s: seq<T>, before: (T, T) -> bool)
    requires Comparable(s, before)
    ensures AscendingBy(StableSort(s, before), before)
  {
    hide Comparable, OrderedOn, StableSort, AscendingBy;
    ComparableOrdered(s, before);
    OrderedSortAscending(s, before);
  }

  // ----- The orders in use -----

  predicate NatLess(x: nat, y: nat) { x < y }

  lemma NatOrder()
    ensures StrictOrder(NatLess)
  {
  }

  /** Rust's `str` order; on UTF-8 it is the order of the code points. */
  predicate StrLess(x: string, y: string) {
    if y == [] then false
    else if x == [] then true
    else x[0] < y[0] || (x[0] == y[0] && StrLess(x[1..], y[1..]))
  }

  lemma {:induction false} StrLessTransitive(x: string, y: string, z: string)
    requires StrLess(x, y) && StrLess(y, z)
    ensures StrLess(x, z)
  {
    if x != [] && y != [] && z != [] && x[0] == y[0] == z[0] {
      StrLessTransitive(x[1..], y[1..], z[1..]);
    }
  }

  lemma {:induction false} StrLessConnected(x: string, y: string)
    requires x != y
    ensures StrLess(x, y) || StrLess(y, x)
  {
    if x != [] && y != [] && x[0] == y[0] {
      assert x == [x[0]] + x[1..] && y == [y[0]] + y[1..];
      StrLessConnected(x[1..], y[1..]);
    }
  }

  lemma {:induction false} StrLessIrreflexive(x: string)
    ensures !StrLess(x, x)
  {
    if x != [] { StrLessIrreflexive(x[1..]); }
  }

  /** `x` and `y` agree up to `k`, where `x` ends or has the smaller code point. */
  predicate ComesFirstAt(x: string, y: string, k: nat) {
    k <= |x| && k < |y| && x[..k] == y[..k] && (k == |x| || x[k] < y[k])
  }

  lemma HeadsAgree(x: string, y: string, k: nat)
    requires ComesFirstAt(x, y, k)
    ensures k > 0 ==> x != [] && y != [] && x[0] == y[0]
  {
    if k > 0 { assert x[0] == x[..k][0] && y[0] == y[..k][0]; }
  }

  /** One text comes before another exactly when it is a proper prefix or has the smaller code point
      where they first differ. */
  lemma {:induction false} StrLessExactly(x: string, y: string)
    ensures StrLess(x, y) <==> exists k: nat :: ComesFirstAt(x, y, k)
  {
    if x != [] && y != [] && x[0] == y[0] {
      StrLessExactly(x[1..], y[1..]);
      if k: nat :| ComesFirstAt(x[1..], y[1..], k) {
        assert x[..k + 1] == [x[0]] + x[1..][..k] && y[..k + 1] == [y[0]] + y[1..][..k];
        assert ComesFirstAt(x, y, k + 1);
      }
      if k: nat :| ComesFirstAt(x, y, k) {
        assert k > 0 && x[1..][..k - 1] == x[..k][1..] && y[1..][..k - 1] == y[..k][1..];
        assert ComesFirstAt(x[1..], y[1..], k - 1);
      }
    } else if k: nat :| ComesFirstAt(x, y, k) {
      HeadsAgree(x, y, k);
    } else if y != [] && (x == [] || x[0] < y[0]) {
      assert ComesFirstAt(x, y, 0);
    }
  }

  lemma StrAsymmetric()
    ensures Asymmetric(StrLess)
  {
    forall x, y | StrLess(x, y) ensures !StrLess(y, x) {
      if StrLess(y, x) { StrLessTransitive(x, y, x); StrLessIrreflexive(x); }
    }
  }

  lemma StrOrder()
    ensures StrictOrder(StrLess)
  {
    forall x ensures !StrLess(x, x) { StrLessIrreflexive(x); }
    forall x, y, z | StrLess(x, y) && StrLess(y, z) ensures StrLess(x, z) { StrLessTransitive(x, y, z); }
    forall x, y | x != y ensures StrLess(x, y) || StrLess(y, x) { StrLessConnected(x, y); }
  }

  /** The names of `s` in ascending order. */
  function SortedNames(s: set<string>): (r: seq<string>)
    ensures AscendingBy(r, StrLess)
    ensures forall x :: x in r <==> x in s
  {
    StrOrder();
    Ascending(s, StrLess)
  }

  /** The values of `m` in ascending order of their names. */
  function ByName<V>(m: map<string, V>): seq<V> {
    StrOrder();
    ValuesInOrder(m, StrLess)
  }

  lemma ByNameHolds<V(!new)>(m: map<string, V>)
    ensures forall v :: v in ByName(m) <==> exists k :: k in m && m[k] == v
  {
    StrOrder();
    ValuesInOrderHolds(m, StrLess);
  }

  lemma ByNameAscending<V(!new)>(m: map<string, V>, before: (V, V) -> bool)
    requires forall j, k :: j in m && k in m && StrLess(j, k) ==> before(m[j], m[k])
    ensures AscendingBy(ByName(m), before)
  {
    StrOrder();
    ValuesAscending(m, StrLess, before);
  }

  /** Names that come out ascending are the enumeration of their set. */
  lemma SortedNamesOf(r: seq<string>, s: set<string>)
    requires AscendingBy(r, StrLess)
    requires forall x :: x in r <==> x in s
    ensures SortedNames(s) == r
  {
    StrOrder();
    AscendingOfElements(r, s, StrLess);
  }

  /** The ids of `s` in ascending order. */
  function SortedIds(s: set<nat>): (r: seq<nat>)
    ensures forall x :: x in r <==> x in s
  {
    NatOrder();
    Ascending(s, NatLess)
  }

  /** The values of `m` in ascending order of their ids. */
  function ById<V>(m: map<nat, V>): seq<V> {
    NatOrder();
    ValuesInOrder(m, NatLess)
  }

  lemma ByIdHolds<V(!new)>(m: map<nat, V>)
    ensures |ById(m)| == |m|
    ensures forall v :: v in ById(m) <==> exists k :: k in m && m[k] == v
  {
    NatOrder();
    ValuesInOrderHolds(m, NatLess);
  }

  lemma NothingNamed<V>()
    ensures SortedNames({}) == [] && ByName<V>(map[]) == []
  {
  }
}
