/** Keyed de-duplication by a `seen` set: what is kept is the first item of each key, in order. */
module FirstSeen {

  function Keys<T>(items: seq<T>, key: T -> string): set<string> {
    set i | 0 <= i < |items| :: key(items[i])
  }

  /** The items of `more` whose key is neither in `base` nor earlier in `more`. */
  function New<T>(base: seq<T>, more: seq<T>, key: T -> string): seq<T> {
    var n := |more|;
    if n == 0 then []
    else if key(more[n - 1]) in Keys(base + more[..n - 1], key) then New(base, more[..n - 1], key)
    else New(base, more[..n - 1], key) + [more[n - 1]]
  }

  function Firsts<T>(items: seq<T>, key: T -> string): seq<T> { New([], items, key) }

  lemma KeysSnoc<T>(items: seq<T>, x: T, key: T -> string)
    ensures Keys(items + [x], key) == Keys(items, key) + {key(x)}
  {
    var longer := items + [x];
    forall i | 0 <= i < |items| ensures key(items[i]) in Keys(longer, key) { assert longer[i] == items[i]; }
    assert longer[|items|] == x;
  }

  lemma {:induction false} KeysJoin<T>(a: seq<T>, b: seq<T>, key: T -> string)
    ensures Keys(a + b, key) == Keys(a, key) + Keys(b, key)
  {
    var n := |b|;
    if n == 0 {
      assert a + b == a;
    } else {
      KeysJoin(a, b[..n - 1], key);
      KeysSnoc(b[..n - 1], b[n - 1], key);
      KeysSnoc(a + b[..n - 1], b[n - 1], key);
      assert b[..n - 1] + [b[n - 1]] == b && a + b[..n - 1] + [b[n - 1]] == a + b;
    }
  }

  /** A scan that keeps new items covers exactly the keys it has seen. */
  lemma {:induction false} NewKeys<T>(base: seq<T>, more: seq<T>, key: T -> string)
    ensures Keys(base + New(base, more, key), key) == Keys(base + more, key)
  {
    var n := |more|;
    if n > 0 {
      var front, x := more[..n - 1], more[n - 1];
      NewKeys(base, front, key);
      KeysSnoc(base + front, x, key);
      KeysSnoc(base + New(base, front, key), x, key);
      assert base + more == base + front + [x];
      assert base + (New(base, front, key) + [x]) == base + New(base, front, key) + [x];
    }
  }

  /** First occurrences of a joined list: those of the front, then what the back adds. */
  lemma {:induction false} FirstsJoin<T>(a: seq<T>, b: seq<T>, key: T -> string)
    ensures Firsts(a + b, key) == Firsts(a, key) + New(a, b, key)
  {
    var n := |b|;
    if n == 0 {
      assert a + b == a;
    } else {
      FirstsJoin(a, b[..n - 1], key);
      assert (a + b)[..|a| + n - 1] == a + b[..n - 1];
      assert [] + (a + b[..n - 1]) == a + b[..n - 1];
    }
  }

  /** What a scan kept is all new to a second scan. */
  lemma {:induction false} NewAgain<T>(base: seq<T>, more: seq<T>, key: T -> string)
    ensures New(base, New(base, more, key), key) == New(base, more, key)
  {
    var n := |more|;
    if n > 0 {
      var front, x := more[..n - 1], more[n - 1];
      NewAgain(base, front, key);
      NewKeys(base, front, key);
      assert (New(base, front, key) + [x])[..|New(base, front, key)|] == New(base, front, key);
    }
  }

  lemma {:induction false} NewDistinct<T>(base: seq<T>, more: seq<T>, key: T -> string)
    ensures |Keys(New(base, more, key), key)| == |New(base, more, key)|
  {
    var n := |more|;
    if n > 0 {
      var front, x := more[..n - 1], more[n - 1];
      NewDistinct(base, front, key);
      NewKeys(base, front, key);
      KeysJoin(base, New(base, front, key), key);
      KeysSnoc(New(base, front, key), x, key);
    }
  }

  /** One item per distinct key. */
  lemma FirstsCounted<T>(items: seq<T>, key: T -> string)
    ensures |Firsts(items, key)| == |Keys(items, key)|
  {
    NewDistinct([], items, key);
    NewKeys([], items, key);
    assert [] + items == items && [] + Firsts(items, key) == Firsts(items, key);
  }

  ghost predicate Increasing(p: seq<nat>, n: nat) {
    && (forall i :: 0 <= i < |p| ==> p[i] < n)
    && (forall i, j :: 0 <= i < j < |p| ==> p[i] < p[j])
  }

  /** No earlier item has the key of item `j`. */
  predicate FirstAt<T>(items: seq<T>, key: T -> string, j: nat)
    requires j < |items|
  {
    key(items[j]) !in Keys(items[..j], key)
  }

  /** The positions of the first occurrences, in order: an item is kept exactly when no earlier item
      has its key. */
  lemma {:induction false} FirstPositions<T>(items: seq<T>, key: T -> string) returns (p: seq<nat>)
    ensures Increasing(p, |items|) && |p| == |Firsts(items, key)|
    ensures forall i :: 0 <= i < |p| ==> Firsts(items, key)[i] == items[p[i]]
    ensures forall j :: 0 <= j < |items| ==> (j in p <==> FirstAt(items, key, j))
  {
    p := [];
    var n := |items|;
    if n > 0 {
      var front, last := items[..n - 1], items[n - 1];
      assert items == front + [last];
      var before := FirstPositions(front, key);
      var first := key(last) !in Keys(front, key);
      FirstsSnoc(front, last, key);
      assert FirstAt(items, key, n - 1) <==> first;
      FirstAtFront(items, key);
      hide Keys, Firsts, FirstAt;
      p := before + if first then [n - 1] else [];
      PositionAdded(before, n - 1, first);
    }
  }

  lemma FirstAtFront<T>(items: seq<T>, key: T -> string)
    requires items != []
    ensures forall j :: 0 <= j < |items| - 1 ==> (FirstAt(items, key, j) <==> FirstAt(items[..|items| - 1], key, j))
  {
    forall j | 0 <= j < |items| - 1 ensures FirstAt(items, key, j) <==> FirstAt(items[..|items| - 1], key, j) {
      assert items[..|items| - 1][..j] == items[..j];
    }
  }

  lemma PositionAdded(before: seq<nat>, n: nat, first: bool)
    requires Increasing(before, n)
    ensures var p := before + if first then [n] else [];
      Increasing(p, n + 1) && forall j :: j in p <==> j in before || (first && j == n)
  {
  }

  lemma FirstsSnoc<T>(items: seq<T>, x: T, key: T -> string)
    ensures Firsts(items + [x], key) == Firsts(items, key) + if key(x) in Keys(items, key) then [] else [x]
  {
    assert (items + [x])[..|items|] == items && [] + items == items;
  }

  lemma {:induction false} FirstsAmong<T>(items: seq<T>, key: T -> string)
    ensures forall x :: x in Firsts(items, key) ==> x in items
  {
    var n := |items|;
    if n > 0 {
      FirstsAmong(items[..n - 1], key);
      assert items == items[..n - 1] + [items[n - 1]];
      FirstsSnoc(items[..n - 1], items[n - 1], key);
    }
  }

  /** Every item is represented by a kept one with its key. */
  lemma {:induction false} FirstWithKey<T>(items: seq<T>, x: T, key: T -> string) returns (first: T)
    requires x in items
    ensures first in items && first in Firsts(items, key) && key(first) == key(x)
  {
    var n := |items|;
    var front, last := items[..n - 1], items[n - 1];
    assert items == front + [last];
    FirstsSnoc(front, last, key);
    if x in front {
      first := FirstWithKey(front, x, key);
    } else if key(last) in Keys(front, key) {
      var i :| 0 <= i < |front| && key(front[i]) == key(last);
      assert front[i] in front;
      first := FirstWithKey(front, front[i], key);
    } else {
      first := last;
    }
  }
}
