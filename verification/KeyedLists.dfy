/** Two enumerations of the same things: one keyed by name, one keyed by id and stably sorted by name
    afterwards. */
module KeyedLists {
  import opened Basics
  import opened Ordering
  import opened RowFolds

  // ----- Ids and names of rows -----

  /** Ids and names determine each other. */
  ghost predicate OneToOne<R(!new)>(rows: seq<R>, idOf: R -> Option<Uuid>, nameOf: R -> Option<string>) {
    forall r, s :: r in rows && s in rows ==> (idOf(r) == idOf(s) <==> nameOf(r) == nameOf(s))
  }

  /** `id` and `name` single out the same rows. */
  ghost predicate Denotes<R(!new)>(rows: seq<R>, idOf: R -> Option<Uuid>, nameOf: R -> Option<string>, id: Uuid,
                                   name: string) {
    && (exists r :: r in rows && idOf(r) == Some(id))
    && forall r :: r in rows ==> (idOf(r) == Some(id) <==> nameOf(r) == Some(name))
  }

  lemma Named<R(!new)>(rows: seq<R>, idOf: R -> Option<Uuid>, nameOf: R -> Option<string>, id: Uuid)
    returns (name: string)
    requires OneToOne(rows, idOf, nameOf) && id in Picks(rows, idOf) && forall r :: r in rows ==> nameOf(r).Some?
    ensures Denotes(rows, idOf, nameOf, id, name) && name in Picks(rows, nameOf)
  {
    var r := PickedFrom(rows, idOf, id);
    Seen(rows, nameOf, r);
    name := nameOf(r).value;
  }

  lemma Identified<R(!new)>(rows: seq<R>, idOf: R -> Option<Uuid>, nameOf: R -> Option<string>, name: string)
    returns (id: Uuid)
    requires OneToOne(rows, idOf, nameOf) && name in Picks(rows, nameOf) && forall r :: r in rows ==> idOf(r).Some?
    ensures Denotes(rows, idOf, nameOf, id, name) && id in Picks(rows, idOf)
  {
    var r := PickedFrom(rows, nameOf, name);
    Seen(rows, idOf, r);
    id := idOf(r).value;
  }

  // ----- The two lists -----

  function Mapped<X, Z>(items: seq<X>, f: X -> Z): (r: seq<Z>)
    ensures |r| == |items| && forall i :: 0 <= i < |r| ==> r[i] == f(items[i])
  {
    seq(|items|, i requires 0 <= i < |items| => f(items[i]))
  }

  lemma MappedHolds<X, Z>(items: seq<X>, f: X -> Z)
    ensures forall z :: z in Mapped(items, f) <==> exists x :: x in items && f(x) == z
  {
    forall z ensures z in Mapped(items, f) <==> exists x :: x in items && f(x) == z {
      if x :| x in items && f(x) == z {
        var i :| 0 <= i < |items| && items[i] == x;
        assert Mapped(items, f)[i] == z;
      }
    }
  }

  /** Distinct ids have distinct names. */
  ghost predicate DistinctNames<Y>(n: map<Uuid, Y>, name: Y -> string) {
    forall i, j :: i in n && j in n && name(n[i]) == name(n[j]) ==> i == j
  }

  ghost predicate OrderedByName<Y(!new)>(before: (Y, Y) -> bool, name: Y -> string) {
    forall x, y :: before(x, y) <==> StrLess(name(x), name(y))
  }

  lemma NamesComparable<Y(!new)>(items: seq<Y>, before: (Y, Y) -> bool, name: Y -> string)
    requires OrderedByName(before, name)
    requires forall i, j :: 0 <= i < j < |items| ==> name(items[i]) != name(items[j])
    ensures Comparable(items, before)
  {
    forall i, j | 0 <= i < j < |items| ensures before(items[i], items[j]) || before(items[j], items[i]) {
      StrLessConnected(name(items[i]), name(items[j]));
    }
    forall i, j, k | 0 <= i < |items| && 0 <= j < |items| && 0 <= k < |items|
        && before(items[i], items[j]) && before(items[j], items[k])
      ensures before(items[i], items[k])
    {
      StrLessTransitive(name(items[i]), name(items[j]), name(items[k]));
    }
  }

  lemma IdsDistinct<Y(!new)>(n: map<Uuid, Y>, name: Y -> string, i: nat, j: nat)
    requires DistinctNames(n, name) && i < j < |ById(n)|
    ensures name(ById(n)[i]) != name(ById(n)[j])
  {
    NatOrder();
    var ids := Ascending(n.Keys, NatLess);
    assert ids[i] in ids && ids[j] in ids && NatLess(ids[i], ids[j]);
    assert ById(n)[i] == n[ids[i]] && ById(n)[j] == n[ids[j]];
  }

  /** Sorting the values by name leaves them strictly sorted, each once. */
  lemma SortedByName<Y(!new)>(n: map<Uuid, Y>, before: (Y, Y) -> bool, name: Y -> string)
    requires DistinctNames(n, name) && OrderedByName(before, name)
    ensures AscendingBy(StableSort(ById(n), before), before)
    ensures forall y :: y in StableSort(ById(n), before) <==> exists id :: id in n && n[id] == y
  {
    var items := ById(n);
    ByIdHolds(n);
    hide ById, OrderedByName, DistinctNames, Comparable, AscendingBy, StableSort;
    forall i, j | 0 <= i < j < |items| ensures name(items[i]) != name(items[j]) { IdsDistinct(n, name, i, j); }
    NamesComparable(items, before, name);
    StableSortAscending(items, before);
    SortedElements(items, before);
  }

  // ----- Ties -----

  lemma {:induction false} SameInsert<Y>(sorted: seq<Y>, x: Y, before: (Y, Y) -> bool, other: (Y, Y) -> bool)
    requires forall y :: y in sorted ==> (before(x, y) <==> other(x, y))
    ensures InsertStable(sorted, x, before) == InsertStable(sorted, x, other)
  {
    var n := |sorted|;
    if n > 0 { SameInsert(sorted[..n - 1], x, before, other); }
  }

  /** Two orders that agree on what is later in the list sort it alike. */
  lemma {:induction false} SameSort<Y(!new)>(s: seq<Y>, before: (Y, Y) -> bool, other: (Y, Y) -> bool)
    requires forall i, j :: 0 <= i < j < |s| ==> (before(s[j], s[i]) <==> other(s[j], s[i]))
    ensures StableSort(s, before) == StableSort(s, other)
  {
    var n := |s|;
    if n > 0 {
      SameSort(s[..n - 1], before, other);
      SortedElements(s[..n - 1], before);
      SameInsert(StableSort(s[..n - 1], before), s[n - 1], before, other);
    }
  }

  /** By name, and under one name by id. */
  function NameThenId<Y>(name: Y -> string, idOf: Y -> Uuid): (Y, Y) -> bool {
    (a, b) => StrLess(name(a), name(b)) || (name(a) == name(b) && idOf(a) < idOf(b))
  }

  lemma NameThenIdComparable<Y(!new)>(items: seq<Y>, name: Y -> string, idOf: Y -> Uuid)
    requires forall i, j :: 0 <= i < j < |items| ==> idOf(items[i]) < idOf(items[j])
    ensures Comparable(items, NameThenId(name, idOf))
  {
    var before := NameThenId(name, idOf);
    forall i, j | 0 <= i < j < |items| ensures before(items[i], items[j]) || before(items[j], items[i]) {
      if name(items[i]) != name(items[j]) { StrLessConnected(name(items[i]), name(items[j])); }
    }
    forall i, j, k | 0 <= i < |items| && 0 <= j < |items| && 0 <= k < |items|
        && before(items[i], items[j]) && before(items[j], items[k])
      ensures before(items[i], items[k])
    {
      if StrLess(name(items[i]), name(items[j])) && StrLess(name(items[j]), name(items[k])) {
        StrLessTransitive(name(items[i]), name(items[j]), name(items[k]));
      }
    }
  }

  /** Things enumerated by id and stably sorted by name come by name and, under one name, by id. */
  lemma SortedWithTies<Y(!new)>(n: map<Uuid, Y>, before: (Y, Y) -> bool, name: Y -> string, idOf: Y -> Uuid)
    requires OrderedByName(before, name) && forall id :: id in n ==> idOf(n[id]) == id
    ensures AscendingBy(StableSort(ById(n), before), NameThenId(name, idOf))
  {
    var items, other := ById(n), NameThenId(name, idOf);
    NatOrder();
    var ids := Ascending(n.Keys, NatLess);
    forall i, j | 0 <= i < j < |items| ensures idOf(items[i]) < idOf(items[j]) {
      assert ids[i] in ids && ids[j] in ids && NatLess(ids[i], ids[j]);
      assert items[i] == n[ids[i]] && items[j] == n[ids[j]];
    }
    hide ById, StrLess, Comparable, AscendingBy, StableSort;
    SameSort(items, before, other);
    NameThenIdComparable(items, name, idOf);
    StableSortAscending(items, other);
  }

  // ----- Two maps -----

  /** `m` and `n` hold things of the same names. */
  ghost predicate SameNames<X, Y>(m: map<string, X>, n: map<Uuid, Y>, name: Y -> string) {
    && (forall id :: id in n ==> name(n[id]) in m)
    && (forall k :: k in m ==> exists id :: id in n && name(n[id]) == k)
  }

  /** What is listed under a name is the same on both sides. */
  ghost predicate SameListed<X, Y, Z>(m: map<string, X>, n: map<Uuid, Y>, f: X -> Z, g: Y -> Z, name: Y -> string)
    requires SameNames(m, n, name)
  {
    forall id :: id in n ==> g(n[id]) == f(m[name(n[id])])
  }

  ghost predicate NamedAlike<X(!new), Y(!new), Z>(m: map<string, X>, f: X -> Z, g: Y -> Z, name: Y -> string,
                                                  named: Z -> string) {
    && (forall k :: k in m ==> named(f(m[k])) == k)
    && (forall y :: named(g(y)) == name(y))
  }

  lemma ListAscending<X(!new), Z(!new)>(m: map<string, X>, f: X -> Z, named: Z -> string)
    requires forall k :: k in m ==> named(f(m[k])) == k
    ensures AscendingBy(Mapped(ByName(m), f), (a, b) => StrLess(named(a), named(b)))
  {
    ByNameAscending(m, (x, y) => StrLess(named(f(x)), named(f(y))));
    hide ByName, StrLess;
  }

  lemma ListHolds<X(!new), Z(!new)>(m: map<string, X>, f: X -> Z)
    ensures forall z :: z in Mapped(ByName(m), f) <==> exists k :: k in m && f(m[k]) == z
  {
    ByNameHolds(m);
    MappedHolds(ByName(m), f);
    hide ByName, Mapped;
    forall z ensures z in Mapped(ByName(m), f) <==> exists k :: k in m && f(m[k]) == z {
      if x :| x in ByName(m) && f(x) == z {
        var k :| k in m && m[k] == x;
      }
      if k :| k in m && f(m[k]) == z {
        assert m[k] in ByName(m);
      }
    }
  }

  lemma MappedAscending<Y(!new), Z(!new)>(items: seq<Y>, g: Y -> Z, before: (Y, Y) -> bool, name: Y -> string,
                                          named: Z -> string)
    requires AscendingBy(items, before) && OrderedByName(before, name) && forall y :: named(g(y)) == name(y)
    ensures AscendingBy(Mapped(items, g), (a, b) => StrLess(named(a), named(b)))
  {
    hide StrLess;
    var z := Mapped(items, g);
    forall i, j | 0 <= i < j < |z| ensures StrLess(named(z[i]), named(z[j])) {
      assert before(items[i], items[j]);
    }
  }

  lemma SortedAscending<Y(!new), Z(!new)>(n: map<Uuid, Y>, g: Y -> Z, before: (Y, Y) -> bool, name: Y -> string,
                                          named: Z -> string)
    requires DistinctNames(n, name) && OrderedByName(before, name) && forall y :: named(g(y)) == name(y)
    ensures AscendingBy(Mapped(StableSort(ById(n), before), g), (a, b) => StrLess(named(a), named(b)))
  {
    SortedByName(n, before, name);
    hide DistinctNames, OrderedByName, StableSort, ById, AscendingBy, Mapped;
    MappedAscending(StableSort(ById(n), before), g, before, name, named);
  }

  lemma SortedHolds<Y(!new), Z(!new)>(n: map<Uuid, Y>, g: Y -> Z, before: (Y, Y) -> bool, name: Y -> string)
    requires DistinctNames(n, name) && OrderedByName(before, name)
    ensures forall z :: z in Mapped(StableSort(ById(n), before), g) <==> exists id :: id in n && g(n[id]) == z
  {
    hide *;
    SortedByName(n, before, name);
    var sorted := StableSort(ById(n), before);
    MappedHolds(sorted, g);
    forall z ensures z in Mapped(sorted, g) <==> exists id :: id in n && g(n[id]) == z {
      if y :| y in sorted && g(y) == z {
        var id :| id in n && n[id] == y;
      }
      if id :| id in n && g(n[id]) == z {
        assert n[id] in sorted;
      }
    }
  }

  /** Seen through `f` and `g`, the two lists are equal, in the same order, exactly when they list the
      same under every name. */
  lemma SameListExactly<X(!new), Y(!new), Z(!new)>(m: map<string, X>, n: map<Uuid, Y>, f: X -> Z, g: Y -> Z,
                                                   before: (Y, Y) -> bool, name: Y -> string, named: Z -> string)
    requires NamedAlike(m, f, g, name, named) && OrderedByName(before, name)
    requires SameNames(m, n, name) && DistinctNames(n, name)
    ensures Mapped(ByName(m), f) == Mapped(StableSort(ById(n), before), g) <==> SameListed(m, n, f, g, name)
  {
    var left, right := Mapped(ByName(m), f), Mapped(StableSort(ById(n), before), g);
    ListAscending(m, f, named);
    ListHolds(m, f);
    SortedAscending(n, g, before, name, named);
    SortedHolds(n, g, before, name);
    NamedAsymmetric(named);
    hide ByName, StableSort, ById, DistinctNames, OrderedByName, Mapped, SameListed, Asymmetric, AscendingBy;
    if left == right { ListedTogether(m, n, f, g, name, named, left); }
    if SameListed(m, n, f, g, name) {
      hide NamedAlike;
      forall z ensures z in left <==> z in right { SameMembers(m, n, f, g, name, z); }
      AscendingUnique(left, right, (a, b) => StrLess(named(a), named(b)));
    }
  }

  /** One list that holds the things of both maps lists the same under every name. */
  lemma ListedTogether<X(!new), Y(!new), Z(!new)>(m: map<string, X>, n: map<Uuid, Y>, f: X -> Z, g: Y -> Z,
                                                  name: Y -> string, named: Z -> string, items: seq<Z>)
    requires NamedAlike(m, f, g, name, named) && SameNames(m, n, name)
    requires forall z :: z in items <==> exists k :: k in m && f(m[k]) == z
    requires forall z :: z in items <==> exists id :: id in n && g(n[id]) == z
    ensures SameListed(m, n, f, g, name)
  {
    forall id | id in n ensures g(n[id]) == f(m[name(n[id])]) {
      assert g(n[id]) in items;
      var k :| k in m && f(m[k]) == g(n[id]);
      assert named(f(m[k])) == k;
    }
  }

  lemma SameMembers<X(!new), Y(!new), Z(!new)>(m: map<string, X>, n: map<Uuid, Y>, f: X -> Z, g: Y -> Z,
                                               name: Y -> string, z: Z)
    requires SameNames(m, n, name) && SameListed(m, n, f, g, name)
    ensures (exists k :: k in m && f(m[k]) == z) <==> (exists id :: id in n && g(n[id]) == z)
  {
    if k :| k in m && f(m[k]) == z {
      var id :| id in n && name(n[id]) == k;
      assert g(n[id]) == z;
    }
    if id :| id in n && g(n[id]) == z {
      assert f(m[name(n[id])]) == z;
    }
  }

  lemma NamedAsymmetric<Z(!new)>(named: Z -> string)
    ensures Asymmetric((a: Z, b: Z) => StrLess(named(a), named(b)))
  {
    StrAsymmetric();
  }
}
