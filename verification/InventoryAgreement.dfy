/** The backup keys join rows by display name and keeps a field's first row; the inventory keys them by
    public id, keeps a field's last row and sorts at the end. When they agree, and exactly when. */
module InventoryAgreement {
  import opened Basics
  import opened Ordering
  import opened RowFolds
  import opened IndexerRecords
  import opened IndexerStore
  import opened KeyedLists
  import E = InstanceExport
  import I = InstanceInventory

  /** Ids and display names determine each other. */
  ghost predicate NamesAreKeys(rows: seq<InstanceRow>) { OneToOne(rows, I.IdOf(), E.NameOf()) }

  ghost predicate IsNamed(rows: seq<InstanceRow>, id: Uuid, name: string) {
    Denotes(rows, I.IdOf(), E.NameOf(), id, name)
  }

  /** No field of an instance differs between the first and the last row that mention it. */
  ghost predicate FieldsSettled(rows: seq<InstanceRow>) {
    forall name, field :: FirstSome(rows, E.FieldFor(name, field)) == LastSome(rows, E.FieldFor(name, field))
  }

  /** An inventory entry without the ids the backup leaves out. */
  function Projected(item: I.InventoryItem): InstanceItem {
    InstanceItem(item.displayName, item.columns, item.routingName, item.rateLimitName,
                 item.rssEnabled, item.rssInterval, item.mediaKeys, item.tagKeys, item.fields)
  }

  function Projection(items: seq<I.InventoryItem>): seq<InstanceItem> { Mapped(items, Projected) }

  // ----- One instance -----

  /** Columns read under the id and under the name are the same columns. */
  lemma SameColumns(rows: seq<InstanceRow>, id: Uuid, name: string)
    requires IsNamed(rows, id, name)
    ensures FirstSome(rows, I.ColumnsAt(id)) == FirstSome(rows, E.ColumnsFor(name))
    ensures FirstSome(rows, I.RoutingNameAt(id)) == FirstSome(rows, E.RoutingNameFor(name))
    ensures FirstSome(rows, I.RateLimitNameAt(id)) == FirstSome(rows, E.RateLimitNameFor(name))
    ensures FirstSome(rows, I.RssEnabledAt(id)) == FirstSome(rows, E.RssEnabledFor(name))
    ensures FirstSome(rows, I.RssIntervalAt(id)) == FirstSome(rows, E.RssIntervalFor(name))
  {
    hide FirstSome, LastSome, Picks, Tally;
    SamePick(rows, I.ColumnsAt(id), E.ColumnsFor(name));
    SamePick(rows, I.RoutingNameAt(id), E.RoutingNameFor(name));
    SamePick(rows, I.RateLimitNameAt(id), E.RateLimitNameFor(name));
    SamePick(rows, I.RssEnabledAt(id), E.RssEnabledFor(name));
    SamePick(rows, I.RssIntervalAt(id), E.RssIntervalFor(name));
  }

  lemma NameRead(rows: seq<InstanceRow>, id: Uuid, name: string)
    requires IsNamed(rows, id, name) && id in I.Ids(rows)
    ensures FirstSome(rows, I.NameAt(id)) == Some(name)
  {
    I.HasRow(rows, id);
    hide FirstSome, Picks;
    var r := FirstFrom(rows, I.NameAt(id));
  }

  lemma SameEntry(rows: seq<InstanceRow>, id: Uuid, name: string)
    requires IsNamed(rows, id, name) && id in I.Ids(rows) && name in E.InstanceNames(rows)
    ensures Projected(I.Entry(rows, id)) == E.Entry(rows, name)
  {
    hide FirstSome, Picks, IsNamed;
    SameColumns(rows, id, name);
    NameRead(rows, id, name);
  }

  lemma SameKeys(rows: seq<InstanceRow>, id: Uuid, name: string)
    requires IsNamed(rows, id, name)
    ensures Picks(rows, I.MediaAt(id)) == Picks(rows, E.MediaFor(name))
    ensures Picks(rows, I.TagAt(id)) == Picks(rows, E.TagFor(name))
    ensures Picks(rows, I.FieldNameAt(id)) == Picks(rows, E.FieldNameFor(name))
  {
    SamePick(rows, I.MediaAt(id), E.MediaFor(name));
    SamePick(rows, I.TagAt(id), E.TagFor(name));
    SamePick(rows, I.FieldNameAt(id), E.FieldNameFor(name));
  }

  /** The first and the last mention of every field of `name` agree. */
  ghost predicate Settled(rows: seq<InstanceRow>, name: string) {
    forall field :: FirstSome(rows, E.FieldFor(name, field)) == LastSome(rows, E.FieldFor(name, field))
  }

  lemma FieldValues(rows: seq<InstanceRow>, id: Uuid, name: string, field: string)
    requires IsNamed(rows, id, name)
    ensures field in I.FieldMap(rows, id) <==> field in E.FieldMap(rows, name)
    ensures field in E.FieldMap(rows, name) ==>
      && Some(E.FieldMap(rows, name)[field]) == FirstSome(rows, E.FieldFor(name, field))
      && Some(I.FieldMap(rows, id)[field]) == LastSome(rows, E.FieldFor(name, field))
    ensures field !in E.FieldMap(rows, name) ==>
      FirstSome(rows, E.FieldFor(name, field)) == LastSome(rows, E.FieldFor(name, field)) == None
  {
    SameKeys(rows, id, name);
    SamePick(rows, I.FieldAt(id, field), E.FieldFor(name, field));
    if field in Picks(rows, E.FieldNameFor(name)) {
      E.HasField(rows, name, field);
      I.HasField(rows, id, field);
    } else {
      forall r | r in rows ensures E.FieldFor(name, field)(r).None? {
        if E.FieldFor(name, field)(r).Some? { Seen(rows, E.FieldNameFor(name), r); }
      }
      NothingPicked(rows, E.FieldFor(name, field));
    }
  }

  lemma SameFieldsExactly(rows: seq<InstanceRow>, id: Uuid, name: string)
    requires IsNamed(rows, id, name)
    ensures I.FieldMap(rows, id) == E.FieldMap(rows, name) <==> Settled(rows, name)
  {
    hide I.FieldMap, E.FieldMap, FirstSome, LastSome;
    forall field
      ensures field in I.FieldMap(rows, id) <==> field in E.FieldMap(rows, name)
      ensures field in E.FieldMap(rows, name) ==>
        (I.FieldMap(rows, id)[field] == E.FieldMap(rows, name)[field] <==>
         FirstSome(rows, E.FieldFor(name, field)) == LastSome(rows, E.FieldFor(name, field)))
      ensures field !in E.FieldMap(rows, name) ==>
        FirstSome(rows, E.FieldFor(name, field)) == LastSome(rows, E.FieldFor(name, field))
    {
      FieldValues(rows, id, name, field);
    }
    assert I.FieldMap(rows, id).Keys == E.FieldMap(rows, name).Keys;
  }

  /** Maps over the same names come out equal only when they are equal. */
  lemma ByNameInjective<V>(m: map<string, V>, n: map<string, V>)
    requires m.Keys == n.Keys && ByName(m) == ByName(n)
    ensures m == n
  {
    StrOrder();
    var keys := Ascending(m.Keys, StrLess);
    forall k | k in m ensures m[k] == n[k] {
      assert k in keys;
      var i :| 0 <= i < |keys| && keys[i] == k;
      assert ByName(m)[i] == m[k] && ByName(n)[i] == n[k];
    }
  }

  lemma SameItemExactly(rows: seq<InstanceRow>, id: Uuid, name: string)
    requires IsNamed(rows, id, name) && id in I.Ids(rows) && name in E.InstanceNames(rows)
    ensures Projected(I.ItemOf(rows, id)) == E.ItemOf(rows, name) <==> Settled(rows, name)
    ensures I.ItemOf(rows, id).displayName == name
  {
    SameEntry(rows, id, name);
    SameKeys(rows, id, name);
    SameFieldsExactly(rows, id, name);
    hide SortedNames, ByName, Picks, Settled;
    if Projected(I.ItemOf(rows, id)) == E.ItemOf(rows, name) {
      assert ByName(I.FieldMap(rows, id)) == ByName(E.FieldMap(rows, name));
      assert I.FieldMap(rows, id).Keys == E.FieldMap(rows, name).Keys;
      ByNameInjective(I.FieldMap(rows, id), E.FieldMap(rows, name));
    }
  }

  // ----- The whole list -----

  function ListedName(item: I.InventoryItem): string { item.displayName }

  function ExportedName(item: InstanceItem): string { item.displayName }

  function Same(item: InstanceItem): InstanceItem { item }

  lemma Unchanged(items: seq<InstanceItem>)
    ensures Mapped(items, Same) == items
  {
  }

  /** The two maps are keyed by the same things. */
  lemma MapsMatch(rows: seq<InstanceRow>)
    requires NamesAreKeys(rows)
    ensures SameNames(E.ItemMap(rows), I.ItemMap(rows), ListedName) && DistinctNames(I.ItemMap(rows), ListedName)
  {
    var m, n := E.ItemMap(rows), I.ItemMap(rows);
    forall id | id in n
      ensures ListedName(n[id]) in m && IsNamed(rows, id, ListedName(n[id]))
    {
      var name := Named(rows, I.IdOf(), E.NameOf(), id);
      SameItemExactly(rows, id, name);
    }
    forall name | name in m ensures exists id :: id in n && ListedName(n[id]) == name {
      var id := Identified(rows, I.IdOf(), E.NameOf(), name);
      SameItemExactly(rows, id, name);
      assert id in n;
    }
    hide I.ItemMap, E.ItemMap, I.ItemOf, ListedName;
    forall i, j | i in n && j in n && ListedName(n[i]) == ListedName(n[j]) ensures i == j {
      assert IsNamed(rows, i, ListedName(n[i])) && IsNamed(rows, j, ListedName(n[j]));
    }
  }

  lemma ExportNamed(rows: seq<InstanceRow>)
    ensures NamedAlike(E.ItemMap(rows), Same, Projected, ListedName, ExportedName)
    ensures OrderedByName(I.InventoryBefore, ListedName)
  {
    forall n | n in E.ItemMap(rows) ensures ExportedName(Same(E.ItemMap(rows)[n])) == n { E.ItemNamed(rows, n); }
  }

  lemma ListedAlikeExactly(rows: seq<InstanceRow>)
    requires NamesAreKeys(rows) && SameNames(E.ItemMap(rows), I.ItemMap(rows), ListedName)
    ensures SameListed(E.ItemMap(rows), I.ItemMap(rows), Same, Projected, ListedName) <==>
            forall name :: name in E.InstanceNames(rows) ==> Settled(rows, name)
  {
    var m, n := E.ItemMap(rows), I.ItemMap(rows);
    assert n.Keys == I.Ids(rows);
    hide Settled, Projected, Same, I.ItemMap, E.ItemMap, E.InstanceNames, I.Ids, NamesAreKeys, IsNamed, ListedName;
    if SameListed(m, n, Same, Projected, ListedName) {
      forall name | name in E.InstanceNames(rows) ensures Settled(rows, name) {
        var id := IdOfName(rows, name);
        ListedAt(rows, id, name);
      }
    }
    if forall name :: name in E.InstanceNames(rows) ==> Settled(rows, name) {
      forall id | id in n ensures Projected(n[id]) == Same(m[ListedName(n[id])]) {
        var name := NameOfId(rows, id);
        ListedAt(rows, id, name);
      }
    }
  }

  lemma IdOfName(rows: seq<InstanceRow>, name: string) returns (id: Uuid)
    requires NamesAreKeys(rows) && name in E.InstanceNames(rows)
    ensures IsNamed(rows, id, name) && id in I.Ids(rows)
  {
    id := Identified(rows, I.IdOf(), E.NameOf(), name);
  }

  lemma NameOfId(rows: seq<InstanceRow>, id: Uuid) returns (name: string)
    requires NamesAreKeys(rows) && id in I.Ids(rows)
    ensures IsNamed(rows, id, name) && name in E.InstanceNames(rows)
  {
    name := Named(rows, I.IdOf(), E.NameOf(), id);
  }

  lemma ListedAt(rows: seq<InstanceRow>, id: Uuid, name: string)
    requires IsNamed(rows, id, name) && id in I.Ids(rows) && name in E.InstanceNames(rows)
    ensures id in I.ItemMap(rows) && name in E.ItemMap(rows) && ListedName(I.ItemMap(rows)[id]) == name
    ensures Projected(I.ItemMap(rows)[id]) == Same(E.ItemMap(rows)[name]) <==> Settled(rows, name)
  {
    hide Settled, Projected, I.ItemOf, E.ItemOf, IsNamed;
    SameItemExactly(rows, id, name);
  }

  /** The two aggregations agree, element by element in the same order, exactly when no field
      changes between the first and the last row that mention it. */
  lemma AggregationsAgreeExactly(rows: seq<InstanceRow>)
    requires NamesAreKeys(rows)
    ensures E.InstanceItems(rows) == Projection(I.InventoryItems(rows)) <==> FieldsSettled(rows)
  {
    MapsMatch(rows);
    ExportNamed(rows);
    ListedAlikeExactly(rows);
    Unchanged(E.InstanceItems(rows));
    SettledByName(rows);
    hide Mapped, ByName, ById, StableSort, E.ItemMap, I.ItemMap, SameListed, Settled, SameNames, DistinctNames,
      NamedAlike, OrderedByName;
    SameListExactly(E.ItemMap(rows), I.ItemMap(rows), Same, Projected, I.InventoryBefore, ListedName, ExportedName);
  }

  lemma SettledByName(rows: seq<InstanceRow>)
    ensures FieldsSettled(rows) <==> forall name :: name in E.InstanceNames(rows) ==> Settled(rows, name)
  {
    forall name, field | name !in E.InstanceNames(rows)
      ensures FirstSome(rows, E.FieldFor(name, field)) == LastSome(rows, E.FieldFor(name, field))
    {
      Absent(rows, name, field);
    }
    hide FirstSome, LastSome;
    if forall name :: name in E.InstanceNames(rows) ==> Settled(rows, name) {
      forall name, field
        ensures FirstSome(rows, E.FieldFor(name, field)) == LastSome(rows, E.FieldFor(name, field))
      {
        if name in E.InstanceNames(rows) { assert Settled(rows, name); }
      }
    }
  }

  lemma Absent(rows: seq<InstanceRow>, name: string, field: string)
    requires name !in E.InstanceNames(rows)
    ensures FirstSome(rows, E.FieldFor(name, field)) == LastSome(rows, E.FieldFor(name, field)) == None
  {
    forall r | r in rows ensures E.FieldFor(name, field)(r).None? { Seen(rows, E.NameOf(), r); }
    NothingPicked(rows, E.FieldFor(name, field));
  }

  /** Rows that agree on each field give one list. */
  lemma AggregationsAgree(rows: seq<InstanceRow>)
    requires NamesAreKeys(rows)
    requires forall name, field :: OneValue(rows, E.FieldFor(name, field))
    ensures E.InstanceItems(rows) == Projection(I.InventoryItems(rows))
  {
    forall name, field
      ensures FirstSome(rows, E.FieldFor(name, field)) == LastSome(rows, E.FieldFor(name, field))
    {
      FirstIsLast(rows, E.FieldFor(name, field));
    }
    AggregationsAgreeExactly(rows);
  }

  lemma OneInstance(st: Store, r: InstanceRow, s: InstanceRow)
    requires UniqueInstanceNames(st) && InstanceRowOf(st, r) && InstanceRowOf(st, s)
    ensures r.id == s.id <==> r.displayName == s.displayName
    ensures r.id == s.id && r.fieldName == s.fieldName && r.fieldName.Some? ==>
      E.FieldOf(r, r.fieldName.value) == E.FieldOf(s, s.fieldName.value)
  {
  }

  lemma StoreRows(st: Store, rows: seq<InstanceRow>)
    requires UniqueInstanceNames(st) && InstanceRowsOf(st, rows)
    ensures NamesAreKeys(rows) && forall name, field :: OneValue(rows, E.FieldFor(name, field))
  {
    hide UniqueInstanceNames, E.FieldOf, InstanceRowOf;
    assert forall r :: r in rows ==> InstanceRowOf(st, r);
    hide InstanceRowsOf;
    forall r, s | r in rows && s in rows
      ensures r.id == s.id <==> r.displayName == s.displayName
      ensures r.id == s.id && r.fieldName == s.fieldName && r.fieldName.Some? ==>
        E.FieldOf(r, r.fieldName.value) == E.FieldOf(s, s.fieldName.value)
    {
      OneInstance(st, r, s);
    }
  }

  /** The rows the export query returns for a store with unique instance names are of that kind. */
  lemma StoreAggregationsAgree(st: Store, rows: seq<InstanceRow>)
    requires UniqueInstanceNames(st) && InstanceRowsOf(st, rows)
    ensures E.InstanceItems(rows) == Projection(I.InventoryItems(rows))
  {
    hide UniqueInstanceNames, E.InstanceItems, I.InventoryItems, E.FieldOf, Projection, InstanceRowOf, OneToOne;
    StoreRows(st, rows);
    AggregationsAgree(rows);
  }
}
