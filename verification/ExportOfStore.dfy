/** Whatever rows the join returns for a store, the export is the documents of that store. */
module ExportOfStore {
  import opened Basics
  import opened Ordering
  import opened RowFolds
  import opened IndexerRecords
  import opened IndexerStore
  import opened SecretTable
  import I = InstanceExport
  import R = RoutingExport

  // ----- Single facts about consistent rows -----

  lemma RoutingRowDescribes(st: Store, rows: seq<RoutingRow>, r: RoutingRow)
    requires RoutingRowsOf(st, rows) && r in rows
    ensures RoutingRowOf(st, r)
  {
  }

  lemma RoutingRowNamed(st: Store, rows: seq<RoutingRow>, id: Uuid, r: RoutingRow)
    requires UniquePolicyNames(st) && RoutingRowsOf(st, rows) && id in st.policies
    requires r in rows && r.displayName == st.policies[id].displayName
    ensures r.id == id && RoutingRowOf(st, r)
  {
  }

  lemma PolicyRow(st: Store, rows: seq<RoutingRow>, id: Uuid) returns (r: RoutingRow)
    requires RoutingRowsOf(st, rows) && id in st.policies
    ensures r in rows && r.id == id && RoutingRowOf(st, r)
  {
    r :| r in rows && r.id == id;
  }

  lemma ParameterRow(st: Store, rows: seq<RoutingRow>, id: Uuid, k: string) returns (r: RoutingRow)
    requires RoutingRowsOf(st, rows) && id in st.policies && k in st.policies[id].parameters
    ensures r in rows && r.id == id && r.paramKey == Some(k) && RoutingRowOf(st, r)
  {
    r :| r in rows && r.id == id && r.paramKey == Some(k);
  }

  lemma InstanceRowDescribes(st: Store, rows: seq<InstanceRow>, r: InstanceRow)
    requires InstanceRowsOf(st, rows) && r in rows
    ensures InstanceRowOf(st, r)
  {
  }

  lemma InstanceRowNamed(st: Store, rows: seq<InstanceRow>, id: Uuid, r: InstanceRow)
    requires UniqueInstanceNames(st) && InstanceRowsOf(st, rows) && id in st.instances
    requires r in rows && r.displayName == st.instances[id].displayName
    ensures r.id == id && InstanceRowOf(st, r)
  {
    InstanceRowDescribes(st, rows, r);
  }

  lemma SomeInstanceRow(st: Store, rows: seq<InstanceRow>, id: Uuid) returns (r: InstanceRow)
    requires InstanceRowsOf(st, rows) && id in st.instances
    ensures r in rows && r.id == id && InstanceRowOf(st, r)
  {
    r :| r in rows && r.id == id;
  }

  lemma MediaRow(st: Store, rows: seq<InstanceRow>, id: Uuid, k: string) returns (r: InstanceRow)
    requires InstanceRowsOf(st, rows) && id in st.instances && k in st.instances[id].mediaKeys
    ensures r in rows && r.id == id && r.mediaKey == Some(k) && InstanceRowOf(st, r)
  {
    r :| r in rows && r.id == id && r.mediaKey == Some(k);
  }

  lemma TagRow(st: Store, rows: seq<InstanceRow>, id: Uuid, k: string) returns (r: InstanceRow)
    requires InstanceRowsOf(st, rows) && id in st.instances && k in st.instances[id].tagKeys * st.tags.Keys
    ensures r in rows && r.id == id && r.tagKey == Some(k) && InstanceRowOf(st, r)
  {
    r :| r in rows && r.id == id && r.tagKey == Some(k);
  }

  lemma FieldRow(st: Store, rows: seq<InstanceRow>, id: Uuid, f: string) returns (r: InstanceRow)
    requires InstanceRowsOf(st, rows) && id in st.instances && f in st.instances[id].fields
    ensures r in rows && r.id == id && r.fieldName == Some(f) && InstanceRowOf(st, r)
  {
    r :| r in rows && r.id == id && r.fieldName == Some(f);
  }

  /** A column that every row of an entity repeats is exported as it is. */
  lemma EntityColumn<Row(!new), T>(rows: seq<Row>, pick: Row -> Option<T>, value: Option<T>, row: Row)
    requires row in rows && pick(row) == value
    requires forall r :: r in rows && pick(r).Some? ==> pick(r) == value
    ensures FirstSome(rows, pick) == value
  {
    if value.Some? { Seen(rows, pick, row); }
    if FirstSome(rows, pick).Some? { var r := FirstFrom(rows, pick); }
  }

  // ----- Routing policies -----

  lemma PolicyEntry(st: Store, rows: seq<RoutingRow>, id: Uuid)
    requires UniquePolicyNames(st) && RoutingRowsOf(st, rows) && id in st.policies
    ensures st.policies[id].displayName in R.RoutingNames(rows)
    ensures R.Entry(rows, st.policies[id].displayName)
         == RoutingItem(st.policies[id].displayName, st.policies[id].mode,
             RateLimitNameIn(st, st.policies[id].rateLimitId), [])
  {
    hide RoutingRowsOf, UniquePolicyNames;
    var p := st.policies[id];
    var n := p.displayName;
    var row := PolicyRow(st, rows, id);
    Seen(rows, R.NameOf(), row);
    forall r | r in rows && r.displayName == n ensures r.mode == p.mode
        && r.rateLimitName == RateLimitNameIn(st, p.rateLimitId)
    {
      RoutingRowNamed(st, rows, id, r);
    }
    EntityColumn(rows, R.ModeFor(n), Some(p.mode), row);
    EntityColumn(rows, R.RateLimitNameFor(n), RateLimitNameIn(st, p.rateLimitId), row);
  }

  lemma PolicyParameters(st: Store, rows: seq<RoutingRow>, id: Uuid)
    requires UniquePolicyNames(st) && RoutingRowsOf(st, rows) && id in st.policies
    ensures Picks(rows, R.ParameterFor(st.policies[id].displayName)) == ParameterSet(st, st.policies[id])
  {
    hide RoutingRowsOf, UniquePolicyNames;
    var p := st.policies[id];
    var pick := R.ParameterFor(p.displayName);
    forall item ensures item in Picks(rows, pick) <==> item in ParameterSet(st, p) {
      if item in Picks(rows, pick) {
        var row := PickedFrom(rows, pick, item);
        RoutingRowNamed(st, rows, id, row);
        assert item == ParameterOf(st, row.paramKey.value, p.parameters[row.paramKey.value]);
      }
      if item in ParameterSet(st, p) {
        var k :| k in p.parameters && ParameterOf(st, k, p.parameters[k]) == item;
        var row := ParameterRow(st, rows, id, k);
        Seen(rows, pick, row);
      }
    }
  }

  lemma PolicyExported(st: Store, rows: seq<RoutingRow>, id: Uuid)
    requires UniquePolicyNames(st) && RoutingRowsOf(st, rows) && id in st.policies
    ensures st.policies[id].displayName in R.RoutingNames(rows)
    ensures R.ItemOf(rows, st.policies[id].displayName) == PolicyItem(st, st.policies[id])
  {
    hide RoutingRowsOf, UniquePolicyNames, R.Entry, ParameterSet;
    PolicyEntry(st, rows, id);
    PolicyParameters(st, rows, id);
  }

  lemma NamedPolicy(st: Store, rows: seq<RoutingRow>, n: string) returns (id: Uuid)
    requires RoutingRowsOf(st, rows) && n in R.RoutingNames(rows)
    ensures id in st.policies && st.policies[id].displayName == n
  {
    var row := PickedFrom(rows, R.NameOf(), n);
    RoutingRowDescribes(st, rows, row);
    id := row.id;
  }

  /** The exported routing policies are the live policies, sorted by name. */
  lemma RoutingExported(st: Store, rows: seq<RoutingRow>)
    requires UniquePolicyNames(st) && RoutingRowsOf(st, rows)
    ensures PoliciesListed(st, R.RoutingItems(rows))
  {
    hide RoutingRowsOf, UniquePolicyNames, PolicyItem, R.RoutingNames, ByName;
    ByNameAscending(R.ItemMap(rows), RoutingBefore);
    ByNameHolds(R.ItemMap(rows));
    forall item ensures item in R.RoutingItems(rows) <==>
        exists id :: id in st.policies && PolicyItem(st, st.policies[id]) == item {
      if item in R.RoutingItems(rows) {
        var n :| n in R.ItemMap(rows) && R.ItemMap(rows)[n] == item;
        var id := NamedPolicy(st, rows, n);
        PolicyExported(st, rows, id);
      }
      if id :| id in st.policies && PolicyItem(st, st.policies[id]) == item {
        PolicyExported(st, rows, id);
        assert R.ItemMap(rows)[st.policies[id].displayName] == item;
      }
    }
  }

  // ----- Indexer instances -----

  lemma InstanceEntry(st: Store, rows: seq<InstanceRow>, id: Uuid)
    requires UniqueInstanceNames(st) && InstanceRowsOf(st, rows) && id in st.instances
    ensures st.instances[id].displayName in I.InstanceNames(rows)
    ensures I.Entry(rows, st.instances[id].displayName) == BareInstanceItem(st, st.instances[id])
  {
    hide InstanceRowsOf, UniqueInstanceNames, FirstSome;
    var inst := st.instances[id];
    var n := inst.displayName;
    var row := SomeInstanceRow(st, rows, id);
    Seen(rows, I.NameOf(), row);
    forall r | r in rows && r.displayName == n
      ensures r.columns == ColumnsOf(inst) && r.routingName == PolicyNameIn(st, inst.routingId)
      ensures r.rateLimitName == RateLimitNameIn(st, inst.rateLimitId)
      ensures r.rssEnabled == RssEnabledOf(inst) && r.rssInterval == RssIntervalOf(inst)
    {
      InstanceRowNamed(st, rows, id, r);
    }
    hide ColumnsOf, PolicyNameIn, RateLimitNameIn, RssEnabledOf, RssIntervalOf;
    EntityColumn(rows, I.ColumnsFor(n), Some(ColumnsOf(inst)), row);
    EntityColumn(rows, I.RoutingNameFor(n), PolicyNameIn(st, inst.routingId), row);
    EntityColumn(rows, I.RateLimitNameFor(n), RateLimitNameIn(st, inst.rateLimitId), row);
    EntityColumn(rows, I.RssEnabledFor(n), RssEnabledOf(inst), row);
    EntityColumn(rows, I.RssIntervalFor(n), RssIntervalOf(inst), row);
  }

  lemma InstanceMedia(st: Store, rows: seq<InstanceRow>, id: Uuid)
    requires UniqueInstanceNames(st) && InstanceRowsOf(st, rows) && id in st.instances
    ensures Picks(rows, I.MediaFor(st.instances[id].displayName)) == st.instances[id].mediaKeys
  {
    hide InstanceRowsOf, UniqueInstanceNames;
    var pick := I.MediaFor(st.instances[id].displayName);
    forall k ensures k in Picks(rows, pick) <==> k in st.instances[id].mediaKeys {
      if k in Picks(rows, pick) { var r := PickedFrom(rows, pick, k); InstanceRowNamed(st, rows, id, r); }
      if k in st.instances[id].mediaKeys { var r := MediaRow(st, rows, id, k); Seen(rows, pick, r); }
    }
  }

  lemma InstanceTags(st: Store, rows: seq<InstanceRow>, id: Uuid)
    requires UniqueInstanceNames(st) && InstanceRowsOf(st, rows) && id in st.instances
    ensures Picks(rows, I.TagFor(st.instances[id].displayName)) == st.instances[id].tagKeys * st.tags.Keys
  {
    hide InstanceRowsOf, UniqueInstanceNames;
    var pick := I.TagFor(st.instances[id].displayName);
    forall k ensures k in Picks(rows, pick) <==> k in st.instances[id].tagKeys * st.tags.Keys {
      if k in Picks(rows, pick) { var r := PickedFrom(rows, pick, k); InstanceRowNamed(st, rows, id, r); }
      if k in st.instances[id].tagKeys * st.tags.Keys { var r := TagRow(st, rows, id, k); Seen(rows, pick, r); }
    }
  }

  lemma InstanceFieldNames(st: Store, rows: seq<InstanceRow>, id: Uuid)
    requires UniqueInstanceNames(st) && InstanceRowsOf(st, rows) && id in st.instances
    ensures Picks(rows, I.FieldNameFor(st.instances[id].displayName)) == st.instances[id].fields.Keys
  {
    hide InstanceRowsOf, UniqueInstanceNames;
    var pick := I.FieldNameFor(st.instances[id].displayName);
    forall f ensures f in Picks(rows, pick) <==> f in st.instances[id].fields {
      if f in Picks(rows, pick) { var r := PickedFrom(rows, pick, f); InstanceRowNamed(st, rows, id, r); }
      if f in st.instances[id].fields { var r := FieldRow(st, rows, id, f); Seen(rows, pick, r); }
    }
  }

  lemma InstanceFields(st: Store, rows: seq<InstanceRow>, id: Uuid)
    requires UniqueInstanceNames(st) && InstanceRowsOf(st, rows) && id in st.instances
    ensures I.FieldMap(rows, st.instances[id].displayName) == FieldItems(st, st.instances[id])
  {
    hide InstanceRowsOf, UniqueInstanceNames, FirstSome, Picks;
    var inst := st.instances[id];
    var n := inst.displayName;
    InstanceFieldNames(st, rows, id);
    forall f | f in inst.fields ensures I.FieldMap(rows, n)[f] == FieldItems(st, inst)[f] {
      I.HasField(rows, n, f);
      var r := FirstFrom(rows, I.FieldFor(n, f));
      InstanceRowNamed(st, rows, id, r);
    }
  }

  lemma InstanceExported(st: Store, rows: seq<InstanceRow>, id: Uuid)
    requires UniqueInstanceNames(st) && InstanceRowsOf(st, rows) && id in st.instances
    ensures st.instances[id].displayName in I.InstanceNames(rows)
    ensures I.ItemOf(rows, st.instances[id].displayName) == InstanceItemIn(st, st.instances[id])
  {
    hide InstanceRowsOf, UniqueInstanceNames, I.Entry, I.FieldMap, I.Filled, FieldItems, BareInstanceItem, Picks;
    InstanceEntry(st, rows, id);
    InstanceMedia(st, rows, id);
    InstanceTags(st, rows, id);
    InstanceFields(st, rows, id);
  }

  lemma NamedInstance(st: Store, rows: seq<InstanceRow>, n: string) returns (id: Uuid)
    requires InstanceRowsOf(st, rows) && n in I.InstanceNames(rows)
    ensures id in st.instances && st.instances[id].displayName == n
  {
    var row := PickedFrom(rows, I.NameOf(), n);
    InstanceRowDescribes(st, rows, row);
    id := row.id;
  }

  /** The exported instances are the live instances, sorted by name. */
  lemma InstancesExported(st: Store, rows: seq<InstanceRow>)
    requires UniqueInstanceNames(st) && InstanceRowsOf(st, rows)
    ensures InstancesListed(st, I.InstanceItems(rows))
  {
    hide InstanceRowsOf, UniqueInstanceNames, InstanceItemIn, I.InstanceNames, I.ItemOf, ByName;
    forall n | n in I.ItemMap(rows) ensures I.ItemMap(rows)[n].displayName == n { I.ItemNamed(rows, n); }
    ByNameAscending(I.ItemMap(rows), InstanceBefore);
    ByNameHolds(I.ItemMap(rows));
    forall item ensures item in I.InstanceItems(rows) <==>
        exists id :: id in st.instances && InstanceItemIn(st, st.instances[id]) == item {
      if item in I.InstanceItems(rows) {
        var n :| n in I.ItemMap(rows) && I.ItemMap(rows)[n] == item;
        var id := NamedInstance(st, rows, n);
        InstanceExported(st, rows, id);
      }
      if id :| id in st.instances && InstanceItemIn(st, st.instances[id]) == item {
        InstanceExported(st, rows, id);
        assert I.ItemMap(rows)[st.instances[id].displayName] == item;
      }
    }
  }

  // ----- Secrets -----

  function SecretsOf(routing: seq<RoutingRow>, instances: seq<InstanceRow>): Secrets {
    Collect(Collect(map[], routing, R.SecretOf()), instances, I.SecretOf())
  }

  lemma RoutingSecret(st: Store, rows: seq<RoutingRow>, r: RoutingRow)
    requires RoutingRowsOf(st, rows) && r in rows && R.SecretOf()(r).Some?
    ensures Referenced(st, R.SecretOf()(r).value)
  {
    hide RoutingRowsOf;
    RoutingRowDescribes(st, rows, r);
    assert st.policies[r.id].parameters[r.paramKey.value].secretId == r.secretId;
  }

  lemma InstanceSecret(st: Store, rows: seq<InstanceRow>, r: InstanceRow)
    requires InstanceRowsOf(st, rows) && r in rows && I.SecretOf()(r).Some?
    ensures Referenced(st, I.SecretOf()(r).value)
  {
    hide InstanceRowsOf;
    InstanceRowDescribes(st, rows, r);
    assert st.instances[r.id].fields[r.fieldName.value].secretId == r.secretId;
  }

  lemma ReferencedPicked(st: Store, routing: seq<RoutingRow>, instances: seq<InstanceRow>, s: SecretRef)
    requires RoutingRowsOf(st, routing) && InstanceRowsOf(st, instances) && Referenced(st, s)
    ensures s in Picks(routing, R.SecretOf()) || s in Picks(instances, I.SecretOf())
  {
    hide RoutingRowsOf, InstanceRowsOf;
    if id, k :|
      id in st.policies && k in st.policies[id].parameters && st.policies[id].parameters[k].secretId == Some(s.id)
    {
      var r := ParameterRow(st, routing, id, k);
      Seen(routing, R.SecretOf(), r);
    } else {
      var id, f :| id in st.instances && f in st.instances[id].fields
          && st.instances[id].fields[f].secretId == Some(s.id);
      var r := FieldRow(st, instances, id, f);
      Seen(instances, I.SecretOf(), r);
    }
  }

  /** Each secret has one type in the store, so references cannot conflict. */
  lemma ReferenceTyped(st: Store, s: SecretRef, t: SecretRef)
    requires Referenced(st, s) && Referenced(st, t) && s.id == t.id
    ensures s == t
  {
  }

  /** A table of references stays one when rows that type referenced secrets are added. */
  lemma ReferencesKept<Row(!new)>(st: Store, refs: Secrets, rows: seq<Row>, pick: Row -> Option<SecretRef>)
    requires Keyed(refs) && forall s :: s in refs.Values ==> Referenced(st, s)
    requires forall r :: r in rows && pick(r).Some? ==> Referenced(st, pick(r).value)
    ensures Keyed(Collect(refs, rows, pick))
    ensures forall s :: s in Collect(refs, rows, pick).Values ==> Referenced(st, s)
    ensures forall s :: s in Collect(refs, rows, pick).Values <==> s in refs.Values || s in Picks(rows, pick)
  {
    hide Referenced, Picks, Collect;
    CollectKeyed(refs, rows, pick);
    var table := Collect(refs, rows, pick);
    forall s | s in table.Values ensures Referenced(st, s) && (s in refs.Values || s in Picks(rows, pick)) {
      var id :| id in table && table[id] == s;
      CollectLast(refs, rows, pick, id);
      if LastSome(rows, At(pick, id)).Some? {
        var r := LastFrom(rows, At(pick, id));
        Seen(rows, pick, r);
      }
    }
    forall s | s in refs.Values || s in Picks(rows, pick) ensures s in table.Values {
      CollectLast(refs, rows, pick, s.id);
      if s in Picks(rows, pick) {
        var r := PickedFrom(rows, pick, s);
        Seen(rows, At(pick, s.id), r);
      }
      assert table[s.id] in table.Values;
      if LastSome(rows, At(pick, s.id)).Some? { var last := LastFrom(rows, At(pick, s.id)); }
      ReferenceTyped(st, table[s.id], s);
    }
  }

  /** The exported secret list names exactly the live secrets that something is bound to. */
  lemma SecretsExported(st: Store, routing: seq<RoutingRow>, instances: seq<InstanceRow>)
    requires RoutingRowsOf(st, routing) && InstanceRowsOf(st, instances)
    ensures SecretsListed(st, Listed(SecretsOf(routing, instances)))
  {
    hide RoutingRowsOf, InstanceRowsOf, Picks, Referenced, Collect, Listed;
    forall r | r in routing && R.SecretOf()(r).Some? ensures Referenced(st, R.SecretOf()(r).value) {
      RoutingSecret(st, routing, r);
    }
    forall r | r in instances && I.SecretOf()(r).Some? ensures Referenced(st, I.SecretOf()(r).value) {
      InstanceSecret(st, instances, r);
    }
    var first := Collect(map[], routing, R.SecretOf());
    ReferencesKept(st, map[], routing, R.SecretOf());
    ReferencesKept(st, first, instances, I.SecretOf());
    ListedAscending(SecretsOf(routing, instances));
    forall s | Referenced(st, s) ensures s in SecretsOf(routing, instances).Values {
      ReferencedPicked(st, routing, instances, s);
    }
  }
}
