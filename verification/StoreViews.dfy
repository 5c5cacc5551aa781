/** What the export and the two inventories show of a store, read directly off it. */
module StoreViews {
  import opened Basics
  import opened Ordering
  import opened RowFolds
  import opened IndexerRecords
  import opened IndexerStore
  import opened ExportOfStore
  import opened ExportJoin
  import opened KeyedLists
  import opened RoutingAgreement
  import I = InstanceInventory
  import E = InstanceExport
  import R = RoutingExport
  import V = RoutingInventory

  // ----- What is shown -----

  /** The id and the name of a rate limit, while it is live. */
  function LimitShown(st: Store, id: Option<Uuid>): (Option<Uuid>, Option<string>) {
    if id.Some? && id.value in st.rateLimits then (id, Some(st.rateLimits[id.value].displayName)) else (None, None)
  }

  /** The id and the name of a routing policy, while it is live. */
  function PolicyShown(st: Store, id: Option<Uuid>): (Option<Uuid>, Option<string>) {
    if id.Some? && id.value in st.policies then (id, Some(st.policies[id.value].displayName)) else (None, None)
  }

  function SwitchShown(on: bool): string { if on then "enabled" else "disabled" }

  function ColumnsShown(inst: Instance): InstanceColumns {
    InstanceColumns(
      inst.upstreamSlug, SwitchShown(inst.isEnabled), SwitchShown(inst.enableRss),
      SwitchShown(inst.enableAutomaticSearch), SwitchShown(inst.enableInteractiveSearch),
      inst.priority, inst.trustTierKey, inst.limits)
  }

  /** Every field under its stored type, with its value, and its secret while that is not revoked. */
  function FieldsShown(st: Store, inst: Instance): map<string, FieldItem> {
    map f | f in inst.fields ::
      var field := inst.fields[f];
      FieldItem(f, field.fieldType, field.value,
                if field.secretId.Some? && field.secretId.value in st.secrets then field.secretId else None)
  }

  function InstanceShown(st: Store, id: Uuid): I.InventoryItem
    requires id in st.instances
  {
    var inst := st.instances[id];
    var policy, limit := PolicyShown(st, inst.routingId), LimitShown(st, inst.rateLimitId);
    I.InventoryItem(
      id, inst.displayName, ColumnsShown(inst), policy.0, policy.1, limit.0, limit.1,
      if inst.rss.Some? then Some(inst.rss.value.isEnabled) else None,
      if inst.rss.Some? then Some(inst.rss.value.intervalSeconds) else None,
      SortedNames(inst.mediaKeys), SortedNames(inst.tagKeys * st.tags.Keys), ByName(FieldsShown(st, inst)))
  }

  function PolicyListing(st: Store, id: Uuid): V.RoutingListItem
    requires id in st.policies
  {
    var p := st.policies[id];
    var limit := LimitShown(st, p.rateLimitId);
    V.RoutingListItem(id, p.displayName, p.mode, limit.0, limit.1, |p.parameters|, |BoundKeys(st, p)|)
  }

  // ----- The export -----

  function PolicyDocument(st: Store, p: Policy): RoutingItem {
    RoutingItem(p.displayName, p.mode, LimitShown(st, p.rateLimitId).1,
                R.SortedParameters(set k | k in p.parameters :: ParameterShown(st, p, k)))
  }

  /** A parameter with its value, and its secret while that is not revoked. */
  function ParameterShown(st: Store, p: Policy, k: string): ParameterItem
    requires k in p.parameters
  {
    var q := p.parameters[k];
    ParameterItem(k, q.value, if q.secretId.Some? && q.secretId.value in st.secrets then q.secretId else None)
  }

  function InstanceDocument(st: Store, inst: Instance): InstanceItem {
    InstanceItem(
      inst.displayName, ColumnsShown(inst), PolicyShown(st, inst.routingId).1, LimitShown(st, inst.rateLimitId).1,
      if inst.rss.Some? then Some(inst.rss.value.isEnabled) else None,
      if inst.rss.Some? then Some(inst.rss.value.intervalSeconds) else None,
      SortedNames(inst.mediaKeys), SortedNames(inst.tagKeys * st.tags.Keys), ByName(FieldsShown(st, inst)))
  }

  /** An export of a store names what is live: deleted limits and policies, deleted tags and revoked secrets
      leave a blank. */
  lemma ExportShows(st: Store, snap: Snapshot)
    requires IsExport(st, snap)
    ensures forall l :: l in snap.rateLimits <==> exists id ::
      id in st.rateLimits
      && var r := st.rateLimits[id];
      l == RateLimitItem(r.displayName, r.requestsPerMinute, r.burst, r.concurrentRequests, r.isSystem)
    ensures forall p :: p in snap.routing <==> exists id ::
      id in st.policies && PolicyDocument(st, st.policies[id]) == p
    ensures forall i :: i in snap.instances <==> exists id ::
      id in st.instances && InstanceDocument(st, st.instances[id]) == i
  {
    forall id | id in st.policies ensures PolicyItem(st, st.policies[id]) == PolicyDocument(st, st.policies[id]) {
      PolicyDocumented(st, st.policies[id]);
    }
    forall id | id in st.instances
      ensures InstanceItemIn(st, st.instances[id]) == InstanceDocument(st, st.instances[id])
    {
      InstanceDocumented(st, st.instances[id]);
    }
    hide PolicyItem, PolicyDocument, InstanceItemIn, InstanceDocument;
  }

  lemma PolicyDocumented(st: Store, p: Policy)
    ensures PolicyItem(st, p) == PolicyDocument(st, p)
  {
    hide R.SortedParameters;
    assert ParameterSet(st, p) == set k | k in p.parameters :: ParameterShown(st, p, k);
  }

  lemma InstanceDocumented(st: Store, inst: Instance)
    ensures InstanceItemIn(st, inst) == InstanceDocument(st, inst)
  {
    hide SortedNames, ByName;
    assert FieldItems(st, inst) == FieldsShown(st, inst);
  }

  // ----- Instances -----

  /** What every row of an instance says about it. */
  ghost predicate Repeats(st: Store, id: Uuid, r: InstanceRow) {
    && id in st.instances
    && var shown := InstanceShown(st, id);
    && r.displayName == shown.displayName && r.columns == shown.columns
    && r.routingId == shown.routingId && r.routingName == shown.routingName
    && r.rateLimitId == shown.rateLimitId && r.rateLimitName == shown.rateLimitName
    && r.rssEnabled == shown.rssEnabled && r.rssInterval == shown.rssInterval
  }

  lemma RowRepeats(st: Store, r: InstanceRow)
    requires InstanceRowOf(st, r)
    ensures Repeats(st, r.id, r)
  {
    hide ByName, SortedNames;
  }

  lemma RowsRepeat(st: Store, rows: seq<InstanceRow>, id: Uuid) returns (row: InstanceRow)
    requires InstanceRowsOf(st, rows) && id in st.instances
    ensures row in rows && row.id == id
    ensures forall r :: r in rows && r.id == id ==> Repeats(st, id, r)
  {
    hide InstanceRowsOf, InstanceRowOf, Repeats;
    row := SomeInstanceRow(st, rows, id);
    forall r | r in rows && r.id == id ensures Repeats(st, id, r) {
      InstanceRowDescribes(st, rows, r);
      RowRepeats(st, r);
    }
  }

  lemma IdShown(st: Store, rows: seq<InstanceRow>)
    requires InstanceRowsOf(st, rows)
    ensures I.Ids(rows) == st.instances.Keys
  {
    forall id | id in st.instances ensures id in I.Ids(rows) {
      var r := SomeInstanceRow(st, rows, id);
      Seen(rows, I.IdOf(), r);
    }
    forall id | id in I.Ids(rows) ensures id in st.instances {
      var r := PickedFrom(rows, I.IdOf(), id);
      InstanceRowDescribes(st, rows, r);
    }
  }

  lemma ColumnsRead(st: Store, rows: seq<InstanceRow>, id: Uuid)
    requires InstanceRowsOf(st, rows) && id in st.instances
    ensures var shown := InstanceShown(st, id);
      && FirstSome(rows, I.NameAt(id)) == Some(shown.displayName)
      && FirstSome(rows, I.ColumnsAt(id)) == Some(shown.columns)
      && FirstSome(rows, I.RssEnabledAt(id)) == shown.rssEnabled
      && FirstSome(rows, I.RssIntervalAt(id)) == shown.rssInterval
  {
    hide InstanceRowsOf, InstanceRowOf, FirstSome, InstanceShown;
    var row := RowsRepeat(st, rows, id);
    var shown := InstanceShown(st, id);
    EntityColumn(rows, I.NameAt(id), Some(shown.displayName), row);
    EntityColumn(rows, I.ColumnsAt(id), Some(shown.columns), row);
    EntityColumn(rows, I.RssEnabledAt(id), shown.rssEnabled, row);
    EntityColumn(rows, I.RssIntervalAt(id), shown.rssInterval, row);
  }

  lemma ReferencesRead(st: Store, rows: seq<InstanceRow>, id: Uuid)
    requires InstanceRowsOf(st, rows) && id in st.instances
    ensures var shown := InstanceShown(st, id);
      && FirstSome(rows, I.RoutingIdAt(id)) == shown.routingId
      && FirstSome(rows, I.RoutingNameAt(id)) == shown.routingName
      && FirstSome(rows, I.RateLimitIdAt(id)) == shown.rateLimitId
      && FirstSome(rows, I.RateLimitNameAt(id)) == shown.rateLimitName
  {
    hide InstanceRowsOf, InstanceRowOf, FirstSome, InstanceShown;
    var row := RowsRepeat(st, rows, id);
    var shown := InstanceShown(st, id);
    EntityColumn(rows, I.RoutingIdAt(id), shown.routingId, row);
    EntityColumn(rows, I.RoutingNameAt(id), shown.routingName, row);
    EntityColumn(rows, I.RateLimitIdAt(id), shown.rateLimitId, row);
    EntityColumn(rows, I.RateLimitNameAt(id), shown.rateLimitName, row);
  }

  lemma RowKeys(st: Store, r: InstanceRow)
    requires InstanceRowOf(st, r)
    ensures r.id in st.instances
    ensures r.mediaKey.Some? ==> r.mediaKey.value in st.instances[r.id].mediaKeys
    ensures r.tagKey.Some? ==> r.tagKey.value in st.instances[r.id].tagKeys * st.tags.Keys
    ensures r.fieldName.Some? ==> r.fieldName.value in st.instances[r.id].fields
  {
  }

  lemma MediaRead(st: Store, rows: seq<InstanceRow>, id: Uuid)
    requires InstanceRowsOf(st, rows) && id in st.instances
    ensures Picks(rows, I.MediaAt(id)) == st.instances[id].mediaKeys
  {
    hide InstanceRowsOf, InstanceRowOf, Picks;
    forall k ensures k in Picks(rows, I.MediaAt(id)) <==> k in st.instances[id].mediaKeys {
      if k in Picks(rows, I.MediaAt(id)) {
        var r := PickedFrom(rows, I.MediaAt(id), k);
        InstanceRowDescribes(st, rows, r);
        RowKeys(st, r);
      }
      if k in st.instances[id].mediaKeys { var r := MediaRow(st, rows, id, k); Seen(rows, I.MediaAt(id), r); }
    }
  }

  lemma TagsRead(st: Store, rows: seq<InstanceRow>, id: Uuid)
    requires InstanceRowsOf(st, rows) && id in st.instances
    ensures Picks(rows, I.TagAt(id)) == st.instances[id].tagKeys * st.tags.Keys
  {
    hide InstanceRowsOf, InstanceRowOf, Picks;
    forall k ensures k in Picks(rows, I.TagAt(id)) <==> k in st.instances[id].tagKeys * st.tags.Keys {
      if k in Picks(rows, I.TagAt(id)) {
        var r := PickedFrom(rows, I.TagAt(id), k);
        InstanceRowDescribes(st, rows, r);
        RowKeys(st, r);
      }
      if k in st.instances[id].tagKeys * st.tags.Keys { var r := TagRow(st, rows, id, k); Seen(rows, I.TagAt(id), r); }
    }
  }

  lemma FieldNamesRead(st: Store, rows: seq<InstanceRow>, id: Uuid)
    requires InstanceRowsOf(st, rows) && id in st.instances
    ensures Picks(rows, I.FieldNameAt(id)) == st.instances[id].fields.Keys
  {
    hide InstanceRowsOf, InstanceRowOf, Picks;
    forall k ensures k in Picks(rows, I.FieldNameAt(id)) <==> k in st.instances[id].fields.Keys {
      if k in Picks(rows, I.FieldNameAt(id)) {
        var r := PickedFrom(rows, I.FieldNameAt(id), k);
        InstanceRowDescribes(st, rows, r);
        RowKeys(st, r);
      }
      if k in st.instances[id].fields.Keys { var r := FieldRow(st, rows, id, k); Seen(rows, I.FieldNameAt(id), r); }
    }
  }

  lemma RowField(st: Store, r: InstanceRow)
    requires InstanceRowOf(st, r) && r.fieldName.Some?
    ensures r.fieldName.value in FieldsShown(st, st.instances[r.id])
    ensures E.FieldOf(r, r.fieldName.value) == FieldsShown(st, st.instances[r.id])[r.fieldName.value]
  {
  }

  lemma FieldsRead(st: Store, rows: seq<InstanceRow>, id: Uuid)
    requires InstanceRowsOf(st, rows) && id in st.instances
    ensures I.FieldMap(rows, id) == FieldsShown(st, st.instances[id])
  {
    hide InstanceRowsOf, InstanceRowOf, LastSome, Picks, E.FieldOf;
    FieldNamesRead(st, rows, id);
    forall f | f in st.instances[id].fields ensures I.FieldMap(rows, id)[f] == FieldsShown(st, st.instances[id])[f] {
      I.HasField(rows, id, f);
      var r := LastFrom(rows, I.FieldAt(id, f));
      InstanceRowDescribes(st, rows, r);
      RowField(st, r);
    }
  }

  lemma ItemShown(st: Store, rows: seq<InstanceRow>, id: Uuid)
    requires InstanceRowsOf(st, rows) && id in st.instances && id in I.Ids(rows)
    ensures I.ItemOf(rows, id) == InstanceShown(st, id)
  {
    ColumnsRead(st, rows, id);
    ReferencesRead(st, rows, id);
    MediaRead(st, rows, id);
    TagsRead(st, rows, id);
    FieldsRead(st, rows, id);
    hide InstanceRowsOf, FirstSome, Picks, I.FieldMap, FieldsShown, ByName, SortedNames, ColumnsShown;
  }

  function ShownName(item: I.InventoryItem): string { item.displayName }

  /** From any rows that describe a store with unique names, the instance inventory holds exactly one entry
      per live instance, in the order of names: its own id, its columns, the id and the name of its
      routing policy and of its rate limit while they are live, its keys in order, and its fields. */
  lemma InstancesInventoried(st: Store, rows: seq<InstanceRow>)
    requires UniqueInstanceNames(st) && InstanceRowsOf(st, rows)
    ensures var items := I.InventoryItems(rows);
      && AscendingBy(items, I.InventoryBefore)
      && forall item :: item in items <==> exists id :: id in st.instances && InstanceShown(st, id) == item
  {
    hide InstanceRowsOf, UniqueInstanceNames, InstanceShown, I.ItemMap, DistinctNames, OrderedByName, StableSort, ById;
    MapShown(st, rows);
    var shown := I.ItemMap(rows);
    SortedByName(shown, I.InventoryBefore, ShownName);
    forall item
      ensures item in I.InventoryItems(rows) <==> exists id :: id in st.instances && InstanceShown(st, id) == item
    {
      if id :| id in shown && shown[id] == item { assert InstanceShown(st, id) == item; }
      if id :| id in st.instances && InstanceShown(st, id) == item { assert shown[id] == item; }
    }
  }

  lemma MapShown(st: Store, rows: seq<InstanceRow>)
    requires UniqueInstanceNames(st) && InstanceRowsOf(st, rows)
    ensures I.ItemMap(rows) == map id | id in st.instances :: InstanceShown(st, id)
    ensures DistinctNames(I.ItemMap(rows), ShownName) && OrderedByName(I.InventoryBefore, ShownName)
  {
    hide InstanceRowsOf, I.Ids, I.ItemOf, InstanceShown;
    IdShown(st, rows);
    forall id | id in st.instances
      ensures I.ItemMap(rows)[id] == InstanceShown(st, id)
      ensures ShownName(InstanceShown(st, id)) == st.instances[id].displayName
    {
      ItemShown(st, rows, id);
      NameShown(st, id);
    }
  }

  lemma NameShown(st: Store, id: Uuid)
    requires id in st.instances
    ensures ShownName(InstanceShown(st, id)) == st.instances[id].displayName
  {
  }

  // ----- Routing policies -----

  lemma PolicyIds(st: Store, rows: seq<RoutingRow>)
    requires RoutingRowsOf(st, rows)
    ensures V.Ids(rows) == st.policies.Keys
  {
    forall id | id in st.policies ensures id in V.Ids(rows) {
      var r := PolicyRow(st, rows, id);
      Seen(rows, V.IdOf(), r);
    }
    forall id | id in V.Ids(rows) ensures id in st.policies {
      var r := PickedFrom(rows, V.IdOf(), id);
      RoutingRowDescribes(st, rows, r);
    }
  }

  lemma PolicyRowShows(st: Store, r: RoutingRow)
    requires RoutingRowOf(st, r)
    ensures r.id in st.policies
    ensures var shown := PolicyListing(st, r.id);
      && r.displayName == shown.displayName && r.mode == shown.mode
      && r.rateLimitId == shown.rateLimitId && r.rateLimitName == shown.rateLimitName
  {
    hide BoundKeys;
  }

  lemma PolicyColumnsRead(st: Store, rows: seq<RoutingRow>, id: Uuid)
    requires RoutingRowsOf(st, rows) && id in st.policies
    ensures var shown := PolicyListing(st, id);
      && FirstSome(rows, V.NameAt(id)) == Some(shown.displayName)
      && FirstSome(rows, V.ModeAt(id)) == Some(shown.mode)
      && FirstSome(rows, V.RateLimitIdAt(id)) == shown.rateLimitId
      && FirstSome(rows, V.RateLimitNameAt(id)) == shown.rateLimitName
  {
    hide RoutingRowsOf, RoutingRowOf, PolicyListing, FirstSome;
    var row := PolicyRow(st, rows, id);
    var shown := PolicyListing(st, id);
    forall r | r in rows && r.id == id
      ensures r.displayName == shown.displayName && r.mode == shown.mode
      ensures r.rateLimitId == shown.rateLimitId && r.rateLimitName == shown.rateLimitName
    {
      RoutingRowDescribes(st, rows, r);
      PolicyRowShows(st, r);
    }
    EntityColumn(rows, V.NameAt(id), Some(shown.displayName), row);
    EntityColumn(rows, V.ModeAt(id), Some(shown.mode), row);
    EntityColumn(rows, V.RateLimitIdAt(id), shown.rateLimitId, row);
    EntityColumn(rows, V.RateLimitNameAt(id), shown.rateLimitName, row);
  }

  lemma PolicyShownExactly(st: Store, rows: seq<RoutingRow>, id: Uuid)
    requires JoinOnce(st, rows) && RoutingRowsOf(st, rows) && id in st.policies && id in V.Ids(rows)
    ensures V.Entry(rows, id) == PolicyListing(st, id)
  {
    hide JoinOnce, RoutingRowsOf, FirstSome, Tally, Picks;
    PolicyColumnsRead(st, rows, id);
    StoreCounts(st, rows, id);
    hide BoundKeys;
  }

  function ListedName(item: V.RoutingListItem): string { item.displayName }

  /** From the routing join of a store with unique names, each row once, the policy inventory holds exactly
      one entry per live policy, in the order of names: its own id, its name and mode, the id and the name
      of its rate limit while that is live, and how many parameters and how many live bindings it has. */
  lemma PoliciesInventoried(st: Store, rows: seq<RoutingRow>)
    requires UniquePolicyNames(st) && JoinOnce(st, rows)
    ensures var items := V.InventoryItems(rows);
      && AscendingBy(items, V.InventoryBefore)
      && forall item :: item in items <==> exists id :: id in st.policies && PolicyListing(st, id) == item
  {
    hide JoinOnce, UniquePolicyNames, PolicyListing, V.ItemMap, DistinctNames, OrderedByName, StableSort, ById;
    ListingsShown(st, rows);
    var shown := V.ItemMap(rows);
    SortedByName(shown, V.InventoryBefore, ListedName);
    forall item
      ensures item in V.InventoryItems(rows) <==> exists id :: id in st.policies && PolicyListing(st, id) == item
    {
      if id :| id in shown && shown[id] == item { assert PolicyListing(st, id) == item; }
      if id :| id in st.policies && PolicyListing(st, id) == item { assert shown[id] == item; }
    }
  }

  lemma ListingsShown(st: Store, rows: seq<RoutingRow>)
    requires UniquePolicyNames(st) && JoinOnce(st, rows)
    ensures V.ItemMap(rows) == map id | id in st.policies :: PolicyListing(st, id)
    ensures DistinctNames(V.ItemMap(rows), ListedName) && OrderedByName(V.InventoryBefore, ListedName)
  {
    hide JoinOnce, RoutingRowsOf, V.Ids, V.Entry, PolicyListing;
    JoinDescribes(st, rows);
    PolicyIds(st, rows);
    forall id | id in st.policies
      ensures V.ItemMap(rows)[id] == PolicyListing(st, id)
      ensures ListedName(PolicyListing(st, id)) == st.policies[id].displayName
    {
      PolicyShownExactly(st, rows, id);
      ListingName(st, id);
    }
  }

  lemma ListingName(st: Store, id: Uuid)
    requires id in st.policies
    ensures ListedName(PolicyListing(st, id)) == st.policies[id].displayName
  {
  }

  lemma JoinDescribes(st: Store, rows: seq<RoutingRow>)
    requires JoinOnce(st, rows)
    ensures RoutingRowsOf(st, rows)
  {
    RoutingJoinConsistent(st, rows);
  }
}
