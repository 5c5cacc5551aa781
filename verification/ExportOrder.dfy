/** Which row lists the export is insensitive to: exactly those whose rows do not contradict
    one another. */
module ExportOrder {
  import opened Basics
  import opened Ordering
  import opened RowFolds
  import opened IndexerRecords
  import opened SecretTable
  import opened ExportOfStore
  import opened SnapshotExport
  import I = InstanceExport
  import R = RoutingExport

  // ----- Shape of every export -----

  /** Policies come out sorted by name; the parameters of each are those that rows of its name give, sorted
      and without repetition. */
  lemma RoutingShape(rows: seq<RoutingRow>)
    ensures AscendingBy(R.RoutingItems(rows), RoutingBefore)
    ensures forall item :: item in R.RoutingItems(rows) ==> AscendingBy(item.parameters, ParameterBefore)
    ensures forall item, p :: item in R.RoutingItems(rows) ==>
        (p in item.parameters <==> HasParameter(rows, item.displayName, p))
  {
    ByNameHolds(R.ItemMap(rows));
    ByNameAscending(R.ItemMap(rows), RoutingBefore);
    forall item, p | item in R.RoutingItems(rows)
      ensures p in item.parameters <==> HasParameter(rows, item.displayName, p)
    {
      HeldParameters(rows, item.displayName, p);
    }
  }

  lemma HeldParameters(rows: seq<RoutingRow>, name: string, p: ParameterItem)
    ensures p in Picks(rows, R.ParameterFor(name)) <==> HasParameter(rows, name, p)
  {
    if p in Picks(rows, R.ParameterFor(name)) { var r := PickedFrom(rows, R.ParameterFor(name), p); }
    if r :| r in rows && R.ParameterFor(name)(r) == Some(p) { Seen(rows, R.ParameterFor(name), r); }
  }

  /** Some row gives the policy this parameter. */
  ghost predicate HasParameter(rows: seq<RoutingRow>, name: string, p: ParameterItem) {
    exists r :: r in rows && R.ParameterFor(name)(r) == Some(p)
  }

  lemma InstanceShape(rows: seq<InstanceRow>)
    ensures AscendingBy(I.InstanceItems(rows), InstanceBefore)
    ensures forall item :: item in I.InstanceItems(rows) ==>
      AscendingBy(item.mediaKeys, StrLess) && AscendingBy(item.tagKeys, StrLess)
          && AscendingBy(item.fields, FieldBefore)
  {
    ByNameHolds(I.ItemMap(rows));
    ByNameAscending(I.ItemMap(rows), InstanceBefore);
    forall name | name in I.InstanceNames(rows) ensures AscendingBy(ByName(I.FieldMap(rows, name)), FieldBefore) {
      forall f | f in I.FieldMap(rows, name) ensures I.FieldMap(rows, name)[f].name == f {
        I.HasField(rows, name, f);
        var r := FirstFrom(rows, I.FieldFor(name, f));
      }
      ByNameAscending(I.FieldMap(rows, name), FieldBefore);
    }
  }

  // ----- Routing policies -----

  /** Rows of one policy repeat its mode and name at most one rate limit. */
  ghost predicate RoutingAgree(rows: seq<RoutingRow>) {
    forall n: string :: OneValue(rows, R.ModeFor(n)) && OneValue(rows, R.RateLimitNameFor(n))
  }

  lemma RoutingOrderIrrelevant(rows: seq<RoutingRow>, others: seq<RoutingRow>)
    requires RoutingAgree(rows) && SameElements(rows, others)
    ensures R.RoutingItems(rows) == R.RoutingItems(others)
  {
    hide ByName, Picks, FirstSome, R.SortedParameters;
    SamePicks(rows, others, R.NameOf());
    forall n | n in R.RoutingNames(rows) ensures R.ItemOf(rows, n) == R.ItemOf(others, n) {
      OrderIrrelevant(rows, others, R.ModeFor(n));
      OrderIrrelevant(rows, others, R.RateLimitNameFor(n));
      SamePicks(rows, others, R.ParameterFor(n));
    }
    assert R.ItemMap(rows) == R.ItemMap(others);
  }

  /** The item of a name that occurs in the rows is in the list. */
  lemma RoutingItemListed(rows: seq<RoutingRow>, name: string)
    requires name in R.RoutingNames(rows)
    ensures R.ItemOf(rows, name) in R.RoutingItems(rows)
    ensures forall item :: item in R.RoutingItems(rows) && item.displayName == name ==> item == R.ItemOf(rows, name)
  {
    RoutingListed(rows, name);
    hide R.ItemOf, R.RoutingItems, R.RoutingNames;
    forall item | item in R.RoutingItems(rows) && item.displayName == name ensures item == R.ItemOf(rows, name) {
      var n := RoutingNameOf(rows, item);
    }
  }

  lemma RoutingListed(rows: seq<RoutingRow>, n: string)
    requires n in R.RoutingNames(rows)
    ensures R.ItemOf(rows, n) in R.RoutingItems(rows)
  {
    ByNameHolds(R.ItemMap(rows));
    hide R.ItemOf, ByName, R.RoutingNames;
    assert R.ItemMap(rows)[n] == R.ItemOf(rows, n);
  }

  lemma RoutingNameOf(rows: seq<RoutingRow>, item: RoutingItem) returns (n: string)
    requires item in R.RoutingItems(rows)
    ensures n in R.RoutingNames(rows) && item == R.ItemOf(rows, n) && item.displayName == n
  {
    ByNameHolds(R.ItemMap(rows));
    hide ByName, R.RoutingNames;
    n :| n in R.ItemMap(rows) && R.ItemMap(rows)[n] == item;
  }
  /** Rows in any other order or multiplicity export the same policies. */
  ghost predicate RoutingOrderFree(rows: seq<RoutingRow>) {
    forall others :: SameElements(rows, others) ==> R.RoutingItems(others) == R.RoutingItems(rows)
  }

  /** The exported policies depend on the row set alone exactly when the rows agree. */
  lemma RoutingOrderExact(rows: seq<RoutingRow>)
    ensures RoutingAgree(rows) <==> RoutingOrderFree(rows)
  {
    if RoutingAgree(rows) {
      forall others | SameElements(rows, others) ensures R.RoutingItems(others) == R.RoutingItems(rows) {
        RoutingOrderIrrelevant(rows, others);
      }
    }
    if RoutingOrderFree(rows) {
      forall n: string ensures OneValue(rows, R.ModeFor(n)) && OneValue(rows, R.RateLimitNameFor(n)) {
        RoutingFreeAgrees(rows, n);
      }
    }
  }

  lemma RoutingFront(rows: seq<RoutingRow>, r: RoutingRow)
    requires RoutingOrderFree(rows) && r in rows
    ensures R.RoutingItems([r] + rows) == R.RoutingItems(rows)
  {
    hide R.RoutingItems, I.InstanceItems;
    RepeatedInFront(r, rows);
  }

  lemma RoutingFreeAgrees(rows: seq<RoutingRow>, n: string)
    requires RoutingOrderFree(rows)
    ensures OneValue(rows, R.ModeFor(n)) && OneValue(rows, R.RateLimitNameFor(n))
  {
    forall r, s | r in rows && s in rows
      ensures R.ModeFor(n)(r).Some? && R.ModeFor(n)(s).Some? ==> R.ModeFor(n)(r) == R.ModeFor(n)(s)
      ensures R.RateLimitNameFor(n)(r).Some? && R.RateLimitNameFor(n)(s).Some?
              ==> R.RateLimitNameFor(n)(r) == R.RateLimitNameFor(n)(s)
    {
      RoutingFront(rows, r);
      RoutingFront(rows, s);
      RoutingFrontDecides(rows, r, s, n);
    }
  }

  lemma RoutingFrontDecides(rows: seq<RoutingRow>, r: RoutingRow, s: RoutingRow, n: string)
    requires r in rows && s in rows
    requires R.RoutingItems([r] + rows) == R.RoutingItems([s] + rows)
    ensures R.ModeFor(n)(r).Some? && R.ModeFor(n)(s).Some? ==> R.ModeFor(n)(r) == R.ModeFor(n)(s)
    ensures R.RateLimitNameFor(n)(r).Some? && R.RateLimitNameFor(n)(s).Some?
            ==> R.RateLimitNameFor(n)(r) == R.RateLimitNameFor(n)(s)
  {
    if r.displayName == n == s.displayName {
      Seen([r] + rows, R.NameOf(), r);
      Seen([s] + rows, R.NameOf(), s);
      RoutingItemListed([r] + rows, n);
      RoutingItemListed([s] + rows, n);
      Decides(r, rows, R.ModeFor(n));
      Decides(s, rows, R.ModeFor(n));
      if r.rateLimitName.Some? && s.rateLimitName.Some? {
        Decides(r, rows, R.RateLimitNameFor(n));
        Decides(s, rows, R.RateLimitNameFor(n));
      }
    }
  }

  // ----- Indexer instances -----

  /** Rows of one instance agree on every column, and rows of one field on its value. */
  ghost predicate InstanceAgree(rows: seq<InstanceRow>, n: string) {
    && OneValue(rows, I.ColumnsFor(n))
    && OneValue(rows, I.RoutingNameFor(n))
    && OneValue(rows, I.RateLimitNameFor(n))
    && OneValue(rows, I.RssEnabledFor(n))
    && OneValue(rows, I.RssIntervalFor(n))
    && forall f: string :: OneValue(rows, I.FieldFor(n, f))
  }

  ghost predicate InstancesAgree(rows: seq<InstanceRow>) {
    forall n: string :: InstanceAgree(rows, n)
  }

  ghost predicate InstanceOrderFree(rows: seq<InstanceRow>) {
    forall others :: SameElements(rows, others) ==> I.InstanceItems(others) == I.InstanceItems(rows)
  }

  lemma SameFieldMap(rows: seq<InstanceRow>, others: seq<InstanceRow>, n: string)
    requires InstanceAgree(rows, n) && SameElements(rows, others)
    ensures I.FieldMap(rows, n) == I.FieldMap(others, n)
  {
    SamePicks(rows, others, I.FieldNameFor(n));
    forall f | f in I.FieldMap(rows, n) ensures I.FieldMap(rows, n)[f] == I.FieldMap(others, n)[f] {
      OrderIrrelevant(rows, others, I.FieldFor(n, f));
    }
  }

  lemma SameEntry(rows: seq<InstanceRow>, others: seq<InstanceRow>, n: string)
    requires InstanceAgree(rows, n) && SameElements(rows, others)
    requires n in I.InstanceNames(rows) && n in I.InstanceNames(others)
    ensures I.Entry(rows, n) == I.Entry(others, n)
  {
    OrderIrrelevant(rows, others, I.ColumnsFor(n));
    OrderIrrelevant(rows, others, I.RoutingNameFor(n));
    OrderIrrelevant(rows, others, I.RateLimitNameFor(n));
    OrderIrrelevant(rows, others, I.RssEnabledFor(n));
    OrderIrrelevant(rows, others, I.RssIntervalFor(n));
  }

  lemma SameItemOf(rows: seq<InstanceRow>, others: seq<InstanceRow>, n: string)
    requires InstanceAgree(rows, n) && SameElements(rows, others)
    requires n in I.InstanceNames(rows) && n in I.InstanceNames(others)
    ensures I.ItemOf(rows, n) == I.ItemOf(others, n)
  {
    SameEntry(rows, others, n);
    SameFieldMap(rows, others, n);
    SamePicks(rows, others, I.MediaFor(n));
    SamePicks(rows, others, I.TagFor(n));
  }

  lemma InstanceOrderIrrelevant(rows: seq<InstanceRow>, others: seq<InstanceRow>)
    requires InstancesAgree(rows) && SameElements(rows, others)
    ensures I.InstanceItems(rows) == I.InstanceItems(others)
  {
    hide I.ItemOf, ByName, Picks;
    SamePicks(rows, others, I.NameOf());
    forall n | n in I.InstanceNames(rows) ensures I.ItemOf(rows, n) == I.ItemOf(others, n) {
      assert InstanceAgree(rows, n);
      SameItemOf(rows, others, n);
    }
    assert I.ItemMap(rows) == I.ItemMap(others);
  }

  lemma InstanceItemListed(rows: seq<InstanceRow>, name: string)
    requires name in I.InstanceNames(rows)
    ensures I.ItemOf(rows, name) in I.InstanceItems(rows)
    ensures forall item :: item in I.InstanceItems(rows) && item.displayName == name ==> item == I.ItemOf(rows, name)
  {
    InstanceListed(rows, name);
    hide I.ItemOf, I.InstanceItems, I.InstanceNames;
    forall item | item in I.InstanceItems(rows) && item.displayName == name ensures item == I.ItemOf(rows, name) {
      var n := InstanceNameOf(rows, item);
    }
  }

  lemma InstanceListed(rows: seq<InstanceRow>, n: string)
    requires n in I.InstanceNames(rows)
    ensures I.ItemOf(rows, n) in I.InstanceItems(rows)
  {
    ByNameHolds(I.ItemMap(rows));
    hide I.ItemOf, ByName, I.InstanceNames;
    assert I.ItemMap(rows)[n] == I.ItemOf(rows, n);
  }

  lemma InstanceNameOf(rows: seq<InstanceRow>, item: InstanceItem) returns (n: string)
    requires item in I.InstanceItems(rows)
    ensures n in I.InstanceNames(rows) && item == I.ItemOf(rows, n) && item.displayName == n
  {
    ByNameHolds(I.ItemMap(rows));
    hide ByName, I.InstanceNames;
    n :| n in I.ItemMap(rows) && I.ItemMap(rows)[n] == item;
    I.ItemNamed(rows, n);
  }
  /** Equal field lists hold equal fields under every name. */
  lemma FieldListed(rows: seq<InstanceRow>, n: string, f: string)
    requires f in I.FieldMap(rows, n)
    ensures I.FieldMap(rows, n)[f] in ByName(I.FieldMap(rows, n))
    ensures forall item :: item in ByName(I.FieldMap(rows, n)) && item.name == f ==> item == I.FieldMap(rows, n)[f]
  {
    ByNameHolds(I.FieldMap(rows, n));
    forall g | g in I.FieldMap(rows, n) ensures I.FieldMap(rows, n)[g].name == g {
      I.HasField(rows, n, g);
      var r := FirstFrom(rows, I.FieldFor(n, g));
    }
  }

  lemma InstanceFrontDecides(rows: seq<InstanceRow>, r: InstanceRow, s: InstanceRow, n: string)
    requires r in rows && s in rows && r.displayName == n == s.displayName
    requires I.InstanceItems([r] + rows) == I.InstanceItems([s] + rows)
    ensures r.columns == s.columns
    ensures r.routingName.Some? && s.routingName.Some? ==> r.routingName == s.routingName
    ensures r.rateLimitName.Some? && s.rateLimitName.Some? ==> r.rateLimitName == s.rateLimitName
    ensures r.rssEnabled.Some? && s.rssEnabled.Some? ==> r.rssEnabled == s.rssEnabled
    ensures r.rssInterval.Some? && s.rssInterval.Some? ==> r.rssInterval == s.rssInterval
    ensures r.fieldName.Some? && s.fieldName == r.fieldName
            ==> I.FieldOf(r, r.fieldName.value) == I.FieldOf(s, r.fieldName.value)
  {
    SameItem(rows, r, s, n);
    Decides(r, rows, I.ColumnsFor(n));
    Decides(s, rows, I.ColumnsFor(n));
    if r.routingName.Some? && s.routingName.Some? {
      Decides(r, rows, I.RoutingNameFor(n));
      Decides(s, rows, I.RoutingNameFor(n));
    }
    if r.rateLimitName.Some? && s.rateLimitName.Some? {
      Decides(r, rows, I.RateLimitNameFor(n));
      Decides(s, rows, I.RateLimitNameFor(n));
    }
    if r.rssEnabled.Some? && s.rssEnabled.Some? {
      Decides(r, rows, I.RssEnabledFor(n));
      Decides(s, rows, I.RssEnabledFor(n));
    }
    if r.rssInterval.Some? && s.rssInterval.Some? {
      Decides(r, rows, I.RssIntervalFor(n));
      Decides(s, rows, I.RssIntervalFor(n));
    }
    if r.fieldName.Some? && s.fieldName == r.fieldName {
      var f := r.fieldName.value;
      FrontField(rows, r, n, f);
      FrontField(rows, s, n, f);
      FieldListed([r] + rows, n, f);
      FieldListed([s] + rows, n, f);
    }
  }

  lemma FrontField(rows: seq<InstanceRow>, r: InstanceRow, n: string, f: string)
    requires r.displayName == n && r.fieldName == Some(f)
    ensures f in I.FieldMap([r] + rows, n) && I.FieldMap([r] + rows, n)[f] == I.FieldOf(r, f)
  {
    Seen([r] + rows, I.FieldNameFor(n), r);
    Decides(r, rows, I.FieldFor(n, f));
  }

  lemma SameItem(rows: seq<InstanceRow>, r: InstanceRow, s: InstanceRow, n: string)
    requires r in rows && s in rows && r.displayName == n == s.displayName
    requires I.InstanceItems([r] + rows) == I.InstanceItems([s] + rows)
    ensures n in I.InstanceNames([r] + rows) && n in I.InstanceNames([s] + rows)
    ensures I.ItemOf([r] + rows, n) == I.ItemOf([s] + rows, n)
    ensures I.Entry([r] + rows, n) == I.Entry([s] + rows, n)
  {
    Seen([r] + rows, I.NameOf(), r);
    Seen([s] + rows, I.NameOf(), s);
    InstanceItemListed([r] + rows, n);
    InstanceItemListed([s] + rows, n);
  }

  lemma InstanceFront(rows: seq<InstanceRow>, r: InstanceRow)
    requires InstanceOrderFree(rows) && r in rows
    ensures I.InstanceItems([r] + rows) == I.InstanceItems(rows)
  {
    hide R.RoutingItems, I.InstanceItems;
    RepeatedInFront(r, rows);
  }

  lemma InstanceFreeAgrees(rows: seq<InstanceRow>, n: string)
    requires InstanceOrderFree(rows)
    ensures InstanceAgree(rows, n)
  {
    forall r, s | r in rows && s in rows && r.displayName == n == s.displayName
      ensures r.columns == s.columns
      ensures r.routingName.Some? && s.routingName.Some? ==> r.routingName == s.routingName
      ensures r.rateLimitName.Some? && s.rateLimitName.Some? ==> r.rateLimitName == s.rateLimitName
      ensures r.rssEnabled.Some? && s.rssEnabled.Some? ==> r.rssEnabled == s.rssEnabled
      ensures r.rssInterval.Some? && s.rssInterval.Some? ==> r.rssInterval == s.rssInterval
      ensures r.fieldName.Some? && s.fieldName == r.fieldName
              ==> I.FieldOf(r, r.fieldName.value) == I.FieldOf(s, r.fieldName.value)
    {
      InstanceFront(rows, r);
      InstanceFront(rows, s);
      InstanceFrontDecides(rows, r, s, n);
    }
  }

  /** The exported instances depend on the row set alone exactly when the rows agree. */
  lemma InstanceOrderExact(rows: seq<InstanceRow>)
    ensures InstancesAgree(rows) <==> InstanceOrderFree(rows)
  {
    if InstancesAgree(rows) {
      forall others | SameElements(rows, others) ensures I.InstanceItems(others) == I.InstanceItems(rows) {
        InstanceOrderIrrelevant(rows, others);
      }
    }
    if InstanceOrderFree(rows) {
      forall n: string ensures InstanceAgree(rows, n) { InstanceFreeAgrees(rows, n); }
    }
  }

  // ----- Secrets -----

  /** The secret list of one export: both loops write into one table, the instance loop second. */
  function SecretList(routing: seq<RoutingRow>, instances: seq<InstanceRow>): seq<SecretRef> {
    Listed(SecretsOf(routing, instances))
  }

  /** The instance rows give the secret one type; or they give none and the routing rows give one at most. */
  ghost predicate OneType(routing: seq<RoutingRow>, instances: seq<InstanceRow>, id: Uuid) {
    && OneValue(instances, At(I.SecretOf(), id))
    && (LastSome(instances, At(I.SecretOf(), id)).None? ==> OneValue(routing, At(R.SecretOf(), id)))
  }

  ghost predicate SecretsAgree(routing: seq<RoutingRow>, instances: seq<InstanceRow>) {
    forall id :: OneType(routing, instances, id)
  }

  ghost predicate SecretOrderFree(routing: seq<RoutingRow>, instances: seq<InstanceRow>) {
    forall ro, io :: SameElements(routing, ro) && SameElements(instances, io) ==>
      SecretList(ro, io) == SecretList(routing, instances)
  }

  lemma TypeOf(routing: seq<RoutingRow>, instances: seq<InstanceRow>, id: Uuid)
    ensures Find(SecretsOf(routing, instances), id)
         == LastSome(instances, At(I.SecretOf(), id)).Or(LastSome(routing, At(R.SecretOf(), id)))
    ensures Keyed(SecretsOf(routing, instances))
  {
    var first := Collect(map[], routing, R.SecretOf());
    CollectLast(map[], routing, R.SecretOf(), id);
    CollectLast(first, instances, I.SecretOf(), id);
    CollectKeyed(map[], routing, R.SecretOf());
    CollectKeyed(first, instances, I.SecretOf());
  }

  lemma SecretOrderIrrelevant(routing: seq<RoutingRow>, instances: seq<InstanceRow>, ro: seq<RoutingRow>,
                              io: seq<InstanceRow>)
    requires SecretsAgree(routing, instances) && SameElements(routing, ro) && SameElements(instances, io)
    ensures SecretList(ro, io) == SecretList(routing, instances)
  {
    hide SameElements, OneValue;
    forall id ensures Find(SecretsOf(routing, instances), id) == Find(SecretsOf(ro, io), id) {
      TypeOf(routing, instances, id);
      TypeOf(ro, io, id);
      assert OneType(routing, instances, id);
      OrderIrrelevant(instances, io, At(I.SecretOf(), id));
      if LastSome(instances, At(I.SecretOf(), id)).None? { OrderIrrelevant(routing, ro, At(R.SecretOf(), id)); }
    }
    TablesEqual(SecretsOf(routing, instances), SecretsOf(ro, io));
  }

  lemma RepeatedBehind<Row(!new)>(row: Row, rows: seq<Row>)
    requires row in rows
    ensures SameElements(rows, rows + [row])
  {
  }

  /** Repeating an instance row at the end gives its secret the row's type. */
  lemma InstanceTypes(routing: seq<RoutingRow>, instances: seq<InstanceRow>, r: InstanceRow, id: Uuid)
    requires SecretOrderFree(routing, instances) && r in instances && At(I.SecretOf(), id)(r).Some?
    ensures Find(SecretsOf(routing, instances), id) == At(I.SecretOf(), id)(r)
  {
    RepeatedBehind(r, instances);
    assert SecretList(routing, instances + [r]) == SecretList(routing, instances);
    TypeOf(routing, instances, id);
    TypeOf(routing, instances + [r], id);
    Decides(r, instances, At(I.SecretOf(), id));
    ListedDetermines(SecretsOf(routing, instances), SecretsOf(routing, instances + [r]), id);
  }

  lemma RoutingTypes(routing: seq<RoutingRow>, instances: seq<InstanceRow>, r: RoutingRow, id: Uuid)
    requires SecretOrderFree(routing, instances) && r in routing && At(R.SecretOf(), id)(r).Some?
    requires LastSome(instances, At(I.SecretOf(), id)).None?
    ensures Find(SecretsOf(routing, instances), id) == At(R.SecretOf(), id)(r)
  {
    RepeatedBehind(r, routing);
    assert SecretList(routing + [r], instances) == SecretList(routing, instances);
    TypeOf(routing, instances, id);
    TypeOf(routing + [r], instances, id);
    Decides(r, routing, At(R.SecretOf(), id));
    ListedDetermines(SecretsOf(routing, instances), SecretsOf(routing + [r], instances), id);
  }

  /** The exported secrets depend on the row sets alone exactly when every secret has one type among the
      instance rows or, where they leave it untyped, among the routing rows. */
  lemma SecretOrderExact(routing: seq<RoutingRow>, instances: seq<InstanceRow>)
    ensures SecretsAgree(routing, instances) <==> SecretOrderFree(routing, instances)
  {
    hide SecretList;
    if SecretsAgree(routing, instances) {
      forall ro, io | SameElements(routing, ro) && SameElements(instances, io)
        ensures SecretList(ro, io) == SecretList(routing, instances)
      {
        SecretOrderIrrelevant(routing, instances, ro, io);
      }
    }
    if SecretOrderFree(routing, instances) {
      hide SecretOrderFree;
      forall id ensures OneType(routing, instances, id) {
        forall r | r in instances && At(I.SecretOf(), id)(r).Some?
          ensures At(I.SecretOf(), id)(r) == Find(SecretsOf(routing, instances), id)
        {
          InstanceTypes(routing, instances, r, id);
        }
        if LastSome(instances, At(I.SecretOf(), id)).None? {
          forall r | r in routing && At(R.SecretOf(), id)(r).Some?
            ensures At(R.SecretOf(), id)(r) == Find(SecretsOf(routing, instances), id)
          {
            RoutingTypes(routing, instances, r, id);
          }
        }
      }
    }
  }

  // ----- The whole snapshot -----

  ghost predicate RowsAgree(rows: Rows) {
    RoutingAgree(rows.routing) && InstancesAgree(rows.instances) && SecretsAgree(rows.routing, rows.instances)
  }

  ghost predicate SameRows(rows: Rows, others: Rows) {
    && others.tags == rows.tags && others.rateLimits == rows.rateLimits
    && SameElements(rows.routing, others.routing) && SameElements(rows.instances, others.instances)
  }

  ghost predicate SnapshotOrderFree(rows: Rows) {
    forall others :: SameRows(rows, others) ==> SnapshotOf(others) == SnapshotOf(rows)
  }

  /** The snapshot depends on the sets of joined rows alone exactly when all three parts do. */
  lemma SnapshotOrderExact(rows: Rows)
    ensures SnapshotOrderFree(rows) <==> RowsAgree(rows)
  {
    hide *;
    RoutingOrderExact(rows.routing);
    InstanceOrderExact(rows.instances);
    SecretOrderExact(rows.routing, rows.instances);
    if SnapshotOrderFree(rows) { PartsFree(rows); }
    if RowsAgree(rows) { AgreeingParts(rows); SnapshotFree(rows); }
    if SnapshotOrderFree(rows) { PartsAgree(rows); }
  }

  lemma AgreeingParts(rows: Rows)
    requires RowsAgree(rows)
    ensures RoutingAgree(rows.routing) && InstancesAgree(rows.instances) && SecretsAgree(rows.routing, rows.instances)
  {
  }

  lemma PartsAgree(rows: Rows)
    requires RoutingAgree(rows.routing) && InstancesAgree(rows.instances) && SecretsAgree(rows.routing, rows.instances)
    ensures RowsAgree(rows)
  {
  }

  lemma SnapshotFree(rows: Rows)
    requires RoutingOrderFree(rows.routing) && InstanceOrderFree(rows.instances)
    requires SecretOrderFree(rows.routing, rows.instances)
    ensures SnapshotOrderFree(rows)
  {
    hide SameElements, R.RoutingItems, I.InstanceItems, Listed, Collect;
    forall others | SameRows(rows, others) ensures SnapshotOf(others) == SnapshotOf(rows) {
      assert SecretList(others.routing, others.instances) == SecretList(rows.routing, rows.instances);
    }
  }

  lemma PartsFree(rows: Rows)
    requires SnapshotOrderFree(rows)
    ensures RoutingOrderFree(rows.routing) && InstanceOrderFree(rows.instances)
    ensures SecretOrderFree(rows.routing, rows.instances)
  {
    SelfSame(rows.routing);
    SelfSame(rows.instances);
    hide SameElements, R.RoutingItems, I.InstanceItems, Listed, Collect;
    forall others | SameElements(rows.routing, others) ensures R.RoutingItems(others) == R.RoutingItems(rows.routing) {
      assert SnapshotOf(rows.(routing := others)) == SnapshotOf(rows);
    }
    forall others | SameElements(rows.instances, others)
      ensures I.InstanceItems(others) == I.InstanceItems(rows.instances)
    {
      assert SnapshotOf(rows.(instances := others)) == SnapshotOf(rows);
    }
    forall ro, io | SameElements(rows.routing, ro) && SameElements(rows.instances, io)
      ensures SecretList(ro, io) == SecretList(rows.routing, rows.instances)
    {
      assert SnapshotOf(rows.(routing := ro, instances := io)) == SnapshotOf(rows);
    }
  }

  lemma SelfSame<Row(!new)>(rows: seq<Row>)
    ensures SameElements(rows, rows)
  {
  }
}
