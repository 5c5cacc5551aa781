/** When the exported instances depend on the order in which the join returns its rows. */
module JoinOrder {
  import opened Basics
  import opened RowFolds
  import opened IndexerRecords
  import opened IndexerStore
  import opened ExportJoin
  import opened ExportOrder
  import opened SnapshotExport
  import I = InstanceExport

  /** A joined row repeats its instance's columns, and pairs a field with one of its bindings. */
  ghost predicate DescribesInstance(st: Store, r: InstanceRow) {
    && r.id in st.instances
    && var inst := st.instances[r.id];
    && r.displayName == inst.displayName && r.columns == ColumnsOf(inst)
    && r.routingName == PolicyNameIn(st, inst.routingId) && r.rateLimitName == RateLimitNameIn(st, inst.rateLimitId)
    && r.rssEnabled == RssEnabledOf(inst) && r.rssInterval == RssIntervalOf(inst)
    && (r.fieldName.Some? ==> r.fieldName.value in inst.fields && DescribesField(st, inst.fields[r.fieldName.value], r))
  }

  ghost predicate DescribesField(st: Store, f: Field, r: InstanceRow) {
    && r.fieldType == Some(f.fieldType) && r.value == f.value
    && exists b :: b in Bindings(f) && r.secretId == LiveSecret(st, b)
  }

  lemma JoinedRow(st: Store, r: InstanceRow)
    requires InInstanceJoin(st, r)
    ensures DescribesInstance(st, r)
  {
    hide Joined, ColumnsOf, PolicyNameIn, RateLimitNameIn, RssEnabledOf, RssIntervalOf, Bindings;
  }

  lemma SameField(st: Store, r: InstanceRow, s: InstanceRow, f: Field)
    requires DescribesField(st, f, r) && DescribesField(st, f, s) && OneSecret(st, f)
    ensures r.fieldType == s.fieldType && r.value == s.value && r.secretId == s.secretId
  {
    hide Bindings, LiveSecret;
  }

  lemma RowsAgree(st: Store, rows: seq<InstanceRow>, n: string)
    requires UniqueInstanceNames(st) && OneSecretEach(st) && forall r :: r in rows ==> InInstanceJoin(st, r)
    ensures InstanceAgree(rows, n)
  {
    hide InInstanceJoin, DescribesField, OneSecret, ColumnsOf, PolicyNameIn, RateLimitNameIn, RssEnabledOf,
      RssIntervalOf;
    forall r, s | r in rows && s in rows && r.displayName == n == s.displayName
      ensures r.id == s.id && r.columns == s.columns && r.routingName == s.routingName
      ensures r.rateLimitName == s.rateLimitName && r.rssEnabled == s.rssEnabled && r.rssInterval == s.rssInterval
      ensures r.fieldName.Some? && r.fieldName == s.fieldName ==>
        r.fieldType == s.fieldType && r.value == s.value && r.secretId == s.secretId
    {
      JoinedRow(st, r);
      JoinedRow(st, s);
      if r.fieldName.Some? && r.fieldName == s.fieldName {
        SameField(st, r, s, st.instances[r.id].fields[r.fieldName.value]);
      }
    }
  }

  lemma BindingRow(st: Store, rows: seq<InstanceRow>, id: Uuid, f: string, b: Option<Uuid>) returns (r: InstanceRow)
    requires forall r :: r in rows <==> InInstanceJoin(st, r)
    requires id in st.instances && f in st.instances[id].fields && b in Bindings(st.instances[id].fields[f])
    ensures r in rows && I.FieldFor(st.instances[id].displayName, f)(r).Some?
    ensures I.FieldFor(st.instances[id].displayName, f)(r).value.secretId == LiveSecret(st, b)
  {
    var inst := st.instances[id];
    JoinedHolds(inst.mediaKeys);
    JoinedHolds(inst.tagKeys);
    JoinedHolds(inst.fields.Keys);
    hide Joined, Bindings;
    var m :| m in Joined(inst.mediaKeys);
    var t :| t in Joined(inst.tagKeys);
    r := InstanceJoinRow(st, id, m, t, Some(f), b);
    assert InInstanceJoin(st, r);
  }

  lemma AgreeingSecret(st: Store, rows: seq<InstanceRow>, id: Uuid, f: string)
    requires (forall r :: r in rows <==> InInstanceJoin(st, r)) && InstancesAgree(rows)
    requires id in st.instances && f in st.instances[id].fields
    ensures OneSecret(st, st.instances[id].fields[f])
  {
    var n, field := st.instances[id].displayName, st.instances[id].fields[f];
    hide Bindings, LiveSecret, InInstanceJoin;
    assert OneValue(rows, I.FieldFor(n, f)) by { assert InstanceAgree(rows, n); }
    hide InstancesAgree;
    forall b, c | b in Bindings(field) && c in Bindings(field) ensures LiveSecret(st, b) == LiveSecret(st, c) {
      var r := BindingRow(st, rows, id, f, b);
      var s := BindingRow(st, rows, id, f, c);
    }
  }

  /** Every listing of the join exports the same instances exactly when no field's bindings lead to
      different secrets. The queries order rows by instance and field only, so the rows that differ in
      the binding come in no fixed order. */
  lemma JoinOrderExact(st: Store, rows: seq<InstanceRow>)
    requires UniqueInstanceNames(st) && forall r :: r in rows <==> InInstanceJoin(st, r)
    ensures InstanceOrderFree(rows) <==> OneSecretEach(st)
  {
    InstanceOrderExact(rows);
    hide OneSecret, InInstanceJoin, InstanceAgree, InstanceOrderFree, UniqueInstanceNames;
    if InstancesAgree(rows) {
      forall id, f | id in st.instances && f in st.instances[id].fields
        ensures OneSecret(st, st.instances[id].fields[f])
      {
        AgreeingSecret(st, rows, id, f);
      }
    }
    if OneSecretEach(st) {
      forall n: string ensures InstanceAgree(rows, n) { RowsAgree(st, rows, n); }
    }
  }

  /** Listings of the same join list the same rows. */
  lemma OtherOrder(st: Store, rows: Rows, others: seq<InstanceRow>)
    requires JoinRows(st, rows) && SameElements(rows.instances, others)
    ensures JoinRows(st, rows.(instances := others))
  {
    hide InRoutingJoin, InInstanceJoin, TagsListed, RateLimitsListed;
  }

  /** Whatever the joins list, the snapshot is the export of the store, exactly when the bindings of every
      field lead to one secret. */
  lemma JoinExportsExactly(st: Store, some: Rows)
    requires UniquePolicyNames(st) && UniqueInstanceNames(st) && AllBoundNow(st) && JoinRows(st, some)
    ensures (forall rows :: JoinRows(st, rows) ==> IsExport(st, SnapshotOf(rows))) <==> OneSecretEach(st)
  {
    if OneSecretEach(st) {
      forall rows | JoinRows(st, rows) ensures IsExport(st, SnapshotOf(rows)) {
        hide *;
        JoinRowsConsistent(st, rows);
        SnapshotExported(st, rows);
      }
    } else {
      InstanceRowsListed(st, some);
      JoinOrderExact(st, some.instances);
      hide JoinRows, IsExport, UniquePolicyNames, UniqueInstanceNames, SameElements, I.InstanceItems,
        OneSecretEach;
      var others :| SameElements(some.instances, others) && I.InstanceItems(others) != I.InstanceItems(some.instances);
      var rows := some.(instances := others);
      OtherOrder(st, some, others);
      assert SnapshotOf(rows).instances != SnapshotOf(some).instances;
      NotBothExports(st, SnapshotOf(rows), SnapshotOf(some));
    }
  }

  lemma NotBothExports(st: Store, a: Snapshot, b: Snapshot)
    requires a != b
    ensures !(IsExport(st, a) && IsExport(st, b))
  {
    hide IsExport;
    if IsExport(st, a) && IsExport(st, b) { ExportUnique(st, a, b); }
  }

  lemma InstanceRowsListed(st: Store, rows: Rows)
    requires JoinRows(st, rows)
    ensures forall r :: r in rows.instances <==> InInstanceJoin(st, r)
  {
    hide InRoutingJoin, InInstanceJoin, TagsListed, RateLimitsListed;
  }
}
