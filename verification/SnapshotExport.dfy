/** The exported snapshot as a whole: one document per store. */
module SnapshotExport {
  import opened Ordering
  import opened IndexerRecords
  import opened IndexerStore
  import opened SecretTable
  import opened ExportOfStore
  import R = RoutingExport
  import I = InstanceExport

  /** What the four queries return for one export. */
  datatype Rows = Rows(
    tags: seq<TagItem>, rateLimits: seq<RateLimitItem>, routing: seq<RoutingRow>, instances: seq<InstanceRow>)

  ghost predicate RowsOf(st: Store, rows: Rows) {
    && TagsListed(st, rows.tags) && RateLimitsListed(st, rows.rateLimits)
    && RoutingRowsOf(st, rows.routing) && InstanceRowsOf(st, rows.instances)
  }

  function SnapshotOf(rows: Rows): Snapshot {
    Snapshot(rows.tags, rows.rateLimits, R.RoutingItems(rows.routing), I.InstanceItems(rows.instances),
             Listed(Collect(Collect(map[], rows.routing, R.SecretOf()), rows.instances, I.SecretOf())))
  }

  /** `build_backup_snapshot`: both builders write into one secret table. */
  method BuildBackupSnapshot(rows: Rows) returns (snapshot: Snapshot)
    ensures snapshot == SnapshotOf(rows)
  {
    var routing, refs := R.BuildBackupRoutingPolicies(rows.routing, map[]);
    var instances, refs' := I.BuildBackupIndexerInstances(rows.instances, refs);
    snapshot := Snapshot(rows.tags, rows.rateLimits, routing, instances, Listed(refs'));
  }

  /** Whatever the queries return for a store, the snapshot is the export of that store. */
  lemma SnapshotExported(st: Store, rows: Rows)
    requires UniquePolicyNames(st) && UniqueInstanceNames(st) && RowsOf(st, rows)
    ensures IsExport(st, SnapshotOf(rows))
  {
    hide RoutingRowsOf, InstanceRowsOf, UniquePolicyNames, UniqueInstanceNames, TagsListed, RateLimitsListed,
      PoliciesListed, InstancesListed, SecretsListed, Listed, Collect, R.RoutingItems, I.InstanceItems;
    RoutingExported(st, rows.routing);
    InstancesExported(st, rows.instances);
    SecretsExported(st, rows.routing, rows.instances);
  }

  /** A store has one export. */
  lemma ExportUnique(st: Store, a: Snapshot, b: Snapshot)
    requires IsExport(st, a) && IsExport(st, b)
    ensures a == b
  {
    hide PolicyItem, InstanceItemIn, Referenced, RateLimitItemOf;
    BeforeAsymmetric();
    hide TagBefore, RateLimitBefore, RoutingBefore, InstanceBefore, SecretBefore;
    AscendingUnique(a.tags, b.tags, TagBefore);
    AscendingUnique(a.rateLimits, b.rateLimits, RateLimitBefore);
    AscendingUnique(a.routing, b.routing, RoutingBefore);
    AscendingUnique(a.instances, b.instances, InstanceBefore);
    AscendingUnique(a.secrets, b.secrets, SecretBefore);
  }
}
