# Revaer verification model

Dafny models of the parts of Revaer listed below, with proofs of what they are relied on for.
`dafny verify dfyconfig.toml` checks everything.

1. **Indexer backup** (`crates/revaer-app/src/indexers.rs`). Flattened join rows are folded into a sorted snapshot;
   a restore replays the snapshot, phase by phase, through the stored procedures. The procedures are total functions
   on an abstract store with unique names (`IndexerStore`, `StoreOperations`). Theorems quantify over every store the
   procedures can reach (`StoreInvariant`) and every row list the export joins may return for it; those rows give the
   store's own documents if and only if no field has bindings to different secrets (`JoinOrder`). A restore of an
   export succeeds if and only if the definitions, as they are at that moment, accept every instance
   (`BackupRoundTrip`). A snapshot whose names lead nowhere stops the restore at a known place, with a known error and
   known remains (`DanglingReferences`). A restore brings back the same snapshot if and only if, besides the
   definitions, no field's type has changed and the limits of instances are the default ones, which no call changes
   (`RoundTripExact`, `CallEffects`).
2. **Indexer inventory** (same file). The same rows are folded a second time, by public id, the last row of a field
   winning, with a stable sort at the end. `InventoryAgreement` and `RoutingAgreement` say exactly when both lists
   agree, `RowWinners` which row decides each column for any rows, `StoreViews` what all of them show of a store.
3. **Torrent catalog and runtime store** (`crates/revaer-app/src/orchestrator.rs`). An event-sourced map, its sorted
   listing, a store that mirrors it through writes that may fail, and filesystem processing on completion.
4. **Blocklist refresh** (same file). A one-slot HTTP cache with a 30-minute window and conditional requests, inside a
   loop in which a refresh may write the configuration and thereby cause the next refresh. Theorems range over runs
   of operator edits, refreshes and refreshes overtaken by an edit.
5. **Configuration watcher** (`crates/revaer-app/src/bootstrap.rs`) and **CIDR canonicalisation**
   (`crates/revaer-config/src/validate.rs`).
6. **Compilation database** (`crates/revaer-torrent-libt/build.rs`). A command line quoted for a shell-like reader,
   nested in a JSON string.

Loops that fold rows, restore a snapshot, update the catalog, refresh the filter, parse a list or print JSON are
methods with invariants, on classes where the original mutates fields. Each is proved equal to a specification
function, and the laws are lemmas about that function. Clock readings, server answers, write outcomes and the code of
other libraries are inputs.

## What the proofs found

- A policy or an instance whose rate limit is not listed is created before the lookup fails, and stays behind without
  it (`DanglingReferences.PolicyStops`, `DanglingReferences.InstanceStops`).
- Revoking a secret that a field is bound to makes every later export of the store unrestorable
  (`BackupFindings.RevocationBlocksRestore`).
- Importing a definition again deletes its fields while instances keep theirs, and may deprecate it. Until the fields
  are imported with fitting types, every export of a store with such an instance is unrestorable, although it is
  still written (`BackupFindings.ImportBlocksRestore`). These two kinds of call are the only ones that take a store out
  of agreement with its definitions (`RoundTripExact.StaysCurrentExactly`).
- A secret is bound under the type of its field. When the definition changes that type and the field is bound again,
  the first binding stays, the export join returns two rows for the field, and which secret the backup names depends
  on their order, which the query leaves open (`BackupFindings.ReboundFieldExports`, `JoinOrder.JoinOrderExact`).
- A restore never sends `connect_timeout_ms`, `read_timeout_ms` or `max_parallel_requests`, so a snapshot with other
  than default values does not come back (`BackupFindings.OtherLimitsLost`). No procedure sets them, so the stores
  that calls lead to are not affected (`RoundTripExact.ReachedRoundTrips`).
- The refresh loop settles if and only if the settings store gives back the refresh time and the tag as they were sent
  (`RefreshFeedback.SettlesExactly`, `RefreshFeedback.DrainsExactly`). It does not for two kinds of input
  (`RefreshFeedback.NeverSettlesExamples`). The time column is `TIMESTAMPTZ`
  (`crates/revaer-data/migrations/0007_rebaseline.sql:311`), which has microseconds, while `Utc::now()` may have
  nanoseconds. And an empty `ETag` header is cached as an empty tag but stored as none
  (`crates/revaer-data/migrations/0007_rebaseline.sql:1667`). In both cases every refresh inside the window issues
  another changeset, which wakes the next.
- A refresh writes back the whole profile it read, so an edit committed during the download is lost if the refresh
  writes (`RefreshRuns.EditSurvivesExactly`).
- With an empty cache, as after a start, a refresh reports missing state if and only if the profile remembers the tag
  of the page that is served. So no list is loaded until the page changes or the tag is dropped
  (`RefreshFeedback.RecoversExactly`, `RefreshFeedback.StarvesExactly`).
- A refused changeset leaves the profile with another tag than the cache. If the server then serves the page of that
  tag again, it answers 304 and the refresh puts the other page's rules in force
  (`RefreshRuns.RefusedChangesetMisleads`, `RefreshRuns.RefreshCurrentExactly`). A list sent without a tag is cached
  under the remembered one and misleads in the same way (`RefreshRuns.UntaggedAnswerMisleads`).
- A removal whose store write is lost comes back at the next start (`RuntimeMirror.LostRemovalReturns`).

## Model

| member | source | states |
|---|---|---|
| `RoutingExport.BuildBackupRoutingPolicies` | crates/revaer-app/src/indexers.rs:4500-4572 | the row loop yields, per display name in order, the first-wins columns and the sorted set of parameters, and collects the typed secrets |
| `InstanceExport.BuildBackupIndexerInstances` | crates/revaer-app/src/indexers.rs:4574-4607 | the row loop and the three fill-in loops yield, per display name in order, first-wins columns, key sets and first-wins fields, and collect the typed secrets |
| `InstanceExport.EntriesSnoc` | crates/revaer-app/src/indexers.rs:4609-4647 | one more row keeps every entry equal to the first value of each of its columns |
| `InstanceExport.FieldsSnoc` | crates/revaer-app/src/indexers.rs:4673-4707 | one more row keeps every field map first-wins |
| `SecretTable.CollectLast` | crates/revaer-app/src/indexers.rs:4673-4707 | under every id the shared secret table holds what the last row that types it says, or else what it held before |
| `SnapshotExport.BuildBackupSnapshot` | crates/revaer-app/src/indexers.rs:4192-4226 | both builders write one secret table; the snapshot is the function of the rows that the theorems speak of |
| `ExportOrder.RoutingShape` | crates/revaer-app/src/indexers.rs:4566-4572 | exported policies are strictly sorted by name; the parameters of each are exactly those its rows give, sorted by the full tuple without repetition |
| `ExportOrder.InstanceShape` | crates/revaer-app/src/indexers.rs:4602-4607 | exported instances, keys and fields are strictly sorted |
| `ExportOrder.RoutingOrderExact` | crates/revaer-app/src/indexers.rs:4500-4572 | reordering or repeating rows never changes the exported policies if and only if every column of a policy has one value |
| `ExportOrder.InstanceOrderExact` | crates/revaer-app/src/indexers.rs:4574-4707 | the same for instances, field by field |
| `ExportOrder.SecretOrderExact` | crates/revaer-app/src/indexers.rs:4192-4226 | the secret list depends on the two row sets alone if and only if every secret has one type among the instance rows or, where they leave it untyped, among the routing rows |
| `ExportOrder.SnapshotOrderExact` | crates/revaer-app/src/indexers.rs:4192-4226 | the whole snapshot depends on the row sets alone if and only if policies, instances and secrets do |
| `ExportOfStore.RoutingExported` | crates/revaer-app/src/indexers.rs:4500-4572 | from any rows describing a store, exactly one document per policy, with its name, mode, limit and parameters |
| `ExportOfStore.InstancesExported` | crates/revaer-app/src/indexers.rs:4574-4707 | from any rows describing a store, exactly one document per instance |
| `ExportOfStore.SecretsExported` | crates/revaer-app/src/indexers.rs:4192-4226 | the secret list is exactly the live secrets that parameters or fields are bound to, with their types |
| `ExportJoin.RoutingJoinConsistent` | crates/revaer-data/migrations/0108_indexer_backup_export_proc_casts.sql:138-189 | any listing of the routing join describes the store in the sense of the export theorems |
| `ExportJoin.InstanceJoinConsistent` | crates/revaer-data/migrations/0108_indexer_backup_export_proc_casts.sql:213-312 | any listing of the instance join, a product of domains, tags and fields with their bindings, does too while the bindings of every field lead to one secret |
| `JoinOrder.JoinOrderExact` | crates/revaer-data/migrations/0108_indexer_backup_export_proc_casts.sql:270-312 | every listing of the instance join exports the same instances if and only if no field's bindings lead to different secrets |
| `SnapshotExport.SnapshotExported` | crates/revaer-app/src/indexers.rs:1977-2030 | from any rows that describe a store, the snapshot is the export of that store |
| `JoinOrder.JoinExportsExactly` | crates/revaer-data/migrations/0108_indexer_backup_export_proc_casts.sql:138-312 | whatever the joins list for a store, the snapshot is its export if and only if the bindings of every field lead to one secret |
| `SnapshotExport.ExportUnique` | crates/revaer-app/src/indexers.rs:1977-2030 | a store has one export |
| `StoreViews.ExportShows` | crates/revaer-app/src/indexers.rs:4192-4226 | an export of a store names exactly what is live, read off the store itself: limits with their values, policies with mode, live limit and parameters, instances with status texts, live policy and limit, keys and fields |
| `RowWinners.ExportTakesFirst` | crates/revaer-app/src/indexers.rs:4609-4647 | for any rows, each column of an exported instance is that of the first row of its name that has a value |
| `RowWinners.ExportTakesNone` | crates/revaer-app/src/indexers.rs:4609-4647 | a column that no row of the name fills stays empty |
| `RowWinners.ExportTakesFirstField` | crates/revaer-app/src/indexers.rs:4673-4707 | each exported field is that of the first row of the name that mentions it |
| `RowWinners.ExportMentions` | crates/revaer-app/src/indexers.rs:4649-4707 | the keys and fields of an exported instance are exactly those that rows of its name mention |
| `RowWinners.DocumentTakesFirst` | crates/revaer-app/src/indexers.rs:4514-4548 | for any rows, mode and rate limit of an exported policy are those of the first row of its name that has them |
| `RowWinners.InstanceRowDecides` | crates/revaer-app/src/indexers.rs:4681-4692 | a secret is listed under the type that the last instance row that types it gives |
| `RowWinners.PolicyRowDecides` | crates/revaer-app/src/indexers.rs:4523-4534 | or, when no instance row types it, the last policy row |
| `RowWinners.SecretsTyped` | crates/revaer-app/src/indexers.rs:4192-4226 | no other secret is listed |
| `IndexerRecords.ParameterBeforeExactly` | crates/revaer-app/src/indexers.rs:4504-4545 | exported parameters are ordered by key, secret, text, number and flag in turn, absent before present |
| `Ordering.StrLessExactly` | crates/revaer-app/src/indexers.rs:4262-4264 | a name comes before another if and only if it is a proper prefix of it or has the smaller code point where they first differ |
| `StoreInvariant.CreatePolicyKept` | crates/revaer-data/migrations/0035_indexer_routing_policy_procs.sql:3-162 | creating a policy keeps names unique and inserts the parameters its mode requires |
| `StoreInvariant.ParamKept` | crates/revaer-data/migrations/0035_indexer_routing_policy_procs.sql:177-468 | setting a parameter keeps every row of the policy well-formed for its mode |
| `StoreInvariant.BindKept` | crates/revaer-data/migrations/0035_indexer_routing_policy_procs.sql:493-678 | binding a secret keeps every row well-formed |
| `StoreInvariant.CreateLimitKept` | crates/revaer-data/migrations/0037_indexer_rate_limit_procs.sql:3-151 | creating a rate limit keeps names unique, deleted ones included, and values in range |
| `StoreInvariant.UpdateLimitKept` | crates/revaer-data/migrations/0037_indexer_rate_limit_procs.sql:174-322 | renaming or changing a rate limit does too; a deleted one can still be renamed |
| `StoreInvariant.DeleteLimitKept` | crates/revaer-data/migrations/0037_indexer_rate_limit_procs.sql:347-451 | deleting a rate limit leaves no reference to it |
| `StoreInvariant.PolicyLinkKept` | crates/revaer-data/migrations/0037_indexer_rate_limit_procs.sql:609-731 | linking or unlinking a policy's rate limit keeps references live |
| `StoreInvariant.TagCallKept` | crates/revaer-data/migrations/0069_indexer_proc_error_codes.sql:905-1190 | creating, renaming and deleting tags keeps the invariant |
| `StoreInvariant.SecretCallKept` | crates/revaer-data/migrations/0058_indexer_secret_procs.sql:266-342 | creating and revoking secrets keeps the invariant; bindings to a revoked secret stay |
| `StoreInvariant.DefinitionCallKept` | crates/revaer-data/migrations/0113_cardigann_definition_import.sql:18-319 | importing a definition again deletes its fields and may deprecate it; instances keep the fields they have, and the invariant holds |
| `StoreInvariant.CreateInstanceKept` | crates/revaer-data/migrations/0098_indexer_instance_create_slug_key.sql:21-282 | creating an instance, refused for a deprecated definition, keeps names unique and its references live |
| `StoreInvariant.UpdateKept` | crates/revaer-data/migrations/0069_indexer_proc_error_codes.sql:253-557 | updating an instance, its name included, keeps names unique, references live and an enabled subscription on an enabled instance |
| `StoreInvariant.SetFieldKept` | crates/revaer-data/migrations/0038_indexer_instance_procs.sql:1311-1815 | setting a value keeps every field holding a value or a secret as its own type asks, never both |
| `StoreInvariant.BindFieldKept` | crates/revaer-data/migrations/0038_indexer_instance_procs.sql:1842-2074 | binding a secret does too, and replaces only the binding made under the same type |
| `StoreInvariant.LinkCallKept` | crates/revaer-data/migrations/0069_indexer_proc_error_codes.sql:559-705 | linking media domains, and linking or unlinking a rate limit, keeps the invariant |
| `StoreInvariant.SetTagsKept` | crates/revaer-data/migrations/0069_indexer_proc_error_codes.sql:707-903 | linking tags keeps the invariant |
| `StoreInvariant.SetRssKept` | crates/revaer-data/migrations/0038_indexer_instance_procs.sql:613-784 | setting the subscription keeps the interval in range and an enabled subscription on an enabled instance |
| `StoreInvariant.DisableRssKept` | crates/revaer-data/migrations/0038_indexer_instance_procs.sql:805-912 | disabling the subscription keeps the invariant |
| `StoreInvariant.CallKeepsStore` | crates/revaer-data/migrations/0038_indexer_instance_procs.sql:3-2093 | every modelled procedure on tags, limits, policies, instances, fields, subscriptions, secrets and definitions, accepted or refused, keeps the store invariant |
| `StoreInvariant.RunKeepsStore` | crates/revaer-app/src/indexers.rs:200-528 | so it holds after any run of calls |
| `CallEffects.RunKeepsLimits` | crates/revaer-data/migrations/0014_indexer_instances.sql:117-122 | no run of calls changes the timeouts and the parallelism that the table gives a new instance |
| `SnapshotRestore.TagsRestored` | crates/revaer-app/src/indexers.rs:200-213 | the tag phase creates every tag once and counts them |
| `SnapshotRestore.TagsStop` | crates/revaer-app/src/indexers.rs:200-213 | the first tag whose key is in use, by the store, a deleted tag or an earlier tag, stops the restore with `tag_key_already_exists`; the tags before it stay |
| `SnapshotRestore.LimitsRestored` | crates/revaer-app/src/indexers.rs:215-254 | the limit phase creates the non-system limits, finds the system ones by name, and its table names exactly the listed limits |
| `SnapshotRestore.NonSystemCounted` | crates/revaer-app/src/indexers.rs:231-251 | the count of created limits is the number of listed limits that are not system limits |
| `PolicyRestore.ParametersRestored` | crates/revaer-app/src/indexers.rs:313-359 | every parameter is set, bound, or left open and reported when its secret is absent |
| `PolicyRestore.PolicyRestored` | crates/revaer-app/src/indexers.rs:256-311 | one policy is created with its limit and its parameters over the defaults |
| `PolicyRestore.NewPolicyItem` | crates/revaer-app/src/indexers.rs:256-359 | the created policy exports as the item it came from, open bindings blanked |
| `PolicyRestore.PoliciesRestored` | crates/revaer-app/src/indexers.rs:256-311 | the whole policy phase succeeds, in order, with the right table and report |
| `FieldRestore.FieldsRestored` | crates/revaer-app/src/indexers.rs:483-528 | fields are set, bound or reported under the types their definition has now; the phase fails exactly at the first field the definition refuses, with its error |
| `FieldRestore.FieldsListed` | crates/revaer-app/src/indexers.rs:483-528 | the fields that remain export in order, under the types their definition has now |
| `InstanceRestore.InstanceCreated` | crates/revaer-app/src/indexers.rs:361-406 | creation followed by update gives the flags, priority and policy of the item |
| `InstanceRestore.InstanceLinked` | crates/revaer-app/src/indexers.rs:440-481 | rate limit, media domains and tags are linked |
| `InstanceRestore.InstanceRestored` | crates/revaer-app/src/indexers.rs:361-438 | one instance is restored completely, or fails with the error of its deprecated definition or of its first refused field |
| `InstanceRestore.NewInstanceItem` | crates/revaer-app/src/indexers.rs:361-528 | the created instance exports as the item it came from, but for dropped fields and default limits |
| `InstanceRestore.InstancesRestored` | crates/revaer-app/src/indexers.rs:361-438 | the whole instance phase, both outcomes |
| `RoundTrip.SnapshotRestored` | crates/revaer-app/src/indexers.rs:2032-2071 | a well-formed snapshot restores completely with the stated counts and report, or fails with the first refusal of a definition |
| `DanglingReferences.ReferenceErrorExactly` | crates/revaer-app/src/indexers.rs:215-481 | a restore of a snapshot that is well-formed but for its references fails on a reference if and only if the target lacks a listed system limit, a policy names an unlisted limit, or an instance names an unlisted limit or policy before any definition refuses one; which of the two codes it is |
| `DanglingReferences.SystemLookup` | crates/revaer-app/src/indexers.rs:220-241 | a listed system limit is looked up by name among the system limits of the target alone |
| `DanglingReferences.AbsentLimitStops` | crates/revaer-app/src/indexers.rs:231-241 | the first system limit that the target lacks stops the restore with `rate_limit_reference_missing`; tags and the limits before it stay, no policy or instance is made |
| `DanglingReferences.PolicyStops` | crates/revaer-app/src/indexers.rs:272-291 | the first policy that names an unlisted limit stops the restore with that code; it stays behind bare, beside all that the snapshot up to it restores |
| `DanglingReferences.InstanceStops` | crates/revaer-app/src/indexers.rs:374-481 | the first instance at fault stops the restore, the store is what the snapshot up to it restores: an unlisted policy gives `routing_policy_reference_missing` before anything is created, then a deprecated definition, then an unlisted limit, which leaves the instance created but not linked, then a refused field |
| `DanglingReferences.MissingLimitExample` | crates/revaer-app/src/indexers/tests/indexers_large_tests.rs:2612-2634 | one policy that names a missing limit fails with `rate_limit_reference_missing` |
| `RestoreRefusals.LimitRefused` | crates/revaer-app/src/indexers.rs:242-250 | a refused rate limit stops the restore with its error, behind the limits before it |
| `RestoreRefusals.PolicyRefused` | crates/revaer-app/src/indexers.rs:274-279 | so does a refused policy |
| `RestoreRefusals.ParameterRefused` | crates/revaer-app/src/indexers.rs:321-358 | a parameter is sent as a value if it has one, then bound if it has a secret; the first refusal decides, but a missing secret is only reported |
| `RestoreRefusals.InstanceRefused` | crates/revaer-app/src/indexers.rs:385-396 | a refused instance stops the restore behind the instances before it |
| `RestoreRefusals.LinksRefused` | crates/revaer-app/src/indexers.rs:461-481 | media domains, then tags are sent unless empty; an unknown key stops the restore behind what was sent |
| `RestoreRefusals.FieldStops` | crates/revaer-app/src/indexers.rs:489-527 | a field without a secret is sent as a value, one with a secret is only bound; a missing secret is reported, any other refusal stops the restore |
| `RestoreRefusals.SubscriptionRefused` | crates/revaer-app/src/indexers.rs:423-435 | the subscription is sent last, if there is one |
| `ProcedureTables.ParameterExactly` | crates/revaer-data/migrations/0035_indexer_routing_policy_procs.sql:257-468 | the parameters that a restore accepts for a policy, key by key and range by range, for each mode |
| `ProcedureTables.ShapeRestores` | crates/revaer-app/src/indexers.rs:313-359 | each of them is recreated in a new policy, with its secret unless that is absent, which is reported |
| `ProcedureTables.PolicyRefusals` | crates/revaer-data/migrations/0035_indexer_routing_policy_procs.sql:67-93 | which policies are refused, and why |
| `ProcedureTables.ParameterAccepted` | crates/revaer-data/migrations/0035_indexer_routing_policy_procs.sql:257-468 | a parameter value is stored if and only if a policy of the mode can hold it |
| `ProcedureTables.ParameterRefusals` | crates/revaer-data/migrations/0035_indexer_routing_policy_procs.sql:257-410 | which values are refused as not allowed, as secret, and as out of range |
| `ProcedureTables.BindRefusals` | crates/revaer-data/migrations/0035_indexer_routing_policy_procs.sql:493-678 | secrets are bound to proxy credentials only |
| `ProcedureTables.FieldExactly` | crates/revaer-data/migrations/0038_indexer_instance_procs.sql:1311-1815 | the value each type of field takes, type by type |
| `ProcedureTables.FieldRefusals` | crates/revaer-data/migrations/0038_indexer_instance_procs.sql:1311-2074 | which refusal the present type of a field leads to |
| `ProcedureTables.LimitRefusals` | crates/revaer-data/migrations/0037_indexer_rate_limit_procs.sql:78-108 | a rate limit is created if and only if its values are within the ranges and no live or deleted limit has its name |
| `ProcedureTables.SubscriptionRefusals` | crates/revaer-data/migrations/0038_indexer_instance_procs.sql:694-710 | a subscription takes five minutes to a day, and is enabled only with the instance and its RSS |
| `ProcedureTables.InstanceRefusals` | crates/revaer-data/migrations/0098_indexer_instance_create_slug_key.sql:95-195 | why an instance is refused, in the order of the checks |
| `ProcedureTables.UpdateEffects` | crates/revaer-data/migrations/0069_indexer_proc_error_codes.sql:366-525 | an update replaces what it is given, keeps the rest, and turns the subscription off with the instance or its RSS |
| `ProcedureTables.SetValueEffects` | crates/revaer-data/migrations/0038_indexer_instance_procs.sql:1311-1815 | a value takes the place of the value of its field and of nothing else |
| `ProcedureTables.BindEffects` | crates/revaer-data/migrations/0038_indexer_instance_procs.sql:1842-2074 | a binding takes the present type of its field and no value; a binding made under another type stays |
| `ProcedureTables.DeleteEffects` | crates/revaer-data/migrations/0037_indexer_rate_limit_procs.sql:347-451 | a limit is deleted only while nothing refers to it; a deleted limit or tag keeps its name taken |
| `BackupService.IndexerService.RestoreBackupTags` | crates/revaer-app/src/indexers.rs:200-213 | the loop of calls changes the database as the tag phase says |
| `BackupService.IndexerService.RestoreBackupRateLimits` | crates/revaer-app/src/indexers.rs:215-254 | as the limit phase says, system ids taken from the listing |
| `BackupService.IndexerService.RestoreBackupRoutingPolicies` | crates/revaer-app/src/indexers.rs:256-311 | as the policy phase says; with `DanglingReferences.PolicyStops`, a name that is not in the table is an error |
| `BackupService.IndexerService.RestoreBackupRoutingParameter` | crates/revaer-app/src/indexers.rs:313-359 | a bound parameter binds, an absent secret is reported, a plain one is set |
| `BackupService.IndexerService.RestoreBackupIndexerInstances` | crates/revaer-app/src/indexers.rs:361-438 | as the instance phase says |
| `BackupService.IndexerService.RestoreBackupIndexerInstanceLinks` | crates/revaer-app/src/indexers.rs:440-481 | as the link step says, empty lists not sent |
| `BackupService.IndexerService.RestoreBackupIndexerInstanceFields` | crates/revaer-app/src/indexers.rs:483-528 | as the field step says |
| `BackupService.IndexerService.IndexerBackupRestore` | crates/revaer-app/src/indexers.rs:2032-2071 | the service's run over the database ends in the store, response or error that the restore prescribes, partial effects included |
| `BackupRoundTrip.ExportRestorable` | crates/revaer-app/src/indexers.rs:4751-4759 | every name an export refers to is exported too, and every item is one that the procedures accept unless its definition refuses it |
| `BackupRoundTrip.ExportRestores` | crates/revaer-app/src/indexers.rs:200-528 | restoring an export succeeds if and only if no instance is of a deprecated definition, every field fits the type its definition has now, and no secret field is without a live secret; it never fails on a reference |
| `BackupRoundTrip.ExportRebuilt` | crates/revaer-app/src/indexers.rs:200-528 | with all secrets shared, the restored store exports the same documents, with default limits and fields under the types their definition has now |
| `BackupRoundTrip.BackupRoundTrips` | crates/revaer-app/src/indexers.rs:1977-2071 | export, restore, export: the second snapshot is the first with default limits and present field types |
| `RoundTripExact.RoundTripExactly` | crates/revaer-app/src/indexers.rs:1977-2071 | whatever the joins list, the snapshot is the store's export, restores, and is what the restored store exports, if and only if every instance agrees with its definition as it is now, secrets included, every instance has the default limits, and the bindings of every field lead to one secret |
| `RoundTripExact.ReachedRoundTrips` | crates/revaer-app/src/indexers.rs:1977-2071 | for every store that calls lead to from default limits, the first and the last condition decide |
| `RoundTripExact.SecondSnapshot` | crates/revaer-app/src/indexers.rs:1977-2071 | where that holds, any listing of the restored store's joins gives the first snapshot again |
| `RoundTripExact.StaysCurrentExactly` | crates/revaer-data/migrations/0113_cardigann_definition_import.sql:98-133 | a store in agreement with its definitions stays so under every call, except exactly a revocation of a bound secret and an import that deprecates the definition of an instance or empties the one of an instance with fields |
| `RoundTripExact.BindsOnceExactly` | crates/revaer-data/migrations/0038_indexer_instance_procs.sql:1981-2040 | binding a field again leaves two bindings if and only if the first was made under another type |
| `RoundTripExact.BuiltRoundTrips` | crates/revaer-app/src/indexers.rs:1977-2071 | a store built by other calls from one without instances round-trips exactly, whatever the joins list on either side |
| `BackupFindings.RevocationBlocksRestore` | crates/revaer-app/src/indexers.rs:483-528 | revoking a bound secret makes every later export unrestorable, with `field_requires_secret` |
| `BackupFindings.ImportBlocksRestore` | crates/revaer-data/migrations/0113_cardigann_definition_import.sql:104-133 | so does importing again the definition of an instance with fields, or deprecating it, though no secret is lost |
| `BackupFindings.LostFieldExample` | crates/revaer-app/src/indexers.rs:483-528 | a concrete valid store, the item it exports, and its rejection |
| `BackupFindings.OtherLimitsLost` | crates/revaer-app/src/indexers.rs:383-406 | a snapshot with other limits restores, but nothing the restored store exports is that snapshot |
| `BackupFindings.LimitsExample` | crates/revaer-app/src/indexers.rs:383-406 | a concrete such snapshot, its limits within the ranges of the table |
| `BackupFindings.ReboundFieldExports` | crates/revaer-data/migrations/0108_indexer_backup_export_proc_casts.sql:299-312 | after a field is bound again under another type, the secret its export names depends on the order of the joined rows |
| `BackupFindings.UnresolvedExactly` | crates/revaer-app/src/indexers.rs:313-359 | the report lists exactly the bindings whose secret the target lacks |
| `InstanceInventory.BuildIndexerInstanceInventory` | crates/revaer-app/src/indexers.rs:4267-4302 | the loops keyed by id yield first-wins columns and last-wins fields, stably sorted by name; `RowWinners` and `StoreViews` say column by column which rows and which parts of the store these are |
| `InstanceInventory.EntriesSnoc` | crates/revaer-app/src/indexers.rs:4397-4449 | one more row keeps every entry equal to the first value of each column, which `RowWinners.InventoryTakesFirst` reads off the rows |
| `InstanceInventory.FieldsSnoc` | crates/revaer-app/src/indexers.rs:4475-4498 | one more row keeps every field map last-wins |
| `RowWinners.InventoryTakesFirst` | crates/revaer-app/src/indexers.rs:4397-4449 | for any rows, each column of an inventory entry, the ids of policy and limit among them, is that of the first row of its id that has a value |
| `RowWinners.InventoryTakesNone` | crates/revaer-app/src/indexers.rs:4397-4449 | a column that no row of the id fills stays empty |
| `RowWinners.InventoryTakesLastField` | crates/revaer-app/src/indexers.rs:4475-4498 | each field is that of the last row of the id that mentions it |
| `RowWinners.InventoryInOrder` | crates/revaer-app/src/indexers.rs:4299-4302 | for any rows, the inventory is sorted by name and, under one name, by id |
| `StoreViews.InstancesInventoried` | crates/revaer-app/src/indexers.rs:4267-4302 | from any rows describing a store with unique names, exactly one entry per live instance: its own id, its columns, the id and name of its policy and limit where these are live and none otherwise, its keys and its fields with their live secrets |
| `InventoryAgreement.AggregationsAgreeExactly` | crates/revaer-app/src/indexers.rs:4267-4302 | with ids and names one to one, backup list and projected inventory are equal, in order, if and only if no field changes between its first and last row |
| `InventoryAgreement.StoreAggregationsAgree` | crates/revaer-app/src/indexers.rs:4574-4607 | on the rows of a store with unique names they always agree |
| `KeyedLists.SameListExactly` | crates/revaer-app/src/indexers.rs:4262-4265 | a list keyed by name and one keyed by id and stably sorted by name are equal if and only if they hold the same under every name |
| `RoutingInventory.BuildRoutingPolicyInventory` | crates/revaer-app/src/indexers.rs:4228-4265 | the loop keyed by id yields first-wins columns and the number of rows with a parameter and with a secret, stably sorted by name |
| `RowWinners.ListingTakesFirst` | crates/revaer-app/src/indexers.rs:4228-4261 | for any rows, name, mode, limit id and limit name of an entry are those of the first row of its id that has them |
| `RowWinners.ListingInOrder` | crates/revaer-app/src/indexers.rs:4262-4265 | for any rows, the list is sorted by name and, under one name, by id |
| `StoreViews.PoliciesInventoried` | crates/revaer-app/src/indexers.rs:4228-4265 | from the routing join of a store, exactly one entry per live policy: its own id, name and mode, the id and name of its limit while that is live, and how many parameters and live bindings it has |
| `RoutingAgreement.CountsAgreeExactly` | crates/revaer-app/src/indexers.rs:4228-4265 | inventory and backup show the same policies with the same parameter counts, in order, if and only if no parameter of a policy occurs in two rows |
| `RoutingAgreement.StoreCounts` | crates/revaer-app/src/indexers.rs:4246-4251 | on the join of a store the counts are those of its parameters and of its live secret bindings |
| `Catalog.TorrentCatalog.Seed` | crates/revaer-app/src/orchestrator.rs:887-893 | the catalog becomes the last status of each id, stored under that id |
| `Catalog.SeededLast` | crates/revaer-app/src/orchestrator.rs:887-893 | of several statuses of one id the last is kept |
| `Catalog.TorrentCatalog.Observe` | crates/revaer-app/src/orchestrator.rs:895-902 | an event changes the entry of its torrent as specified and no other; empty discoveries change nothing |
| `Catalog.TorrentCatalog.ApplyEvent` | crates/revaer-app/src/orchestrator.rs:954-1026 | every event kind dispatches to its effect |
| `Catalog.TorrentCatalog.RecordTorrentAdded` | crates/revaer-app/src/orchestrator.rs:1028-1045 | admission resets name, state, progress, rates, path, comment, source, privacy and times, and nothing else |
| `Catalog.TorrentCatalog.RecordMetadata` | crates/revaer-app/src/orchestrator.rs:1047-1073 | only the given metadata fields change |
| `Catalog.TorrentCatalog.RecordFilesDiscovered` | crates/revaer-app/src/orchestrator.rs:1075-1083 | the file list is replaced; `CatalogRuns.LatestDiscovery` says by what |
| `Catalog.TorrentCatalog.RecordProgress` | crates/revaer-app/src/orchestrator.rs:1085-1102 | progress and rates are replaced, a non-finite ratio by zero |
| `Catalog.TorrentCatalog.RecordCompletion` | crates/revaer-app/src/orchestrator.rs:1114-1125 | state, path and completion time are set together |
| `Catalog.TorrentCatalog.RecordFsopsFailure` | crates/revaer-app/src/orchestrator.rs:1127-1137 | the state becomes failed with the message |
| `Catalog.TorrentCatalog.EnsureEntry` | crates/revaer-app/src/orchestrator.rs:1144-1151 | an absent entry is created blank, a present one is left |
| `Catalog.TorrentCatalog.List` | crates/revaer-app/src/orchestrator.rs:904-911 | whatever order the hash map is read in, the result lists every entry once, strictly sorted |
| `Catalog.CompareStatusMirrors` | crates/revaer-app/src/orchestrator.rs:938-952 | the comparison is antisymmetric and equal only on equal ids and names |
| `Catalog.CompareStatusTransitive` | crates/revaer-app/src/orchestrator.rs:938-952 | it is transitive, strictly when either side is strict |
| `Catalog.ListingUnique` | crates/revaer-app/src/orchestrator.rs:904-911 | there is only one sorted listing |
| `Catalog.ListedInOrder` | crates/revaer-app/src/orchestrator.rs:904-952 | in a listing, named torrents come before unnamed ones, names ascend by code point, and ids break ties |
| `Catalog.SeededFromRows` | crates/revaer-app/src/orchestrator.rs:887-893 | seeding from the rows of a map, in any order, rebuilds the map |
| `CatalogRuns.StepExactly` | crates/revaer-app/src/orchestrator.rs:895-902 | the per-torrent description determines the next catalog |
| `CatalogRuns.TraceProjection` | crates/revaer-app/src/orchestrator.rs:954-1151 | over any trace, a torrent's entry is the fold of its own events alone |
| `CatalogRuns.InterleavingIrrelevant` | crates/revaer-app/src/orchestrator.rs:954-1151 | traces that agree torrent by torrent end in the same catalog |
| `CatalogRuns.EventsCommute` | crates/revaer-app/src/orchestrator.rs:954-1026 | adjacent events of different torrents commute |
| `CatalogRuns.PresentExactly` | crates/revaer-app/src/orchestrator.rs:954-1026 | an entry is present if and only if seeded or created with no removal since |
| `CatalogRuns.LastWriteWins` | crates/revaer-app/src/orchestrator.rs:954-1151 | over any run the last event that writes a field decides it |
| `CatalogRuns.FieldsDecided` | crates/revaer-app/src/orchestrator.rs:1028-1125 | which events decide name, files, library path and completion time; what a discovery lists is in `CatalogRuns.LatestDiscovery` |
| `CatalogRuns.DetailsDecided` | crates/revaer-app/src/orchestrator.rs:1028-1137 | which events decide state, progress, rates, directory, comment, source and privacy |
| `CatalogRuns.LatestDiscovery` | crates/revaer-app/src/orchestrator.rs:1159-1177 | over any run, from the last discovery since the last removal on, the torrent lists every discovered file in order, with its path and size, nothing completed, of normal priority, selected, and with an index capped at 2^32 - 1 |
| `CatalogRuns.UpdateDecided` | crates/revaer-app/src/orchestrator.rs:954-1151 | which events stamp the time of the last update and decide presence with it; no event sets the sequential flag |
| `CatalogRuns.AddedAtDecided` | crates/revaer-app/src/orchestrator.rs:1028-1045 | until the next admission or removal, a torrent counts as added when it was last admitted, or else when its entry was created |
| `CatalogRuns.FiniteExactly` | crates/revaer-app/src/orchestrator.rs:1095-1100 | a ratio is finite if and only if its bits, the sign aside, are below those of infinity |
| `CatalogRuns.RunKeeps` | crates/revaer-app/src/orchestrator.rs:1028-1125 | every run keeps ids as keys, a completion time beside every library path, and ratios finite |
| `RuntimeMirror.RowsAreSnapshots` | crates/revaer-app/src/orchestrator.rs:216-246 | a stored row is the catalog entry as of the last write for it that took effect |
| `RuntimeMirror.MirrorAgrees` | crates/revaer-app/src/orchestrator.rs:207-246 | after any failures, store and catalog agree on every torrent whose last write was acknowledged, and are both untouched where none was tried |
| `RuntimeMirror.AttemptsExactly` | crates/revaer-app/src/orchestrator.rs:216-246 | a write is tried for every event about a torrent that is present after it, and for every removal |
| `RuntimeMirror.CatalogIgnoresWrites` | crates/revaer-app/src/orchestrator.rs:216-246 | failing writes never disturb the catalog |
| `RuntimeMirror.ReseedingRebuilds` | crates/revaer-app/src/orchestrator.rs:769-778 | without failures, seeding from the stored rows rebuilds the catalog |
| `Orchestrator.TorrentOrchestrator.Hydrate` | crates/revaer-app/src/orchestrator.rs:769-778 | at start any listing of the stored rows makes the catalog equal to them; an error leaves it as it is |
| `RuntimeMirror.LostRemovalReturns` | crates/revaer-app/src/orchestrator.rs:225-233 | a lost removal brings the torrent back at the next start |
| `Orchestrator.TorrentOrchestrator.ApplyFsops` | crates/revaer-app/src/orchestrator.rs:174-199 | missing state exactly without an entry or path; otherwise one job on that path under the current policy |
| `Orchestrator.TorrentOrchestrator.PersistRuntime` | crates/revaer-app/src/orchestrator.rs:216-246 | which row a write touches and when none is tried |
| `Orchestrator.TorrentOrchestrator.HandleEvent` | crates/revaer-app/src/orchestrator.rs:207-214 | catalog, store and jobs after one event; a completion is processed on its own path and no event reports missing state |
| `Orchestrator.TorrentOrchestrator.PostProcess` | crates/revaer-app/src/orchestrator.rs:249-262 | over a stream, up to its first break, every completion is processed once, in order, errors or not |
| `Orchestrator.WorkerRunsMirror` | crates/revaer-app/src/orchestrator.rs:249-262 | the worker's runs are the runs of the mirror theorems |
| `Orchestrator.WorkerRunsCatalog` | crates/revaer-app/src/orchestrator.rs:207-214 | with or without a store, the catalog follows the events |
| `Orchestrator.ReceivedExactly` | crates/revaer-app/src/orchestrator.rs:249-262 | everything before the first break of the stream is handled, and nothing after it |
| `Orchestrator.JobsExactly` | crates/revaer-app/src/orchestrator.rs:207-214 | a completion asks for one job, on its own torrent and path, where it stands; no other event does |
| `FirstSeen.FirstPositions` | crates/revaer-app/src/orchestrator.rs:703-721 | what a seen-set scan keeps is exactly the first item of each key, in order |
| `FirstSeen.FirstsCounted` | crates/revaer-app/src/orchestrator.rs:659-694 | it keeps one item per distinct key |
| `BlocklistRules.MergeRules` | crates/revaer-app/src/orchestrator.rs:703-715 | the loop appends exactly the additions with new keys, as `BlocklistRules.MergedSnoc` says rule by rule |
| `BlocklistRules.MergedSnoc` | crates/revaer-app/src/orchestrator.rs:703-715 | a merge keeps the base, and appends an addition if and only if no rule of the base and no earlier addition is the same but for the case of letters |
| `BlocklistRules.DedupeMerge` | crates/revaer-app/src/orchestrator.rs:703-721 | de-duplicating a merge is de-duplicating the joined lists |
| `BlocklistRules.DedupeHolds` | crates/revaer-app/src/orchestrator.rs:717-721 | de-duplication is idempotent, keeps every key and one rule for each |
| `BlocklistRules.MergeKeys` | crates/revaer-app/src/orchestrator.rs:703-721 | the result covers exactly the union of keys |
| `BlocklistRules.ParseBlocklist` | crates/revaer-app/src/orchestrator.rs:659-694 | the line loop yields the first entry per canonical text, the skip count, or the limit error |
| `BlocklistRules.ParseAccounts` | crates/revaer-app/src/orchestrator.rs:659-694 | it fails if and only if distinct valid entries exceed 100,000; otherwise significant lines are rules, repeats and skipped |
| `BlocklistRules.LineRead` | crates/revaer-app/src/orchestrator.rs:664-690 | a line is read without the white space around it; an empty one and one that starts with `#`, `//` or `;` count for nothing, any other is an entry or skipped |
| `Text.TrimSplits` | crates/revaer-app/src/orchestrator.rs:665 | every text is its trimmed form between white space, so the rules for padded texts cover all |
| `Text.TrimPadded` | crates/revaer-app/src/orchestrator.rs:665 | trimming takes the white space of both ends and nothing else |
| `Text.WhitespaceExactly` | crates/revaer-torrent-libt/build.rs:176-181 | the 25 characters that count as white space |
| `BlocklistRules.SameEntryExactly` | crates/revaer-app/src/orchestrator.rs:674-677 | two entries count as one if and only if their canonical texts differ in the case of ASCII letters alone |
| `BlocklistFetch.LoadProvenance` | crates/revaer-app/src/orchestrator.rs:506-595 | a load answers only with lists downloaded from the requested URL, and a failed one leaves the cache alone |
| `BlocklistFetch.LoadCurrentExactly` | crates/revaer-app/src/orchestrator.rs:524-594 | with strong tags, a load that asks the server and succeeds is current if it was sent in full or the remembered tag is absent or the cached one; otherwise it is not, when other tags mean other rules |
| `BlocklistFetch.WindowAnswers` | crates/revaer-app/src/orchestrator.rs:511-521 | a list fetched from the requested URL less than 30 minutes ago is used as it is |
| `BlocklistFetch.StatusFailsExactly` | crates/revaer-app/src/orchestrator.rs:554-560 | outside the window, a load fails on the status if and only if it is neither 304 nor 200 to 299, and a failed load leaves the cache |
| `BlocklistFetch.ReplacedExactly` | crates/revaer-app/src/orchestrator.rs:523-594 | outside the window, cached rules are replaced only by those of a body sent under a status from 200 to 299, with its tag or else the remembered one; what every other answer to the request leads to |
| `IpFilterRefresh.Refresher.LoadBlocklist` | crates/revaer-app/src/orchestrator.rs:506-595 | cache, request and answer as specified, every error branch included; `BlocklistFetch.StatusFailsExactly` and `ReplacedExactly` give the statuses in numbers |
| `IpFilterRefresh.Refresher.ResolveIpFilter` | crates/revaer-app/src/orchestrator.rs:308-381 | merged rules are the first occurrences of inline and downloaded rules; metadata, warnings and cache as specified |
| `IpFilterRefresh.RefreshOutcomes` | crates/revaer-app/src/orchestrator.rs:308-381 | runtime filter, metadata, warnings and cache after a refresh: rules, tag and time of the list after a success, the remembered tag and time with an error text after a failure, none without a URL |
| `IpFilterRefresh.FailureTexts` | crates/revaer-app/src/orchestrator.rs:355-364 | the texts of the four failures |
| `IpFilterRefresh.Refresher.PersistIpFilterMetadata` | crates/revaer-app/src/orchestrator.rs:607-634 | a changeset is issued if and only if tag, time or error changed |
| `IpFilterRefresh.Refresher.RefreshIpFilter` | crates/revaer-app/src/orchestrator.rs:308-400 | the whole refresh, a rejected changeset reported as a warning |
| `IpFilterRefresh.Refresher.UpdateEngineProfile` | crates/revaer-app/src/orchestrator.rs:278-285 | on the stored profile this is one round of the loop; the plan carries the refresh's rules, metadata and warnings |
| `RefreshRuns.ChangesetIsMetadata` | crates/revaer-app/src/orchestrator.rs:607-634 | a changeset carries the normalised list of blocks, the URL that was read and changed metadata; the rest of the profile is as it was read |
| `RefreshRuns.EditSurvivesExactly` | crates/revaer-app/src/orchestrator.rs:620-632 | an edit that lands while a refresh is under way survives if and only if the refresh writes nothing or the edit decides what the store keeps of the profile that was read |
| `RefreshRuns.RunProvenance` | crates/revaer-app/src/orchestrator.rs:506-605 | over any run of edits and refreshes the cache holds a list downloaded from its URL |
| `RefreshRuns.RefreshProvenance` | crates/revaer-app/src/orchestrator.rs:308-400 | so the engine gets the inline rules and, after a success, those of a list downloaded from the URL asked for, a 304 included, each at its first occurrence |
| `RefreshRuns.RunTagsInStep` | crates/revaer-app/src/orchestrator.rs:278-400 | when changesets go through and edits leave the tag alone, profile and cache remember the same tag, but for an empty one, which the store drops |
| `RefreshRuns.RunSlotFrom` | crates/revaer-app/src/orchestrator.rs:506-605 | over any run, refused changesets and edits of the tag included, the cache holds a page its URL has had, under that page's tag |
| `RefreshRuns.RefreshCurrentExactly` | crates/revaer-app/src/orchestrator.rs:524-594 | after any run, a refresh that reaches an honest server and yields a list yields the current one if and only if it is not told "unmodified" for a tag other than the cached one |
| `RefreshRuns.CacheRefinesFetcher` | crates/revaer-app/src/orchestrator.rs:524-594 | after a run in which changesets go through and edits leave the tag alone, against changing sites with strong tags, a refresh that reaches the server yields its current list |
| `RefreshRuns.RefusedChangesetMisleads` | crates/revaer-app/src/orchestrator.rs:524-559 | a run from an empty cache: page a noted, page b's changeset refused, page a served again; b's rules are in force if and only if a's tag is not empty |
| `RefreshRuns.UntaggedAnswerMisleads` | crates/revaer-app/src/orchestrator.rs:567-577 | a run whose changesets are all stored: page a noted, b sent without a tag and cached under a's, page a served again; b's rules are in force unless a's tag is empty |
| `RefreshFeedback.SettlesExactly` | crates/revaer-data/migrations/0007_rebaseline.sql:1647-1676 | after a refresh that reached the server, the next one inside the window writes nothing if and only if the store keeps the clock's reading and the list came under another tag than an empty one; with a store of microseconds, if and only if the reading is a whole number of them besides |
| `RefreshFeedback.FeedbackExactly` | crates/revaer-app/src/orchestrator.rs:278-400 | over any number of rounds inside the window: all quiet if the store keeps the cache's tag and time, else every round writes again |
| `RefreshFeedback.FirstFetchSettlesExactly` | crates/revaer-app/src/orchestrator.rs:278-400 | over any number of rounds after a first fetch, each writes if and only if the page has an empty tag or the clock read a fraction of a microsecond |
| `RefreshFeedback.NeverSettlesExamples` | crates/revaer-data/migrations/0007_rebaseline.sql:1647-1676 | two inputs after which every later round inside the window writes: a reading of the clock, and an empty tag |
| `RefreshFeedback.PendingCounts` | crates/revaer-app/src/bootstrap.rs:419-455 | over any run, notifications pending are those there were, plus edits, minus wake-ups that wrote nothing |
| `RefreshFeedback.DrainsExactly` | crates/revaer-app/src/bootstrap.rs:419-455 | inside the window each wake-up uses up a notification when the store keeps the cache's tag and time; when it does not, only refused changesets do, so the loop never rests while they are stored |
| `RefreshFeedback.FailureWritesExactly` | crates/revaer-app/src/orchestrator.rs:355-364 | a failing refresh writes if and only if its error text differs from the one remembered |
| `RefreshFeedback.RepeatedFailuresDrain` | crates/revaer-app/src/orchestrator.rs:355-364 | equal failures one after the other come to rest: the first is noted, each further one uses up a notification |
| `BlocklistFetch.MissingStateExactly` | crates/revaer-app/src/orchestrator.rs:537-565 | a load reports missing state if and only if the cache is empty and the server confirms the tag sent |
| `RefreshFeedback.Starves` | crates/revaer-app/src/orchestrator.rs:537-565 | an empty cache beside a tag stays empty while the server confirms the tag, and the next refresh reports missing state if and only if it still does |
| `RefreshFeedback.MissingMeansCurrent` | crates/revaer-app/src/orchestrator.rs:537-565 | against an honest server, missing state means that the remembered tag is the current one |
| `RefreshFeedback.RecoversExactly` | crates/revaer-app/src/orchestrator.rs:537-594 | against a page, a refresh of an empty cache reports missing state if and only if the profile remembers the page's tag, and fills the cache otherwise |
| `RefreshFeedback.StarvesExactly` | crates/revaer-app/src/orchestrator.rs:537-594 | over any number of refreshes and changes of the page, the cache stays empty if and only if every page had the remembered tag; the first other page fills it for good |
| `ConfigWatch.Watcher.SetConfigDegraded` | crates/revaer-app/src/bootstrap.rs:531-547 | an event is published exactly on a change of the flag |
| `ConfigWatch.Watcher.ApplyConfigSnapshot` | crates/revaer-app/src/bootstrap.rs:458-528 | flag and events after one snapshot, in the order of each branch |
| `ConfigWatch.Watcher.Watch` | crates/revaer-app/src/bootstrap.rs:419-455 | over a stream the flag is the trouble of the last item handled, and nothing follows a termination |
| `ConfigWatch.HealthEdges` | crates/revaer-app/src/bootstrap.rs:458-547 | over any run health events alternate between `["config_watcher"]` and the empty list, starting with the former |
| `ConfigWatch.LatestMatchesFlag` | crates/revaer-app/src/bootstrap.rs:531-547 | the latest health event names the watcher if and only if the flag is set, and the flag is set after the end of the stream, a failure or more than two seconds |
| `ConfigWatch.LogSnoc` | crates/revaer-app/src/bootstrap.rs:458-547 | what each item adds to the events, in order: health first for a snapshot that was applied, the announcement first for one that was not |
| `ConfigWatch.HandledExactly` | crates/revaer-app/src/bootstrap.rs:431-453 | items are handled up to the first termination, or all of them |
| `ConfigWatch.SnapshotsAnnounced` | crates/revaer-app/src/bootstrap.rs:458-528 | every snapshot is announced once, in order, with its milliseconds or its error |
| `CidrRanges.RangeValue` | crates/revaer-config/src/validate.rs:228-274 | mask, network and end address in numbers, at any width |
| `CidrRanges.ContainsExactly` | crates/revaer-config/src/validate.rs:30-48 | `contains` holds if and only if the family and the top prefix bits agree; the widths are in `BlockV4` and `BlockV6` |
| `CidrRanges.RangeSize` | crates/revaer-config/src/validate.rs:228-274 | a range has 2^(width - prefix) valid addresses and includes the given one; the widths are in `BlockV4` and `BlockV6` |
| `CidrRanges.BlockV4` | crates/revaer-config/src/validate.rs:228-251 | an IPv4 block of length `p` runs from the multiple of 2^(32 - p) at or below the address to just before the next, within 32 bits |
| `CidrRanges.BlockV6` | crates/revaer-config/src/validate.rs:253-274 | an IPv6 block of length `p` does so with 2^(128 - p), within 128 bits |
| `CidrRanges.NestedOrDisjoint` | crates/revaer-config/src/validate.rs:30-48 | two ranges that share an address are nested |
| `CidrRanges.RangeDetermines` | crates/revaer-config/src/validate.rs:228-274 | a range determines its network and prefix |
| `CidrEntries.SameTextExactly` | crates/revaer-config/src/validate.rs:185-277 | canonical texts are equal if and only if the ranges are |
| `CidrEntries.CanonicalParses` | crates/revaer-config/src/validate.rs:185-277 | a canonical text parses back to its entry |
| `CidrEntries.TextParses` | crates/revaer-config/src/validate.rs:185-277 | the text of any address and length parses to its block, or to the error of a length beyond the family or beyond a byte |
| `CidrEntries.TextV4` | crates/revaer-config/src/validate.rs:228-251 | the text of an IPv4 address with a length is accepted if and only if the length is at most 32, and what block and text it gives |
| `CidrEntries.TextV6` | crates/revaer-config/src/validate.rs:253-274 | the text of an IPv6 address with a length is accepted if and only if the length is at most 128 |
| `CidrEntries.NoSlash` | crates/revaer-config/src/validate.rs:185-203 | a text without a slash is rejected, as an empty one when it is blank |
| `CidrEntries.WithSlash` | crates/revaer-config/src/validate.rs:196-274 | how any text with a slash is taken apart, and the first thing missing or wrong decides the error |
| `CidrEntries.ParsesNat` | crates/revaer-config/src/validate.rs:220-226 | a printed number reads back exactly when it fits in a byte |
| `CidrEntries.LengthTexts` | crates/revaer-config/src/validate.rs:220-226 | lengths are decimal, a plus sign or leading zeros allowed, and fit in a byte |
| `CidrEntries.PrintedTexts` | crates/revaer-config/src/validate.rs:246 | canonical texts print the length in decimal |
| `CidrEntries.CanonicalizeCidrEntries` | crates/revaer-config/src/validate.rs:56-70 | the first error, or the distinct entries in order of first appearance; which ranges and errors these are is in `TextV4`, `TextV6`, `NoSlash` and `WithSlash` |
| `CidrEntries.CoverageKept` | crates/revaer-config/src/validate.rs:56-70 | output and input cover the same addresses |
| `CidrEntries.CanonicalizingTwice` | crates/revaer-config/src/validate.rs:56-70 | canonicalising the output texts is the identity |
| `CompileCommands.CompileCommand` | crates/revaer-torrent-libt/build.rs:156-173 | the command joins the escaped words |
| `CompileCommands.ReadEscaped` | crates/revaer-torrent-libt/build.rs:175-187 | an escaped word reads back as itself |
| `CompileCommands.EscapedExactly` | crates/revaer-torrent-libt/build.rs:175-187 | a word is quoted if and only if it is empty or holds white space or one of eight characters |
| `CompileCommands.GuardedPieces` | crates/revaer-torrent-libt/build.rs:182-183 | inside quotes a backslash goes before every quote and every backslash |
| `CompileCommands.JoinPieces` | crates/revaer-torrent-libt/build.rs:172 | words are separated by one space |
| `CompileCommands.CommandRoundTrip` | crates/revaer-torrent-libt/build.rs:156-187 | splitting the command returns compiler, arguments, `-c`, source, `-o` and object, whatever white space separates words |
| `CompileCommands.JsonEscape` | crates/revaer-torrent-libt/build.rs:189-202 | the loop escapes character by character |
| `CompileCommands.JsonPieces` | crates/revaer-torrent-libt/build.rs:189-202 | five characters get an escape of their own, all others stay |
| `CompileCommands.JsonRoundTrip` | crates/revaer-torrent-libt/build.rs:189-202 | a JSON reader gives the text back if and only if it has no control characters but newline, return and tab |
| `CompileCommands.DatabaseRoundTrip` | crates/revaer-torrent-libt/build.rs:140-145 | the file reads back if and only if all three texts are printable |
| `CompileCommands.ContentsText` | crates/revaer-torrent-libt/build.rs:140-145 | the text of the file around its three escaped values |
| `CompileCommands.CompilationReadBack` | crates/revaer-torrent-libt/build.rs:119-173 | both layers together return the exact words |
| `CompileCommands.CompileCommandsFile` | crates/revaer-torrent-libt/build.rs:119-154 | the written contents are those the theorems speak of |

## Left out

- SQL, transactions, the HTTP transport, actor checks and audit rows: procedures are functions on an abstract store, a server is a function from requests to answers.
- Text checks in the procedures (trimming, length limits, character sets of keys) and the declared validation rules of fields: names and values are taken as already acceptable.
- The database's collation for the tag and rate-limit listings: both are taken as sorted by code point.
- Public ids are drawn from a counter; only their freshness is used.
- BackupRoundTrip.BackupRoundTrips: the second snapshot has default limits and present field types; `RoundTripExact.RoundTripExactly` says when that is the first one.
- A definition is known by its slug: two definitions of one slug from different sources are not told apart.
- The round-trip theorems suppose that the target has the definitions, media domains and trust tiers of the source.
- A restore stopped by an error leaves its earlier phases in place, as in the original; no theorem claims a rollback.
- DanglingReferences.InstanceStops: for a refused field only the error is stated; `RestoreRefusals.FieldStops` says which fields precede it.
- `build_policy_set_inventory`: one more grouping by id, followed by two sorts.
- The facade methods around single procedures, their error tables, the parsing and checks of an imported Cardigann definition, the rotation of secrets, and the conversions to API types.
- The runtime store is a map from id to status; the clamping of 64-bit counters and the time precision of its columns are not modelled.
- One worker takes events in order; concurrent calls of `apply_fsops`, two refreshes at once and lock scheduling are not modelled. A listening watcher is woken once per committed change; its fallback to polling is not modelled.
- The message of a failed fetch uses the fixed texts of the application's error type; metrics and log lines are dropped.
- Splitting a blocklist body into lines, `canonicalize_ip_filter_entry`, `normalize_engine_profile` and the ranges of inline entries are function parameters; normalisation is assumed to clear a blank URL and to keep the rest of the filter's metadata.
- The settings store normalises the whole profile on a write; the model keeps everything but the filter's URL, tag, time and error as it was sent, and lets operators' edits be stored as they are.
- Tracker and proxy secrets and the engine calls that follow a refresh are outside the loop that is modelled.
- Printing and parsing one IP address are function parameters, assumed inverse and free of `/` and white space.
- The `section` and `field` labels of CIDR errors are dropped.
- Paths and arguments are Unicode text: lossy conversion of other byte strings is not modelled, nor is writing the file.
- The JSON reader accepts every escape but surrogate pairs, which the printer never writes.
