/** The round trip of a whole store: when it closes, and exactly when. */
module BackupRoundTrip {
  import opened Basics
  import opened Ordering
  import opened IndexerRecords
  import opened IndexerStore
  import opened StoreOperations
  import opened StoreInvariant
  import opened Restore
  import opened PolicyRestore
  import opened FieldRestore
  import opened InstanceRestore
  import opened SnapshotRestore
  import opened RoundTrip
  import opened SnapshotExport
  import R = RoutingExport

  // ----- A valid store exports a snapshot that a restore accepts -----

  lemma ParametersAreRows(st: Store, p: Policy)
    ensures forall q :: q in PolicyItem(st, p).parameters <==>
        q.key in p.parameters && q == ParameterOf(st, q.key, p.parameters[q.key])
    ensures AscendingBy(PolicyItem(st, p).parameters, ParameterBefore)
  {
    var items := PolicyItem(st, p).parameters;
    assert items == R.SortedParameters(ParameterSet(st, p));
    hide R.SortedParameters, ParameterBefore;
  }

  lemma KeysAscending(st: Store, p: Policy)
    ensures AscendingBy(PolicyItem(st, p).parameters, KeyBefore)
  {
    var items := PolicyItem(st, p).parameters;
    ParametersAreRows(st, p);
    hide PolicyItem;
    forall i, j | 0 <= i < j < |items| ensures KeyBefore(items[i], items[j]) {
      assert items[i] in items && items[j] in items;
      assert ParameterBefore(items[i], items[j]);
      ParameterIrreflexive(items[i]);
    }
  }

  lemma ExportedParameters(st: Store, p: Policy)
    requires PolicyOk(p)
    ensures PolicyItemOk(PolicyItem(st, p))
  {
    var item := PolicyItem(st, p);
    assert item.mode == p.mode;
    KeysAscending(st, p);
    ParametersAreRows(st, p);
    hide PolicyItem, AscendingBy;
    forall q | q in item.parameters ensures ParameterItemOk(p.mode, q) {
      assert ParameterOk(p.mode, q.key, p.parameters[q.key]);
    }
    forall k | k in DefaultParameters(p.mode) ensures exists q :: q in item.parameters && q.key == k {
      assert ParameterOf(st, k, p.parameters[k]) in item.parameters;
    }
  }

  lemma ParameterIrreflexive(q: ParameterItem)
    ensures !ParameterBefore(q, q)
  {
  }

  lemma ExportedFields(st: Store, inst: Instance)
    requires InstanceOk(st.reference, inst)
    ensures FieldsOk(InstanceItemIn(st, inst).fields)
  {
    var fields := InstanceItemIn(st, inst).fields;
    FieldsAreRows(st, inst);
    FieldsAscend(st, inst);
    hide InstanceItemIn, AscendingBy, FieldItemOk;
    forall i | 0 <= i < |fields| ensures FieldItemOk(fields[i]) {
      assert fields[i] in fields;
      ExportedField(st, inst, fields[i].name);
    }
  }

  lemma FieldsAscend(st: Store, inst: Instance)
    ensures AscendingBy(InstanceItemIn(st, inst).fields, FieldBefore)
  {
    assert InstanceItemIn(st, inst).fields == ByName(FieldItems(st, inst));
    ByNameAscending(FieldItems(st, inst), FieldBefore);
    hide ByName, InstanceItemIn, AscendingBy;
  }

  lemma ExportedField(st: Store, inst: Instance, name: string)
    requires InstanceOk(st.reference, inst) && name in inst.fields
    ensures FieldItemOk(FieldItemOf(st, name, inst.fields[name]))
  {
    assert FieldOk(inst.fields[name]);
    hide InstanceOk;
  }

  lemma ExportedInstance(st: Store, snap: Snapshot, inst: Instance)
    requires StoreOk(st) && IsExport(st, snap) && InstanceOk(st.reference, inst)
    ensures ItemOk(st.reference, snap, InstanceItemIn(st, inst))
  {
    ExportedFields(st, inst);
    ExportedLinks(st, snap, inst);
    TagKeysListed(st, snap);
    ExportedColumns(st, inst);
    hide IsExport, StoreOk, InstanceOk, FieldsOk, ColumnsOk, ColumnsOf, RssOk, KeysOk, ByName, FieldItems,
      SortedNames, LimitListed, PolicyListed, TagKeys, RateLimitNameIn, PolicyNameIn;
  }

  lemma ExportedColumns(st: Store, inst: Instance)
    requires InstanceOk(st.reference, inst)
    ensures ColumnsOk(st.reference, ColumnsOf(inst)) && RssOk(InstanceItemIn(st, inst))
    ensures KeysOk(SortedNames(inst.mediaKeys), st.reference.mediaDomains)
    ensures KeysOk(SortedNames(inst.tagKeys * st.tags.Keys), st.tags.Keys)
    ensures ColumnsOf(inst).upstreamSlug == inst.upstreamSlug
  {
    hide ByName, FieldItems, SortedNames, FieldOk, RateLimitNameIn, PolicyNameIn;
  }

  lemma TagKeysListed(st: Store, snap: Snapshot)
    requires IsExport(st, snap)
    ensures TagKeys(snap) == st.tags.Keys
  {
    forall k | k in st.tags ensures k in TagKeys(snap) {
      assert TagItem(k, st.tags[k]) in snap.tags;
    }
  }

  lemma ExportedLinks(st: Store, snap: Snapshot, inst: Instance)
    requires IsExport(st, snap)
    ensures LimitListed(snap, RateLimitNameIn(st, inst.rateLimitId))
        && PolicyListed(snap, PolicyNameIn(st, inst.routingId))
  {
    ExportedLimit(st, snap, inst.rateLimitId);
    if PolicyNameIn(st, inst.routingId).Some? {
      var p := PolicyItem(st, st.policies[inst.routingId.value]);
      assert p in snap.routing && p.displayName == PolicyNameIn(st, inst.routingId).value;
    }
  }

  lemma ExportedLimit(st: Store, snap: Snapshot, id: Option<Uuid>)
    requires IsExport(st, snap)
    ensures LimitListed(snap, RateLimitNameIn(st, id))
  {
    if RateLimitNameIn(st, id).Some? {
      var r := RateLimitItemOf(st.rateLimits[id.value]);
      assert r in snap.rateLimits && r.displayName == RateLimitNameIn(st, id).value;
    }
  }

  /** Every reference an export makes is to something it also exports, and every item is one the
      procedures accept, unless its definition refuses it. */
  lemma ExportRestorable(st: Store, snap: Snapshot)
    requires StoreOk(st) && IsExport(st, snap)
    ensures SnapshotOk(st.reference, snap)
  {
    forall p | p in snap.routing ensures PolicyItemOk(p) && LimitListed(snap, p.rateLimitName) {
      var id :| id in st.policies && PolicyItem(st, st.policies[id]) == p;
      ExportedParameters(st, st.policies[id]);
      ExportedLimit(st, snap, st.policies[id].rateLimitId);
    }
    forall i | i in snap.instances ensures ItemOk(st.reference, snap, i) {
      var id :| id in st.instances && InstanceItemIn(st, st.instances[id]) == i;
      ExportedInstance(st, snap, st.instances[id]);
    }
    hide PolicyItem, InstanceItemIn, PolicyItemOk, ItemOk, LimitListed, PolicyOk, InstanceOk, Referenced;
    forall r | r in snap.rateLimits && !r.isSystem
      ensures LimitsInRange(r.requestsPerMinute, r.burst, r.concurrentRequests)
    {
      var id :| id in st.rateLimits && RateLimitItemOf(st.rateLimits[id]) == r;
      assert LimitOk(st.rateLimits[id]);
    }
  }

  // ----- Stores whose export restores -----

  function Types(st: Store, id: Uuid): FieldTypes
    requires id in st.instances
  {
    TypesIn(st.reference, st.instances[id].upstreamSlug)
  }

  /** The instance has a secret field that no live secret is bound to. */
  predicate LostAt(st: Store, id: Uuid, f: string) {
    id in st.instances && f in st.instances[id].fields
    && SecretType(st.instances[id].fields[f].fieldType) && LiveSecret(st, st.instances[id].fields[f].secretId).None?
  }

  ghost predicate HasLostField(st: Store) {
    exists id, f :: LostAt(st, id, f)
  }

  predicate DeprecatedAt(st: Store, id: Uuid) {
    && id in st.instances && st.instances[id].upstreamSlug in st.reference.definitions
    && st.reference.definitions[st.instances[id].upstreamSlug].deprecated
  }

  /** A value or a live secret as the type the definition now has asks. */
  predicate AcceptedAt(st: Store, id: Uuid, f: string)
    requires id in st.instances && f in st.instances[id].fields
  {
    var row, types := st.instances[id].fields[f], Types(st, id);
    && f in types
    && if SecretType(row.fieldType) then SecretType(types[f]) && LiveSecret(st, row.secretId).Some?
       else !SecretType(types[f]) && ValueMatches(types[f], row.value)
  }

  /** The instance's definition is not deprecated, and every field fits it as it is now. */
  ghost predicate Fits(st: Store, id: Uuid)
    requires id in st.instances
  {
    !DeprecatedAt(st, id) && forall f :: f in st.instances[id].fields ==> AcceptedAt(st, id, f)
  }

  ghost predicate Restorable(st: Store) {
    forall id :: id in st.instances ==> Fits(st, id)
  }

  lemma AcceptedExactly(st: Store, id: Uuid, f: string)
    requires StoreOk(st) && id in st.instances && f in st.instances[id].fields
    ensures FieldRefusal(Types(st, id), FieldItemOf(st, f, st.instances[id].fields[f])).None? <==> AcceptedAt(st, id, f)
  {
    assert InstanceOk(st.reference, st.instances[id]);
    assert FieldOk(st.instances[id].fields[f]);
    hide StoreOk, InstanceOk;
  }

  lemma {:induction false} NoFieldRefused(types: FieldTypes, fields: seq<FieldItem>)
    ensures FieldsRefusal(types, fields).None? <==> forall f :: f in fields ==> FieldRefusal(types, f).None?
  {
    if fields != [] {
      assert fields == [fields[0]] + fields[1..];
      NoFieldRefused(types, fields[1..]);
    }
  }

  lemma {:induction false} NoItemRefused(reference: Reference, items: seq<InstanceItem>)
    ensures ItemsRefusal(reference, items).None? <==> forall i :: i in items ==> ItemRefusal(reference, i).None?
  {
    if items != [] {
      assert items == [items[0]] + items[1..];
      NoItemRefused(reference, items[1..]);
    }
  }

  /** The documents of the fields are accepted exactly when their rows are. */
  lemma FieldsAccepted(st: Store, id: Uuid, fields: seq<FieldItem>)
    requires StoreOk(st) && id in st.instances
    requires forall f :: f in fields <==>
        f.name in st.instances[id].fields && f == FieldItemOf(st, f.name, st.instances[id].fields[f.name])
    ensures FieldsRefusal(Types(st, id), fields).None? <==>
        forall f :: f in st.instances[id].fields ==> AcceptedAt(st, id, f)
  {
    var inst := st.instances[id];
    NoFieldRefused(Types(st, id), fields);
    hide StoreOk, FieldRefusal, FieldsRefusal, AcceptedAt;
    forall f | f in inst.fields
      ensures FieldItemOf(st, f, inst.fields[f]) in fields
      ensures FieldRefusal(Types(st, id), FieldItemOf(st, f, inst.fields[f])).None? <==> AcceptedAt(st, id, f)
    {
      AcceptedExactly(st, id, f);
    }
  }

  /** The document of an instance is accepted exactly when its rows are. */
  lemma InstanceAccepted(st: Store, id: Uuid)
    requires StoreOk(st) && id in st.instances
    ensures ItemRefusal(st.reference, InstanceItemIn(st, st.instances[id])).None? <==> Fits(st, id)
  {
    var inst := st.instances[id];
    FieldsAreRows(st, inst);
    assert InstanceItemIn(st, inst).columns.upstreamSlug == inst.upstreamSlug;
    hide StoreOk, FieldsRefusal, AcceptedAt, InstanceItemIn;
    FieldsAccepted(st, id, InstanceItemIn(st, inst).fields);
  }

  /** The definitions accept an export exactly when the store is restorable. */
  lemma ExportAccepted(st: Store, snap: Snapshot)
    requires StoreOk(st) && IsExport(st, snap)
    ensures ItemsRefusal(st.reference, snap.instances).None? <==> Restorable(st)
  {
    var items := snap.instances;
    assert InstancesListed(st, items);
    NoItemRefused(st.reference, items);
    hide StoreOk, IsExport, InstancesListed, ItemsRefusal, ItemRefusal, InstanceItemIn, Fits;
    if Restorable(st) {
      forall i | i in items ensures ItemRefusal(st.reference, i).None? {
        var id := ItemOrigin(st, items, i);
        InstanceAccepted(st, id);
      }
    } else {
      var id :| id in st.instances && !Fits(st, id);
      InstanceAccepted(st, id);
      ItemListed(st, items, id);
    }
  }

  lemma ItemListed(st: Store, items: seq<InstanceItem>, id: Uuid)
    requires InstancesListed(st, items) && id in st.instances
    ensures InstanceItemIn(st, st.instances[id]) in items
  {
    hide InstanceItemIn, AscendingBy;
  }

  lemma ItemOrigin(st: Store, items: seq<InstanceItem>, item: InstanceItem) returns (id: Uuid)
    requires InstancesListed(st, items) && item in items
    ensures id in st.instances && InstanceItemIn(st, st.instances[id]) == item
  {
    hide InstanceItemIn, AscendingBy;
    id :| id in st.instances && InstanceItemIn(st, st.instances[id]) == item;
  }

  // ----- The restore of an export -----

  /** The errors of a definition that refuses an instance or a field. */
  predicate DefinitionError(c: ErrorCode) {
    c in {DefinitionDeprecated, FieldNotFound, FieldRequiresSecret, FieldNotSecret, ValueCountInvalid,
      ValueTypeMismatch}
  }

  lemma {:induction false} FieldErrors(types: FieldTypes, fields: seq<FieldItem>)
    ensures var c := FieldsRefusal(types, fields); c.Some? ==> DefinitionError(c.value)
  {
    if fields != [] { FieldErrors(types, fields[1..]); }
  }

  lemma {:induction false} ItemErrors(reference: Reference, items: seq<InstanceItem>)
    ensures var c := ItemsRefusal(reference, items); c.Some? ==> DefinitionError(c.value)
  {
    if items != [] {
      FieldErrors(TypesIn(reference, items[0].columns.upstreamSlug), items[0].fields);
      ItemErrors(reference, items[1..]);
    }
  }

  /** Restoring an export of a valid store succeeds exactly when the store is restorable. It never fails
      on a reference: the error is the first refusal of a definition, and what a completed restore
      creates and leaves open is determined by the snapshot and the target's secrets. */
  lemma ExportRestores(src: Store, snap: Snapshot, dst: Store, system: Ids)
    requires StoreOk(src) && IsExport(src, snap)
    requires dst.reference == src.reference && SeededTarget(dst, snap) && SystemIdsAre(dst, system)
    ensures var r := RestoreSnapshot(dst, snap, system);
      && (r.Done? <==> Restorable(src))
      && (r.Done? ==> r.value == Completed(dst.secrets, snap) && Restored(dst, r.st, snap))
      && (r.Failed? ==> Some(r.code) == ItemsRefusal(src.reference, snap.instances) && DefinitionError(r.code))
  {
    hide *;
    ExportRestorable(src, snap);
    ExportAccepted(src, snap);
    ItemErrors(src.reference, snap.instances);
    SnapshotRestored(dst, snap, system);
  }

  // ----- When every secret is known to the target -----

  /** The item with the columns a restore never sends back at their defaults. */
  function DefaultedLimits(item: InstanceItem): InstanceItem {
    item.(columns := item.columns.(limits := DEFAULT_LIMITS))
  }

  function RetypedFields(types: FieldTypes, fields: seq<FieldItem>): (r: seq<FieldItem>)
    ensures |r| == |fields| && forall i :: 0 <= i < |r| ==> r[i] == Retyped(types, fields[i])
  {
    seq(|fields|, i requires 0 <= i < |fields| => Retyped(types, fields[i]))
  }

  /** The item with default limits and every field under the type its definition has now. */
  function RebuiltItem(reference: Reference, item: InstanceItem): InstanceItem {
    DefaultedLimits(item).(fields := RetypedFields(TypesIn(reference, item.columns.upstreamSlug), item.fields))
  }

  /** What a restore makes of the snapshot when no secret is missing. */
  function Rebuilt(reference: Reference, snap: Snapshot): Snapshot {
    snap.(instances := seq(|snap.instances|,
        i requires 0 <= i < |snap.instances| => RebuiltItem(reference, snap.instances[i])))
  }

  /** Every secret the snapshot mentions exists in the table. */
  ghost predicate SecretsKnown(secrets: SecretTypes, snap: Snapshot) {
    && (forall p, q :: p in snap.routing && q in p.parameters ==> !Missing(secrets, q.secretId))
    && (forall i, f :: i in snap.instances && f in i.fields ==> !Missing(secrets, f.secretId))
  }

  lemma NothingBlanked(secrets: SecretTypes, snap: Snapshot)
    requires SecretsKnown(secrets, snap)
    ensures PoliciesAfter(secrets, snap.routing) == snap.routing
  {
    forall i | 0 <= i < |snap.routing| ensures PolicyAfter(secrets, snap.routing[i]) == snap.routing[i] {
      var p := snap.routing[i];
      assert p in snap.routing;
      forall j | 0 <= j < |p.parameters| ensures Blank(secrets, p.parameters[j]) == p.parameters[j] {
        assert p.parameters[j] in p.parameters;
      }
      assert Blanked(secrets, p.parameters) == p.parameters;
    }
  }

  lemma {:induction false} AllFieldsKept(types: FieldTypes, secrets: SecretTypes, fields: seq<FieldItem>)
    requires forall f :: f in fields ==> !Missing(secrets, f.secretId)
    ensures Kept(types, secrets, fields) == RetypedFields(types, fields)
  {
    hide Missing, Retyped, RetypedFields;
    if fields == [] {
      assert RetypedFields(types, fields) == [];
    } else {
      assert fields[0] in fields && forall f :: f in fields[1..] ==> f in fields;
      AllFieldsKept(types, secrets, fields[1..]);
      RetypedStep(types, fields);
    }
  }

  lemma RetypedStep(types: FieldTypes, fields: seq<FieldItem>)
    requires fields != []
    ensures RetypedFields(types, fields) == [Retyped(types, fields[0])] + RetypedFields(types, fields[1..])
  {
    hide Retyped;
  }

  lemma {:induction false} NoFieldsMissing(secrets: SecretTypes, name: string, fields: seq<FieldItem>)
    requires forall f :: f in fields ==> !Missing(secrets, f.secretId)
    ensures MissingFields(secrets, name, fields) == []
  {
    if fields != [] { NoFieldsMissing(secrets, name, fields[1..]); }
  }

  lemma NothingDropped(reference: Reference, secrets: SecretTypes, snap: Snapshot)
    requires SecretsKnown(secrets, snap)
    ensures InstancesAfter(reference, secrets, snap.instances) == Rebuilt(reference, snap).instances
  {
    forall i | 0 <= i < |snap.instances|
      ensures InstanceAfter(reference, secrets, snap.instances[i]) == RebuiltItem(reference, snap.instances[i])
    {
      var item := snap.instances[i];
      assert item in snap.instances;
      AllFieldsKept(TypesIn(reference, item.columns.upstreamSlug), secrets, item.fields);
    }
  }

  lemma {:induction false} NoParametersMissing(secrets: SecretTypes, name: string, items: seq<ParameterItem>)
    requires forall q :: q in items ==> !Missing(secrets, q.secretId)
    ensures MissingParameters(secrets, name, items) == []
  {
    if items != [] { NoParametersMissing(secrets, name, items[1..]); }
  }

  lemma {:induction false} NoPoliciesMissing(secrets: SecretTypes, items: seq<RoutingItem>)
    requires forall p, q :: p in items && q in p.parameters ==> !Missing(secrets, q.secretId)
    ensures MissingInPolicies(secrets, items) == []
  {
    var n := |items|;
    if n > 0 {
      assert items[n - 1] in items;
      NoParametersMissing(secrets, items[n - 1].displayName, items[n - 1].parameters);
      NoPoliciesMissing(secrets, items[..n - 1]);
    }
  }

  lemma {:induction false} NoInstancesMissing(secrets: SecretTypes, items: seq<InstanceItem>)
    requires forall i, f :: i in items && f in i.fields ==> !Missing(secrets, f.secretId)
    ensures MissingInInstances(secrets, items) == []
  {
    var n := |items|;
    if n > 0 {
      assert items[n - 1] in items;
      NoFieldsMissing(secrets, items[n - 1].displayName, items[n - 1].fields);
      NoInstancesMissing(secrets, items[..n - 1]);
    }
  }

  /** Whether something is bound to a live secret can be read off the documents. */
  ghost predicate Mentioned(routing: seq<RoutingItem>, instances: seq<InstanceItem>, id: Uuid) {
    || (exists p, q :: p in routing && q in p.parameters && q.secretId == Some(id))
    || (exists i :: i in instances && HasSecret(i, id))
  }

  ghost predicate HasSecret(item: InstanceItem, id: Uuid) {
    exists f :: f in item.fields && f.secretId == Some(id)
  }

  /** A document that mentions the secret is of a policy with a parameter bound to it, and back. */
  lemma ParameterMentions(st: Store, routing: seq<RoutingItem>, secret: Uuid)
    requires PoliciesListed(st, routing) && secret in st.secrets
    ensures (exists p, q :: p in routing && q in p.parameters && q.secretId == Some(secret)) <==>
            exists id, k ::
              && id in st.policies && k in st.policies[id].parameters
              && st.policies[id].parameters[k].secretId == Some(secret)
  {
    hide PolicyItem, AscendingBy;
    if p, q :| p in routing && q in p.parameters && q.secretId == Some(secret) {
      var id :| id in st.policies && PolicyItem(st, st.policies[id]) == p;
      ParametersAreRows(st, st.policies[id]);
      assert st.policies[id].parameters[q.key].secretId == Some(secret);
    }
    if id, k :|
      id in st.policies && k in st.policies[id].parameters && st.policies[id].parameters[k].secretId == Some(secret)
    {
      var p := PolicyItem(st, st.policies[id]);
      ParametersAreRows(st, st.policies[id]);
      assert p in routing && ParameterOf(st, k, st.policies[id].parameters[k]) in p.parameters;
    }
  }

  lemma FieldMentions(st: Store, instances: seq<InstanceItem>, secret: Uuid)
    requires InstancesListed(st, instances) && secret in st.secrets
    ensures (exists i :: i in instances && HasSecret(i, secret)) <==>
            exists id, f ::
              id in st.instances && f in st.instances[id].fields && st.instances[id].fields[f].secretId == Some(secret)
  {
    hide InstanceItemIn, AscendingBy;
    if i :| i in instances && HasSecret(i, secret) {
      var f :| f in i.fields && f.secretId == Some(secret);
      var id :| id in st.instances && InstanceItemIn(st, st.instances[id]) == i;
      FieldsAreRows(st, st.instances[id]);
      assert st.instances[id].fields[f.name].secretId == Some(secret);
    }
    if id, f :|
      id in st.instances && f in st.instances[id].fields && st.instances[id].fields[f].secretId == Some(secret)
    {
      var i := InstanceItemIn(st, st.instances[id]);
      FieldsAreRows(st, st.instances[id]);
      assert i in instances && FieldItemOf(st, f, st.instances[id].fields[f]) in i.fields;
      assert HasSecret(i, secret);
    }
  }

  lemma MentionedReferenced(st: Store, routing: seq<RoutingItem>, instances: seq<InstanceItem>, s: SecretRef)
    requires PoliciesListed(st, routing) && InstancesListed(st, instances)
    requires s.id in st.secrets && st.secrets[s.id] == s.secretType
    ensures Mentioned(routing, instances, s.id) <==> Referenced(st, s)
  {
    ParameterMentions(st, routing, s.id);
    FieldMentions(st, instances, s.id);
    hide PoliciesListed, InstancesListed, HasSecret;
  }

  lemma FieldsAreRows(st: Store, inst: Instance)
    ensures forall f :: f in InstanceItemIn(st, inst).fields <==>
        f.name in inst.fields && f == FieldItemOf(st, f.name, inst.fields[f.name])
  {
    var fields := InstanceItemIn(st, inst).fields;
    assert fields == ByName(FieldItems(st, inst));
    ByNameHolds(FieldItems(st, inst));
    hide ByName, InstanceItemIn;
    forall f: FieldItem | f.name in inst.fields && f == FieldItemOf(st, f.name, inst.fields[f.name])
      ensures f in fields
    {
      assert FieldItems(st, inst)[f.name] == f;
    }
  }

  /** The target knows every secret of the source under the same type. */
  ghost predicate SecretsShared(src: Store, dst: Store) {
    forall id :: id in src.secrets ==> id in dst.secrets && dst.secrets[id] == src.secrets[id]
  }

  lemma SharedAreKnown(src: Store, snap: Snapshot, dst: Store)
    requires IsExport(src, snap) && SecretsShared(src, dst)
    ensures SecretsKnown(dst.secrets, snap)
  {
    hide PolicyItem, InstanceItemIn, AscendingBy, Referenced;
    forall p, q | p in snap.routing && q in p.parameters ensures !Missing(dst.secrets, q.secretId) {
      var id :| id in src.policies && PolicyItem(src, src.policies[id]) == p;
      ParametersAreRows(src, src.policies[id]);
    }
    forall i, f | i in snap.instances && f in i.fields ensures !Missing(dst.secrets, f.secretId) {
      var id :| id in src.instances && InstanceItemIn(src, src.instances[id]) == i;
      FieldsAreRows(src, src.instances[id]);
    }
  }

  /** Rebuilding keeps every field's name and secret. */
  lemma RebuiltMentions(reference: Reference, item: InstanceItem, id: Uuid)
    ensures HasSecret(RebuiltItem(reference, item), id) <==> HasSecret(item, id)
  {
    var fields, after := item.fields, RebuiltItem(reference, item).fields;
    if f :| f in fields && f.secretId == Some(id) {
      var n :| 0 <= n < |fields| && fields[n] == f;
      assert after[n] in after && after[n].secretId == Some(id);
    }
    if f :| f in after && f.secretId == Some(id) {
      var n :| 0 <= n < |after| && after[n] == f;
      assert fields[n] in fields && fields[n].secretId == Some(id);
    }
  }

  lemma SameMentions(reference: Reference, snap: Snapshot, id: Uuid)
    ensures Mentioned(snap.routing, Rebuilt(reference, snap).instances, id) <==>
        Mentioned(snap.routing, snap.instances, id)
  {
    var items, after := snap.instances, Rebuilt(reference, snap).instances;
    forall k | 0 <= k < |items| ensures HasSecret(after[k], id) <==> HasSecret(items[k], id) {
      RebuiltMentions(reference, items[k], id);
    }
    hide *;
    SameSecrets(items, after, id);
    MentionedThrough(snap.routing, items, after, id);
  }

  lemma SameSecrets(items: seq<InstanceItem>, after: seq<InstanceItem>, id: Uuid)
    requires |items| == |after| && forall k :: 0 <= k < |items| ==>
      (HasSecret(after[k], id) <==> HasSecret(items[k], id))
    ensures (exists i :: i in items && HasSecret(i, id)) <==> (exists i :: i in after && HasSecret(i, id))
  {
    hide HasSecret;
    if i :| i in items && HasSecret(i, id) {
      var k :| 0 <= k < |items| && items[k] == i;
      assert after[k] in after;
    }
    if i :| i in after && HasSecret(i, id) {
      var k :| 0 <= k < |after| && after[k] == i;
      assert items[k] in items;
    }
  }

  lemma MentionedThrough(routing: seq<RoutingItem>, items: seq<InstanceItem>, after: seq<InstanceItem>, id: Uuid)
    requires (exists i :: i in items && HasSecret(i, id)) <==> (exists i :: i in after && HasSecret(i, id))
    ensures Mentioned(routing, items, id) <==> Mentioned(routing, after, id)
  {
    hide HasSecret;
  }

  lemma SecretsCarried(src: Store, snap: Snapshot, st: Store, reference: Reference)
    requires IsExport(src, snap) && SecretsShared(src, st)
    requires PoliciesListed(st, snap.routing) && InstancesListed(st, Rebuilt(reference, snap).instances)
    ensures SecretsListed(st, snap.secrets)
  {
    hide PoliciesListed, InstancesListed, Mentioned, Referenced, Rebuilt, TagsListed, RateLimitsListed,
      AscendingBy;
    forall s ensures Referenced(st, s) <==> Referenced(src, s) {
      SameMentions(reference, snap, s.id);
      if s.id in src.secrets && src.secrets[s.id] == s.secretType {
        MentionedReferenced(src, snap.routing, snap.instances, s);
        MentionedReferenced(st, snap.routing, Rebuilt(reference, snap).instances, s);
      } else {
        ReferencedTyped(src, s);
        if Referenced(st, s) {
          ReferencedTyped(st, s);
          MentionedReferenced(st, snap.routing, Rebuilt(reference, snap).instances, s);
          MentionIsLive(src, snap, s.id);
        }
      }
    }
  }

  lemma ReferencedTyped(st: Store, s: SecretRef)
    ensures Referenced(st, s) ==> s.id in st.secrets && st.secrets[s.id] == s.secretType
  {
  }

  lemma MentionIsLive(st: Store, snap: Snapshot, id: Uuid)
    requires IsExport(st, snap) && Mentioned(snap.routing, snap.instances, id)
    ensures id in st.secrets
  {
    hide PolicyItem, InstanceItemIn, AscendingBy, Referenced;
    if p, q :| p in snap.routing && q in p.parameters && q.secretId == Some(id) {
      var pid :| pid in st.policies && PolicyItem(st, st.policies[pid]) == p;
      ParametersAreRows(st, st.policies[pid]);
    } else {
      var i :| i in snap.instances && HasSecret(i, id);
      var f :| f in i.fields && f.secretId == Some(id);
      var iid :| iid in st.instances && InstanceItemIn(st, st.instances[iid]) == i;
      FieldsAreRows(st, st.instances[iid]);
    }
  }

  /** Restoring an export where every secret is known rebuilds the exported documents. */
  lemma ExportRebuilt(src: Store, snap: Snapshot, dst: Store, system: Ids)
    requires StoreOk(src) && IsExport(src, snap) && Restorable(src)
    requires dst.reference == src.reference && SeededTarget(dst, snap) && SystemIdsAre(dst, system)
    requires SecretsShared(src, dst)
    ensures var r := RestoreSnapshot(dst, snap, system);
      && r.Done? && r.value.unresolved == []
      && IsExport(r.st, Rebuilt(src.reference, snap)) && UniquePolicyNames(r.st) && UniqueInstanceNames(r.st)
  {
    hide StoreOk, Restorable, SeededTarget, SystemIdsAre, RestoreSnapshot, TagsListed, RateLimitsListed,
      PoliciesListed, InstancesListed, SecretsListed, MissingInPolicies, MissingInInstances, PoliciesAfter,
      InstancesAfter, NonSystem, UniquePolicyNames, UniqueInstanceNames, SinglyBound, ItemsRefusal, RebuiltItem,
      SecretsShared, DefinitionError;
    ExportRestores(src, snap, dst, system);
    var r := RestoreSnapshot(dst, snap, system);
    assert dst.secrets == r.st.secrets && SecretsShared(src, r.st) by { SameShared(src, dst, r.st, snap); }
    SharedAreKnown(src, snap, dst);
    NothingBlanked(dst.secrets, snap);
    NothingDropped(src.reference, dst.secrets, snap);
    NoPoliciesMissing(dst.secrets, snap.routing);
    NoInstancesMissing(dst.secrets, snap.instances);
    SecretsCarried(src, snap, r.st, src.reference);
  }

  lemma SameShared(src: Store, dst: Store, st: Store, snap: Snapshot)
    requires SecretsShared(src, dst) && Restored(dst, st, snap)
    ensures SecretsShared(src, st) && st.secrets == dst.secrets
  {
    hide TagsListed, RateLimitsListed, PoliciesListed, InstancesListed, UniquePolicyNames, UniqueInstanceNames,
      SinglyBound;
  }

  /** The second export reads the store that the restore of the first one made. */
  ghost predicate ReadBack(dst: Store, snap: Snapshot, system: Ids, rows': Rows) {
    var r := RestoreSnapshot(dst, snap, system);
    r.Done? ==> RowsOf(r.st, rows')
  }

  /** Export, restore into a seeded store, export again: whatever rows the two exports read, the
      second snapshot is the first one on everything a restore writes back. */
  lemma BackupRoundTrips(src: Store, rows: Rows, dst: Store, system: Ids, rows': Rows)
    requires StoreOk(src) && RowsOf(src, rows) && Restorable(src)
    requires dst.reference == src.reference && SeededTarget(dst, SnapshotOf(rows)) && SystemIdsAre(dst, system)
    requires SecretsShared(src, dst) && ReadBack(dst, SnapshotOf(rows), system, rows')
    ensures RestoreSnapshot(dst, SnapshotOf(rows), system).Done?
    ensures SnapshotOf(rows') == Rebuilt(src.reference, SnapshotOf(rows))
  {
    assert UniquePolicyNames(src) && UniqueInstanceNames(src);
    hide StoreOk, RowsOf, Restorable, SeededTarget, SystemIdsAre, SecretsShared, RestoreSnapshot, SnapshotOf,
      Rebuilt, IsExport, UniquePolicyNames, UniqueInstanceNames;
    SnapshotExported(src, rows);
    ExportRebuilt(src, SnapshotOf(rows), dst, system);
    var st := RestoreSnapshot(dst, SnapshotOf(rows), system).st;
    SnapshotExported(st, rows');
    ExportUnique(st, SnapshotOf(rows'), Rebuilt(src.reference, SnapshotOf(rows)));
  }
}
