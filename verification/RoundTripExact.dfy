/** When a backup brings everything back: the exact condition on a store, and the calls that break it. */
module RoundTripExact {
  import opened Basics
  import opened Ordering
  import opened IndexerRecords
  import opened IndexerStore
  import opened StoreOperations
  import opened StoreInvariant
  import opened CallEffects
  import opened Restore
  import opened FieldRestore
  import opened RoundTrip
  import opened SnapshotExport
  import opened ExportJoin
  import opened JoinOrder
  import opened BackupRoundTrip

  // ----- Stores that agree with their definitions -----

  /** The field has the type its definition has now, and a secret field a live secret. */
  predicate FieldCurrent(types: FieldTypes, secrets: map<Uuid, string>, name: string, f: Field) {
    && name in types && types[name] == f.fieldType
    && (SecretType(f.fieldType) ==> Live(secrets, f.secretId).Some?)
  }

  ghost predicate InstanceCurrent(reference: Reference, secrets: map<Uuid, string>, inst: Instance) {
    && inst.upstreamSlug in reference.definitions && !reference.definitions[inst.upstreamSlug].deprecated
    && forall f :: f in inst.fields ==>
        FieldCurrent(TypesIn(reference, inst.upstreamSlug), secrets, f, inst.fields[f])
  }

  /** No instance is of a deprecated definition, every field has the type its definition has now, and
      no secret field is without a live secret. */
  ghost predicate Current(st: Store) {
    forall id :: id in st.instances ==> InstanceCurrent(st.reference, st.secrets, st.instances[id])
  }

  /** Every field that its definition still has is of the type it has there. */
  ghost predicate TypesCurrent(reference: Reference, inst: Instance) {
    var types := TypesIn(reference, inst.upstreamSlug);
    forall f :: f in inst.fields && f in types ==> types[f] == inst.fields[f].fieldType
  }

  lemma FieldCurrentExactly(st: Store, id: Uuid, f: string)
    requires StoreOk(st) && id in st.instances && f in st.instances[id].fields
    ensures FieldCurrent(Types(st, id), st.secrets, f, st.instances[id].fields[f]) <==>
      AcceptedAt(st, id, f) && (f in Types(st, id) ==> Types(st, id)[f] == st.instances[id].fields[f].fieldType)
  {
    Held(st, id);
    assert FieldOk(st.instances[id].fields[f]);
    hide StoreOk, InstanceOk;
  }

  lemma InstanceCurrentExactly(st: Store, id: Uuid)
    requires StoreOk(st) && id in st.instances
    ensures InstanceCurrent(st.reference, st.secrets, st.instances[id]) <==>
      Fits(st, id) && TypesCurrent(st.reference, st.instances[id])
  {
    Held(st, id);
    forall f | f in st.instances[id].fields
      ensures FieldCurrent(Types(st, id), st.secrets, f, st.instances[id].fields[f]) <==>
        AcceptedAt(st, id, f) && (f in Types(st, id) ==> Types(st, id)[f] == st.instances[id].fields[f].fieldType)
    {
      FieldCurrentExactly(st, id, f);
    }
    hide StoreOk, FieldOk, FieldCurrent, AcceptedAt;
  }

  // ----- What rebuilding changes -----

  lemma ItemUnchanged(reference: Reference, item: InstanceItem)
    ensures RebuiltItem(reference, item) == item <==>
      && item.columns.limits == DEFAULT_LIMITS
      && forall f :: f in item.fields ==> Retyped(TypesIn(reference, item.columns.upstreamSlug), f) == f
  {
    var types := TypesIn(reference, item.columns.upstreamSlug);
    var fields := RetypedFields(types, item.fields);
    if forall f :: f in item.fields ==> Retyped(types, f) == f {
      forall i | 0 <= i < |fields| ensures fields[i] == item.fields[i] {
        assert item.fields[i] in item.fields;
      }
    } else {
      var f :| f in item.fields && Retyped(types, f) != f;
      var i :| 0 <= i < |fields| && item.fields[i] == f;
      assert fields[i] != f;
    }
  }

  lemma InstanceUnchanged(st: Store, inst: Instance)
    ensures RebuiltItem(st.reference, InstanceItemIn(st, inst)) == InstanceItemIn(st, inst) <==>
      inst.limits == DEFAULT_LIMITS && TypesCurrent(st.reference, inst)
  {
    var item, types := InstanceItemIn(st, inst), TypesIn(st.reference, inst.upstreamSlug);
    ItemUnchanged(st.reference, item);
    FieldsAreRows(st, inst);
    assert item.columns.limits == inst.limits && item.columns.upstreamSlug == inst.upstreamSlug;
    hide InstanceItemIn, RebuiltItem;
    forall name | name in inst.fields ensures FieldItemOf(st, name, inst.fields[name]) in item.fields {}
  }

  lemma SnapshotUnchanged(reference: Reference, snap: Snapshot)
    ensures Rebuilt(reference, snap) == snap <==> forall i :: i in snap.instances ==> RebuiltItem(reference, i) == i
  {
    var items, after := snap.instances, Rebuilt(reference, snap).instances;
    hide RebuiltItem;
    if forall i :: i in items ==> RebuiltItem(reference, i) == i {
      forall k | 0 <= k < |items| ensures after[k] == items[k] { assert items[k] in items; }
      assert after == items;
    } else {
      var i :| i in items && RebuiltItem(reference, i) != i;
      var k :| 0 <= k < |items| && items[k] == i;
      assert after[k] != items[k];
    }
  }

  lemma ExportUnchanged(st: Store, snap: Snapshot)
    requires IsExport(st, snap)
    ensures Rebuilt(st.reference, snap) == snap <==>
      LimitsDefault(st) && forall id :: id in st.instances ==> TypesCurrent(st.reference, st.instances[id])
  {
    SnapshotUnchanged(st.reference, snap);
    assert InstancesListed(st, snap.instances);
    hide IsExport, InstancesListed, InstanceItemIn, Rebuilt, RebuiltItem, TypesCurrent;
    if LimitsDefault(st) && forall id :: id in st.instances ==> TypesCurrent(st.reference, st.instances[id]) {
      forall i | i in snap.instances ensures RebuiltItem(st.reference, i) == i {
        var id := ItemOrigin(st, snap.instances, i);
        InstanceUnchanged(st, st.instances[id]);
      }
    } else {
      var id :| id in st.instances
        && !(st.instances[id].limits == DEFAULT_LIMITS && TypesCurrent(st.reference, st.instances[id]));
      ItemListed(st, snap.instances, id);
      InstanceUnchanged(st, st.instances[id]);
    }
  }

  // ----- The round trip, exactly -----

  lemma CurrentExactly(st: Store)
    requires StoreOk(st)
    ensures Current(st) <==>
      Restorable(st) && forall id :: id in st.instances ==> TypesCurrent(st.reference, st.instances[id])
  {
    hide StoreOk, InstanceCurrent, Fits, TypesCurrent;
    forall id | id in st.instances
      ensures InstanceCurrent(st.reference, st.secrets, st.instances[id]) <==>
        Fits(st, id) && TypesCurrent(st.reference, st.instances[id])
    {
      InstanceCurrentExactly(st, id);
    }
  }

  /** The snapshot is the export of the store, restores, and is the export of the restored store too. */
  ghost predicate Closes(src: Store, snap: Snapshot, dst: Store, system: Ids) {
    var r := RestoreSnapshot(dst, snap, system);
    IsExport(src, snap) && r.Done? && IsExport(r.st, snap)
  }

  lemma ClosesExactly(src: Store, snap: Snapshot, dst: Store, system: Ids)
    requires StoreOk(src) && IsExport(src, snap) && SecretsShared(src, dst)
    requires dst.reference == src.reference && SeededTarget(dst, snap) && SystemIdsAre(dst, system)
    ensures Closes(src, snap, dst, system) <==> Current(src) && LimitsDefault(src)
  {
    CurrentExactly(src);
    hide *;
    ExportRestores(src, snap, dst, system);
    ExportUnchanged(src, snap);
    if Restorable(src) {
      ExportRebuilt(src, snap, dst, system);
      var st := RestoreSnapshot(dst, snap, system).st;
      if IsExport(st, snap) {
        ExportUnique(st, snap, Rebuilt(src.reference, snap));
        ClosesWhen(src, snap, dst, system);
      }
    }
    if Closes(src, snap, dst, system) { ClosedExport(src, snap, dst, system); }
  }

  lemma ClosesWhen(src: Store, snap: Snapshot, dst: Store, system: Ids)
    requires IsExport(src, snap) && RestoreSnapshot(dst, snap, system).Done?
    requires IsExport(RestoreSnapshot(dst, snap, system).st, snap)
    ensures Closes(src, snap, dst, system)
  {
    hide IsExport, RestoreSnapshot;
  }

  /** Only the system limits of a snapshot matter to the choice of a target. */
  lemma SeededAlike(st: Store, some: Rows, rows: Rows, dst: Store)
    requires JoinRows(st, some) && JoinRows(st, rows) && SeededTarget(dst, SnapshotOf(some))
    ensures SeededTarget(dst, SnapshotOf(rows))
  {
    assert RateLimitsListed(st, some.rateLimits) && RateLimitsListed(st, rows.rateLimits);
    assert some.rateLimits == rows.rateLimits by {
      hide JoinRows, SeededTarget, RateLimitItemOf;
      BeforeAsymmetric();
      hide RateLimitBefore;
      AscendingUnique(some.rateLimits, rows.rateLimits, RateLimitBefore);
    }
    hide JoinRows, RateLimitsListed;
  }

  /** Whatever the joins list of the store, the snapshot is its export, restores into a seeded store, and is
      what the restored store exports, exactly when the store is current, every instance has the default
      limits, and the bindings of every field lead to one secret. */
  lemma RoundTripExactly(src: Store, some: Rows, dst: Store, system: Ids)
    requires StoreOk(src) && JoinRows(src, some) && SecretsShared(src, dst)
    requires dst.reference == src.reference && SeededTarget(dst, SnapshotOf(some)) && SystemIdsAre(dst, system)
    ensures (forall rows :: JoinRows(src, rows) ==> Closes(src, SnapshotOf(rows), dst, system)) <==>
      Current(src) && LimitsDefault(src) && OneSecretEach(src)
  {
    hide *;
    StoreNames(src);
    StoreBound(src);
    JoinExportsExactly(src, some);
    forall rows | JoinRows(src, rows) && IsExport(src, SnapshotOf(rows))
      ensures Closes(src, SnapshotOf(rows), dst, system) <==> Current(src) && LimitsDefault(src)
    {
      SeededAlike(src, some, rows, dst);
      ClosesExactly(src, SnapshotOf(rows), dst, system);
    }
    forall rows | Closes(src, SnapshotOf(rows), dst, system) ensures IsExport(src, SnapshotOf(rows)) {
      ClosedExport(src, SnapshotOf(rows), dst, system);
    }
  }

  lemma ClosedExport(src: Store, snap: Snapshot, dst: Store, system: Ids)
    requires Closes(src, snap, dst, system)
    ensures IsExport(src, snap) && RestoreSnapshot(dst, snap, system).Done?
    ensures IsExport(RestoreSnapshot(dst, snap, system).st, snap)
  {
    hide IsExport, RestoreSnapshot;
  }

  /** A store that calls lead to from one with default limits comes back exactly when it is current and the
      bindings of every field lead to one secret, whatever the calls were. */
  lemma ReachedRoundTrips(start: Store, calls: seq<Call>, some: Rows, dst: Store, system: Ids)
    requires StoreOk(start) && LimitsDefault(start) && JoinRows(PerformAll(start, calls), some)
    requires SecretsShared(PerformAll(start, calls), dst) && dst.reference == PerformAll(start, calls).reference
    requires SeededTarget(dst, SnapshotOf(some)) && SystemIdsAre(dst, system)
    ensures var src := PerformAll(start, calls);
      (forall rows :: JoinRows(src, rows) ==> Closes(src, SnapshotOf(rows), dst, system)) <==>
        Current(src) && OneSecretEach(src)
  {
    hide *;
    RunKeepsStore(start, calls);
    RunKeepsLimits(start, calls);
    RoundTripExactly(PerformAll(start, calls), some, dst, system);
  }

  /** Where the trip closes, any listing of the restored store's joins gives the snapshot again. */
  lemma SecondSnapshot(src: Store, snap: Snapshot, dst: Store, system: Ids, rows': Rows)
    requires StoreOk(src) && Closes(src, snap, dst, system)
    requires dst.reference == src.reference && SeededTarget(dst, snap) && SystemIdsAre(dst, system)
    requires JoinRows(RestoreSnapshot(dst, snap, system).st, rows')
    ensures SnapshotOf(rows') == snap
  {
    hide *;
    ClosedExport(src, snap, dst, system);
    ExportRestores(src, snap, dst, system);
    var st := RestoreSnapshot(dst, snap, system).st;
    RestoredNames(dst, st, snap);
    SingleSecrets(st);
    JoinRowsConsistent(st, rows');
    SnapshotExported(st, rows');
    ExportUnique(st, SnapshotOf(rows'), snap);
  }

  lemma RestoredNames(dst: Store, st: Store, snap: Snapshot)
    requires Restored(dst, st, snap)
    ensures UniquePolicyNames(st) && UniqueInstanceNames(st) && SinglyBound(st)
  {
    hide TagsListed, RateLimitsListed, PoliciesListed, InstancesListed, UniquePolicyNames, UniqueInstanceNames,
      SinglyBound;
  }

  lemma StoreNames(st: Store)
    requires StoreOk(st)
    ensures UniquePolicyNames(st) && UniqueInstanceNames(st)
  {
  }

  // ----- The calls that break it -----

  /** Some field, under the type it has now, is bound to the secret. */
  ghost predicate BoundField(st: Store, secretId: Uuid) {
    exists id, f ::
      id in st.instances && f in st.instances[id].fields && SecretType(st.instances[id].fields[f].fieldType)
      && st.instances[id].fields[f].secretId == Some(secretId)
  }

  /** Some instance of the definition would not survive its import: any if the import deprecates it,
      else one with fields, which the import takes from the definition. */
  ghost predicate UsesDefinition(st: Store, slug: string, deprecated: bool) {
    exists id ::
      id in st.instances && st.instances[id].upstreamSlug == slug && (deprecated || st.instances[id].fields != map[])
  }

  ghost predicate Breaks(st: Store, call: Call) {
    match call
    case RevokeSecret(s) => s in st.secrets && BoundField(st, s)
    case ImportDefinition(slug, deprecated) => UsesDefinition(st, slug, deprecated)
    case _ => false
  }

  lemma RevocationBreaks(st: Store, s: Uuid)
    requires Current(st) && s in st.secrets
    ensures Current(SecretRevoke(st, s).st) <==> !BoundField(st, s)
  {
    var after := SecretRevoke(st, s).st;
    if id, f :|
      id in st.instances && f in st.instances[id].fields && SecretType(st.instances[id].fields[f].fieldType)
      && st.instances[id].fields[f].secretId == Some(s)
    {
      assert !FieldCurrent(TypesIn(after.reference, st.instances[id].upstreamSlug), after.secrets, f,
                           st.instances[id].fields[f]);
      assert !InstanceCurrent(after.reference, after.secrets, after.instances[id]);
    } else {
      forall id | id in after.instances ensures InstanceCurrent(after.reference, after.secrets, after.instances[id]) {
        assert InstanceCurrent(st.reference, st.secrets, st.instances[id]);
      }
    }
  }

  lemma ImportBreaks(st: Store, slug: string, deprecated: bool)
    requires Current(st)
    ensures Current(DefinitionImport(st, slug, deprecated).st) <==> !UsesDefinition(st, slug, deprecated)
  {
    var after := DefinitionImport(st, slug, deprecated).st;
    forall id | id in st.instances
      ensures InstanceCurrent(after.reference, after.secrets, after.instances[id]) <==>
        st.instances[id].upstreamSlug != slug || (!deprecated && st.instances[id].fields == map[])
    {
      var inst := st.instances[id];
      assert InstanceCurrent(st.reference, st.secrets, inst);
      if inst.upstreamSlug == slug {
        if f :| f in inst.fields {
          assert !FieldCurrent(TypesIn(after.reference, slug), after.secrets, f, inst.fields[f]);
        }
      } else {
        assert TypesIn(after.reference, inst.upstreamSlug) == TypesIn(st.reference, inst.upstreamSlug);
      }
    }
    hide InstanceCurrent;
  }

  lemma AddedFieldKept(st: Store, slug: string, name: string, fieldType: string)
    requires Current(st) && DefinitionAddField(st, slug, name, fieldType).Ok?
    ensures Current(DefinitionAddField(st, slug, name, fieldType).st)
  {
    var after := DefinitionAddField(st, slug, name, fieldType).st;
    forall id | id in after.instances ensures InstanceCurrent(after.reference, after.secrets, after.instances[id]) {
      var inst := st.instances[id];
      assert InstanceCurrent(st.reference, st.secrets, inst);
      forall f | f in inst.fields
        ensures FieldCurrent(TypesIn(after.reference, inst.upstreamSlug), after.secrets, f, inst.fields[f])
      {
        assert FieldCurrent(TypesIn(st.reference, inst.upstreamSlug), st.secrets, f, inst.fields[f]);
      }
    }
  }

  lemma CreatedSecretKept(st: Store, secretType: string)
    requires Current(st)
    ensures Current(SecretCreate(st, secretType).st)
  {
    var after := SecretCreate(st, secretType).st;
    forall id | id in after.instances ensures InstanceCurrent(after.reference, after.secrets, after.instances[id]) {
      assert InstanceCurrent(st.reference, st.secrets, st.instances[id]);
    }
  }

  /** A field set or bound under its definition's type, with its secret, keeps its instance current. */
  lemma FieldStored(st: Store, id: Uuid, name: string, f: Field)
    requires Current(st) && id in st.instances
    requires FieldCurrent(TypesIn(st.reference, st.instances[id].upstreamSlug), st.secrets, name, f)
    ensures var inst := st.instances[id];
      Current(st.(instances := st.instances[id := inst.(fields := inst.fields[name := f])]))
  {
    assert InstanceCurrent(st.reference, st.secrets, st.instances[id]);
    hide FieldCurrent;
    var inst := st.instances[id].(fields := st.instances[id].fields[name := f]);
    assert InstanceCurrent(st.reference, st.secrets, inst);
    hide InstanceCurrent;
  }

  lemma SetFieldCurrent(st: Store, id: Uuid, name: string, v: FieldValue)
    requires Current(st) && FieldSetValue(st, id, name, v).Ok?
    ensures Current(FieldSetValue(st, id, name, v).st)
  {
    hide Current;
    FieldStored(st, id, name, FieldSetValue(st, id, name, v).st.instances[id].fields[name]);
  }

  lemma BindFieldCurrent(st: Store, id: Uuid, name: string, secretId: Uuid)
    requires Current(st) && FieldBindSecret(st, id, name, secretId).Ok?
    ensures Current(FieldBindSecret(st, id, name, secretId).st)
  {
    hide Current, OlderBindings;
    FieldStored(st, id, name, FieldBindSecret(st, id, name, secretId).st.instances[id].fields[name]);
  }

  lemma FieldCallCurrent(st: Store, call: Call)
    requires Current(st) && FieldCall(call)
    ensures Current(Perform(st, call))
  {
    hide Current, FieldSetValue, FieldBindSecret;
    match call
    case SetField(id, name, v) => if FieldSetValue(st, id, name, v).Ok? { SetFieldCurrent(st, id, name, v); }
    case BindField(id, name, s) => if FieldBindSecret(st, id, name, s).Ok? { BindFieldCurrent(st, id, name, s); }
  }

  lemma UntouchedCurrent(st: Store, other: Store)
    requires Current(st) && ShellsKept(st, other)
    ensures Current(other)
  {
    hide FieldCurrent;
  }

  /** A current store stays current under every call but two: revoking a secret that a field is bound to,
      and importing the definition of an instance that has fields, or deprecating it. */
  lemma StaysCurrentExactly(st: Store, call: Call)
    requires Current(st)
    ensures Current(Perform(st, call)) <==> !Breaks(st, call)
  {
    hide Current, BoundField, UsesDefinition, ShellsKept, FieldSetValue, FieldBindSecret, SecretRevoke,
      DefinitionImport, DefinitionAddField, SecretCreate;
    if FieldCall(call) { FieldCallCurrent(st, call); }
    else if SecretOrDefinitionCall(call) { SecretCallCurrent(st, call); }
    else {
      hide Perform;
      CallKeepsShells(st, call);
      UntouchedCurrent(st, Perform(st, call));
    }
  }

  lemma SecretCallCurrent(st: Store, call: Call)
    requires Current(st) && SecretOrDefinitionCall(call)
    ensures Current(Perform(st, call)) <==> !Breaks(st, call)
  {
    hide Current, BoundField, UsesDefinition;
    match call
    case CreateSecret(t) => CreatedSecretKept(st, t);
    case RevokeSecret(s) => if s in st.secrets { RevocationBreaks(st, s); }
    case ImportDefinition(slug, deprecated) => ImportBreaks(st, slug, deprecated);
    case AddDefinitionField(slug, n, t) => if DefinitionAddField(st, slug, n, t).Ok? { AddedFieldKept(st, slug, n, t); }
  }

  // ----- Fields are bound once -----

  lemma UntouchedSinglyBound(st: Store, other: Store)
    requires SinglyBound(st) && ShellsKept(st, other)
    ensures SinglyBound(other)
  {
    assert NothingOlder(map[]);
    hide NothingOlder;
  }

  lemma StoredSinglyBound(st: Store, id: Uuid, name: string, f: Field)
    requires SinglyBound(st) && id in st.instances && f.older == map[]
    ensures var inst := st.instances[id];
      SinglyBound(st.(instances := st.instances[id := inst.(fields := inst.fields[name := f])]))
  {
    assert NothingOlder(st.instances[id].fields);
  }

  /** Binding a field anew leaves a second binding exactly when the first one was made under another type. */
  lemma BindsOnceExactly(st: Store, id: Uuid, name: string, secretId: Uuid)
    requires SinglyBound(st) && FieldBindSecret(st, id, name, secretId).Ok?
    ensures var fields := st.instances[id].fields;
      SinglyBound(FieldBindSecret(st, id, name, secretId).st) <==>
        (name in fields && fields[name].secretId.Some? ==>
           fields[name].fieldType == TypesIn(st.reference, st.instances[id].upstreamSlug)[name])
  {
    var inst := st.instances[id];
    var after := FieldBindSecret(st, id, name, secretId).st;
    var f := after.instances[id].fields[name];
    assert NothingOlder(inst.fields);
    if f.older == map[] {
      StoredSinglyBound(st, id, name, f);
    } else {
      assert !NothingOlder(after.instances[id].fields);
    }
    if name in inst.fields && inst.fields[name].secretId.Some? && inst.fields[name].fieldType != f.fieldType {
      assert inst.fields[name].fieldType in f.older;
    }
  }

  lemma SetBindsNothing(st: Store, id: Uuid, name: string, v: FieldValue)
    requires SinglyBound(st) && FieldSetValue(st, id, name, v).Ok?
    ensures SinglyBound(FieldSetValue(st, id, name, v).st)
  {
    assert NothingOlder(st.instances[id].fields);
    StoredSinglyBound(st, id, name, FieldSetValue(st, id, name, v).st.instances[id].fields[name]);
  }

  lemma CurrentBindsOnce(st: Store, id: Uuid, name: string, secretId: Uuid)
    requires Current(st) && SinglyBound(st) && FieldBindSecret(st, id, name, secretId).Ok?
    ensures SinglyBound(FieldBindSecret(st, id, name, secretId).st)
  {
    var inst := st.instances[id];
    assert InstanceCurrent(st.reference, st.secrets, inst);
    assert name in inst.fields ==>
      FieldCurrent(TypesIn(st.reference, inst.upstreamSlug), st.secrets, name, inst.fields[name]);
    hide SinglyBound, Current, FieldBindSecret;
    BindsOnceExactly(st, id, name, secretId);
  }

  /** While the store is current no call leaves a second binding. */
  lemma StaysSinglyBound(st: Store, call: Call)
    requires Current(st) && SinglyBound(st)
    ensures SinglyBound(Perform(st, call))
  {
    hide Current, ShellsKept, SinglyBound, FieldBindSecret, FieldSetValue;
    if call.SetField? {
      if FieldSetValue(st, call.id, call.name, call.fieldValue).Ok? {
        SetBindsNothing(st, call.id, call.name, call.fieldValue);
      }
    } else if call.BindField? {
      if FieldBindSecret(st, call.id, call.name, call.secretId).Ok? {
        CurrentBindsOnce(st, call.id, call.name, call.secretId);
      }
    } else {
      hide Perform;
      if SecretOrDefinitionCall(call) {
        SecretsKeepInstances(st, call);
        SameInstancesSinglyBound(st, Perform(st, call));
      } else {
        CallKeepsShells(st, call);
        UntouchedSinglyBound(st, Perform(st, call));
      }
    }
  }

  lemma SameInstancesSinglyBound(st: Store, other: Store)
    requires SinglyBound(st) && other.instances == st.instances
    ensures SinglyBound(other)
  {
  }

  // ----- Runs -----

  ghost predicate NothingBreaks(st: Store, calls: seq<Call>)
    decreases |calls|
  {
    calls == [] || (!Breaks(st, calls[0]) && NothingBreaks(Perform(st, calls[0]), calls[1..]))
  }

  lemma {:induction false} RunStaysCurrent(st: Store, calls: seq<Call>)
    requires Current(st) && SinglyBound(st) && NothingBreaks(st, calls)
    ensures Current(PerformAll(st, calls)) && SinglyBound(PerformAll(st, calls))
    decreases |calls|
  {
    hide Current, SinglyBound, Perform, Breaks;
    if calls != [] {
      StaysCurrentExactly(st, calls[0]);
      StaysSinglyBound(st, calls[0]);
      RunStaysCurrent(Perform(st, calls[0]), calls[1..]);
    }
  }

  /** The second export joins the tables that the restore of the first one filled. */
  ghost predicate ExportedAgain(dst: Store, snap: Snapshot, system: Ids, rows': Rows) {
    var r := RestoreSnapshot(dst, snap, system);
    r.Done? ==> JoinRows(r.st, rows')
  }

  /** So a store that calls of other kinds built from one without instances always comes back as it was:
      whatever the joins list on either side, the restore succeeds and the snapshots are equal. */
  lemma BuiltRoundTrips(start: Store, calls: seq<Call>, rows: Rows, dst: Store, system: Ids, rows': Rows)
    requires StoreOk(start) && start.instances == map[] && NothingBreaks(start, calls)
    requires JoinRows(PerformAll(start, calls), rows) && dst.reference == PerformAll(start, calls).reference
    requires SeededTarget(dst, SnapshotOf(rows)) && SystemIdsAre(dst, system)
    requires SecretsShared(PerformAll(start, calls), dst) && ExportedAgain(dst, SnapshotOf(rows), system, rows')
    ensures RestoreSnapshot(dst, SnapshotOf(rows), system).Done? && SnapshotOf(rows') == SnapshotOf(rows)
  {
    assert LimitsDefault(start) && Current(start) && SinglyBound(start);
    hide *;
    var src := PerformAll(start, calls);
    RunStaysCurrent(start, calls);
    RunKeepsStore(start, calls);
    SingleSecrets(src);
    ReachedRoundTrips(start, calls, rows, dst, system);
    ClosedExport(src, SnapshotOf(rows), dst, system);
    ExportedRows(dst, SnapshotOf(rows), system, rows');
    SecondSnapshot(src, SnapshotOf(rows), dst, system, rows');
  }

  lemma ExportedRows(dst: Store, snap: Snapshot, system: Ids, rows': Rows)
    requires RestoreSnapshot(dst, snap, system).Done? && ExportedAgain(dst, snap, system, rows')
    ensures JoinRows(RestoreSnapshot(dst, snap, system).st, rows')
  {
    hide JoinRows, RestoreSnapshot;
  }
}
