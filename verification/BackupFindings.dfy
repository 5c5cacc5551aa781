/** Where a backup does not come back as it was, and exactly when. */
module BackupFindings {
  import opened Basics
  import opened Ordering
  import opened IndexerRecords
  import opened IndexerStore
  import opened StoreOperations
  import opened StoreInvariant
  import opened Restore
  import opened PolicyRestore
  import opened FieldRestore
  import opened InstanceRestore
  import opened RoundTrip
  import opened ExportOrder
  import opened BackupRoundTrip
  import opened RoundTripExact
  import opened ExportJoin
  import opened JoinOrder

  // ----- The error of a refused restore -----

  predicate NoneOr(refusal: Option<ErrorCode>, code: ErrorCode) { refusal.None? || refusal.value == code }

  lemma {:induction false} FieldsRefusedBy(types: FieldTypes, fields: seq<FieldItem>, code: ErrorCode)
    requires forall f :: f in fields ==> NoneOr(FieldRefusal(types, f), code)
    ensures NoneOr(FieldsRefusal(types, fields), code)
  {
    if fields != [] { FieldsRefusedBy(types, fields[1..], code); }
  }

  lemma {:induction false} ItemsRefusedBy(reference: Reference, items: seq<InstanceItem>, code: ErrorCode)
    requires forall i :: i in items ==> NoneOr(ItemRefusal(reference, i), code)
    ensures NoneOr(ItemsRefusal(reference, items), code)
  {
    if items != [] { ItemsRefusedBy(reference, items[1..], code); }
  }

  /** When every instance fits its definition or is refused with `code`, and one does not fit, the restore
      of an export fails with `code`. */
  lemma RefusedWith(src: Store, snap: Snapshot, dst: Store, system: Ids, code: ErrorCode)
    requires StoreOk(src) && IsExport(src, snap) && !Restorable(src)
    requires dst.reference == src.reference && SeededTarget(dst, snap) && SystemIdsAre(dst, system)
    requires forall id :: id in src.instances ==>
      NoneOr(ItemRefusal(src.reference, InstanceItemIn(src, src.instances[id])), code)
    ensures RestoreSnapshot(dst, snap, system).Failed? && RestoreSnapshot(dst, snap, system).code == code
  {
    hide StoreOk, Restorable, SeededTarget, SystemIdsAre, RestoreSnapshot, ItemRefusal, ItemsRefusal,
      InstanceItemIn, InstancesListed, TagsListed, RateLimitsListed, PoliciesListed, SecretsListed,
      DefinitionError;
    forall i | i in snap.instances ensures NoneOr(ItemRefusal(src.reference, i), code) {
      var id := ItemOrigin(src, snap.instances, i);
    }
    ItemsRefusedBy(src.reference, snap.instances, code);
    ExportRestores(src, snap, dst, system);
  }

  // ----- A revoked secret blocks the restore -----

  /** A field that was current is refused, if at all, for want of its secret. */
  lemma RevokedFieldRefusal(st: Store, id: Uuid, f: string, secrets: map<Uuid, string>)
    requires StoreOk(st) && Current(st) && id in st.instances && f in st.instances[id].fields
    ensures var row := st.instances[id].fields[f];
      NoneOr(FieldRefusal(Types(st, id), FieldItem(f, row.fieldType, row.value, Live(secrets, row.secretId))),
             FieldRequiresSecret)
  {
    Held(st, id);
    assert InstanceCurrent(st.reference, st.secrets, st.instances[id]);
    assert FieldOk(st.instances[id].fields[f]);
    hide StoreOk, InstanceOk;
  }

  lemma RevokedItemRefusal(st: Store, after: Store, id: Uuid)
    requires StoreOk(st) && Current(st) && after == st.(secrets := after.secrets) && id in st.instances
    ensures NoneOr(ItemRefusal(after.reference, InstanceItemIn(after, after.instances[id])), FieldRequiresSecret)
  {
    assert InstanceCurrent(st.reference, st.secrets, st.instances[id]);
    var item := InstanceItemIn(after, after.instances[id]);
    FieldsAreRows(after, after.instances[id]);
    assert item.columns.upstreamSlug == st.instances[id].upstreamSlug;
    hide StoreOk, Current, FieldRefusal, FieldsRefusal, InstanceItemIn, FieldCurrent;
    forall f | f in item.fields ensures NoneOr(FieldRefusal(Types(st, id), f), FieldRequiresSecret) {
      RevokedFieldRefusal(st, id, f.name, after.secrets);
    }
    FieldsRefusedBy(Types(st, id), item.fields, FieldRequiresSecret);
  }

  lemma CurrentTypes(st: Store, after: Store)
    requires StoreOk(st) && Current(st) && StoreOk(after) && !Current(after) && after.instances == st.instances
    requires forall id :: id in st.instances ==>
      var slug := st.instances[id].upstreamSlug;
      TypesIn(after.reference, slug) == TypesIn(st.reference, slug) || TypesIn(after.reference, slug) == map[]
    ensures !Restorable(after)
  {
    hide StoreOk, Current, Restorable, TypesIn;
    CurrentExactly(st);
    CurrentExactly(after);
    forall id | id in after.instances ensures TypesCurrent(after.reference, after.instances[id]) {
      assert TypesCurrent(st.reference, st.instances[id]);
    }
  }

  /** Revoking a secret that a field is bound to makes every later export of the store unrestorable,
      whatever secrets the target has. */
  lemma RevocationBlocksRestore(src: Store, secretId: Uuid, snap: Snapshot, dst: Store, system: Ids)
    requires StoreOk(src) && Current(src) && BoundField(src, secretId)
    requires IsExport(Perform(src, RevokeSecret(secretId)), snap)
    requires dst.reference == src.reference && SeededTarget(dst, snap) && SystemIdsAre(dst, system)
    ensures RestoreSnapshot(dst, snap, system).Failed? && RestoreSnapshot(dst, snap, system).code == FieldRequiresSecret
  {
    var after := Perform(src, RevokeSecret(secretId));
    RevokedNotRestorable(src, secretId);
    hide *;
    forall id | id in after.instances
      ensures NoneOr(ItemRefusal(after.reference, InstanceItemIn(after, after.instances[id])), FieldRequiresSecret)
    {
      RevokedItemRefusal(src, after, id);
    }
    RefusedWith(after, snap, dst, system, FieldRequiresSecret);
  }

  lemma RevokedNotRestorable(src: Store, secretId: Uuid)
    requires StoreOk(src) && Current(src) && BoundField(src, secretId)
    ensures var after := Perform(src, RevokeSecret(secretId));
      StoreOk(after) && !Restorable(after) && after == src.(secrets := after.secrets)
  {
    var call := RevokeSecret(secretId);
    var after := Perform(src, call);
    BoundIsLive(src, secretId);
    hide StoreOk, Current, BoundField, Restorable, TypesIn;
    RevocationFacts(src, secretId);
    hide Perform, Breaks;
    CallKeepsStore(src, call);
    StaysCurrentExactly(src, call);
    CurrentTypes(src, after);
  }

  lemma RevocationFacts(st: Store, secretId: Uuid)
    requires secretId in st.secrets
    ensures var after := Perform(st, RevokeSecret(secretId)); after == st.(secrets := after.secrets)
    ensures Breaks(st, RevokeSecret(secretId)) <==> BoundField(st, secretId)
  {
    hide BoundField;
  }

  lemma BoundIsLive(st: Store, secretId: Uuid)
    requires Current(st) && BoundField(st, secretId)
    ensures secretId in st.secrets
  {
    var id, f :|
      id in st.instances && f in st.instances[id].fields && SecretType(st.instances[id].fields[f].fieldType)
      && st.instances[id].fields[f].secretId == Some(secretId);
    assert InstanceCurrent(st.reference, st.secrets, st.instances[id]);
    assert FieldCurrent(TypesIn(st.reference, st.instances[id].upstreamSlug), st.secrets, f,
      st.instances[id].fields[f]);
  }

  // ----- An imported definition blocks it too -----

  function ImportError(deprecated: bool): (c: ErrorCode)
    ensures c == if deprecated then DefinitionDeprecated else FieldNotFound
  {
    if deprecated then DefinitionDeprecated else FieldNotFound
  }

  /** An import changes the types of one slug, and no document. */
  lemma ImportFacts(st: Store, slug: string, deprecated: bool)
    ensures var after := Perform(st, ImportDefinition(slug, deprecated));
      && after == st.(reference := after.reference) && TypesIn(after.reference, slug) == map[]
      && slug in after.reference.definitions && after.reference.definitions[slug].deprecated == deprecated
      && forall other: string :: other != slug ==>
        && TypesIn(after.reference, other) == TypesIn(st.reference, other)
        && (other in after.reference.definitions <==> other in st.reference.definitions)
        && (other in st.reference.definitions ==>
              after.reference.definitions[other] == st.reference.definitions[other])
  {
  }

  lemma SameDocuments(st: Store, reference: Reference, inst: Instance)
    ensures InstanceItemIn(st.(reference := reference), inst) == InstanceItemIn(st, inst)
    ensures InstanceItemIn(st, inst).columns.upstreamSlug == inst.upstreamSlug
  {
    assert FieldItems(st.(reference := reference), inst) == FieldItems(st, inst);
  }

  lemma ImportedItemRefusal(st: Store, slug: string, deprecated: bool, id: Uuid)
    requires StoreOk(st) && Current(st) && id in st.instances
    ensures var after := Perform(st, ImportDefinition(slug, deprecated));
      NoneOr(ItemRefusal(after.reference, InstanceItemIn(after, after.instances[id])), ImportError(deprecated))
  {
    var after := Perform(st, ImportDefinition(slug, deprecated));
    var inst := st.instances[id];
    hide InstanceItemIn, StoreOk, Current, Fits, Perform, InstanceCurrent, TypesIn, FieldRefusal;
    ImportFacts(st, slug, deprecated);
    SameDocuments(st, after.reference, inst);
    if inst.upstreamSlug == slug {
      ImportedRefusal(after.reference, InstanceItemIn(st, inst), deprecated);
    } else {
      InstanceAccepted(st, id);
      CurrentAt(st, id);
      InstanceCurrentExactly(st, id);
      hide FieldsRefusal;
    }
  }

  lemma ImportedRefusal(reference: Reference, item: InstanceItem, deprecated: bool)
    requires var slug := item.columns.upstreamSlug;
      slug in reference.definitions && reference.definitions[slug].deprecated == deprecated
        && TypesIn(reference, slug) == map[]
    ensures NoneOr(ItemRefusal(reference, item), ImportError(deprecated))
  {
    hide TypesIn;
  }

  lemma CurrentAt(st: Store, id: Uuid)
    requires Current(st) && id in st.instances
    ensures InstanceCurrent(st.reference, st.secrets, st.instances[id])
  {
  }

  lemma ImportLosesNoSecret(st: Store, slug: string, deprecated: bool)
    requires Current(st)
    ensures !HasLostField(Perform(st, ImportDefinition(slug, deprecated)))
  {
    var after := Perform(st, ImportDefinition(slug, deprecated));
    forall id, f | id in st.instances && f in st.instances[id].fields ensures !LostAt(after, id, f) {
      CurrentAt(st, id);
    }
  }

  /** Importing the definition of an instance that has fields, or deprecating it, makes every later export
      of the store unrestorable, although no field has lost its secret. */
  lemma ImportBlocksRestore(src: Store, slug: string, deprecated: bool, snap: Snapshot, dst: Store, system: Ids)
    requires StoreOk(src) && Current(src) && UsesDefinition(src, slug, deprecated)
    requires IsExport(Perform(src, ImportDefinition(slug, deprecated)), snap)
    requires dst.reference == Perform(src, ImportDefinition(slug, deprecated)).reference
    requires SeededTarget(dst, snap) && SystemIdsAre(dst, system)
    ensures !HasLostField(Perform(src, ImportDefinition(slug, deprecated)))
    ensures RestoreSnapshot(dst, snap, system).Failed?
    ensures RestoreSnapshot(dst, snap, system).code == if deprecated then DefinitionDeprecated else FieldNotFound
  {
    var after := Perform(src, ImportDefinition(slug, deprecated));
    hide *;
    ImportLosesNoSecret(src, slug, deprecated);
    ImportNotRestorable(src, slug, deprecated);
    forall id | id in after.instances
      ensures NoneOr(ItemRefusal(after.reference, InstanceItemIn(after, after.instances[id])), ImportError(deprecated))
    {
      ImportFacts(src, slug, deprecated);
      ImportedItemRefusal(src, slug, deprecated, id);
    }
    RefusedWith(after, snap, dst, system, ImportError(deprecated));
  }

  lemma ImportNotRestorable(src: Store, slug: string, deprecated: bool)
    requires StoreOk(src) && Current(src) && UsesDefinition(src, slug, deprecated)
    ensures var after := Perform(src, ImportDefinition(slug, deprecated));
      StoreOk(after) && !Restorable(after)
  {
    var call := ImportDefinition(slug, deprecated);
    hide *;
    assert Breaks(src, call) by { ImportIsBreaking(src, slug, deprecated); }
    ImportFacts(src, slug, deprecated);
    CallKeepsStore(src, call);
    StaysCurrentExactly(src, call);
    CurrentTypes(src, Perform(src, call));
  }

  lemma ImportIsBreaking(src: Store, slug: string, deprecated: bool)
    requires UsesDefinition(src, slug, deprecated)
    ensures Breaks(src, ImportDefinition(slug, deprecated))
  {
    hide UsesDefinition;
  }

  // ----- A store with a revoked secret -----

  const DEMO_REFERENCE := Reference(map["demo" := Definition(map["apikey" := "api_key"], false)], {}, {})

  const DEMO_FIELD := Field("api_key", NO_FIELD_VALUE, Some(7), map[])

  const DEMO_INSTANCE := Instance("Demo", "demo", true, true, true, true, 50, None, DEFAULT_LIMITS, None, None,
                                  Some(DEFAULT_RSS), {}, {}, map["apikey" := DEMO_FIELD])

  const DEMO_STORE := Store(DEMO_REFERENCE, map[], {}, map[], map[], map[], map[1 := DEMO_INSTANCE], map[], 9)

  const DEMO_COLUMNS := InstanceColumns("demo", "enabled", "enabled", "enabled", "enabled", 50, None, DEFAULT_LIMITS)

  const DEMO_ITEM := InstanceItem("Demo", DEMO_COLUMNS, None, None, Some(true), Some(900), [], [],
                                  [FieldItem("apikey", "api_key", NO_FIELD_VALUE, None)])

  const DEMO_TARGET := Store(DEMO_REFERENCE, map[], {}, map[], map[], map[], map[], map[7 := "api_key"], 8)

  lemma DemoStoreOk()
    ensures StoreOk(DEMO_STORE) && HasLostField(DEMO_STORE) && !Restorable(DEMO_STORE)
  {
    assert LostAt(DEMO_STORE, 1, "apikey");
    assert !AcceptedAt(DEMO_STORE, 1, "apikey");
    assert !Fits(DEMO_STORE, 1);
  }

  lemma DemoItem()
    ensures InstanceItemIn(DEMO_STORE, DEMO_INSTANCE) == DEMO_ITEM
  {
    var f := FieldItem("apikey", "api_key", NO_FIELD_VALUE, None);
    assert FieldItems(DEMO_STORE, DEMO_INSTANCE) == map["apikey" := f];
    OneByName("apikey", f);
    NothingNamed<FieldItem>();
    assert {} * DEMO_STORE.tags.Keys == {};
    hide ByName, SortedNames;
  }

  lemma OneByName<V(!new)>(name: string, v: V)
    ensures ByName(map[name := v]) == [v]
  {
    StrOrder();
    assert Ascending({name}, StrLess) == [name] by { AscendingOfElements([name], {name}, StrLess); }
    assert map[name := v].Keys == {name};
  }

  /** One instance whose API key was revoked: a valid store whose exported item no target accepts. */
  lemma LostFieldExample()
    ensures StoreOk(DEMO_STORE) && HasLostField(DEMO_STORE)
    ensures InstanceItemIn(DEMO_STORE, DEMO_INSTANCE) == DEMO_ITEM
    ensures RestoreInstance(DEMO_TARGET, DEMO_ITEM, map[], map[], []).Failed?
    ensures RestoreInstance(DEMO_TARGET, DEMO_ITEM, map[], map[], []).code == FieldRequiresSecret
  {
    hide *;
    DemoStoreOk();
    DemoItem();
    DemoItemOk();
    DemoRefused();
    InstanceRestored(DEMO_TARGET, DEMO_ITEM, map[], map[], []);
  }

  lemma DemoItemOk()
    ensures InstanceItemOk(DEMO_TARGET, DEMO_ITEM) && LinksKnown(DEMO_TARGET, map[], map[], DEMO_ITEM)
    ensures !InstanceNamed(DEMO_TARGET, DEMO_ITEM.displayName)
  {
    assert Elements([]) == {};
  }

  lemma DemoRefused()
    ensures ItemRefusal(DEMO_TARGET.reference, DEMO_ITEM) == Some(FieldRequiresSecret)
  {
    var types := TypesIn(DEMO_REFERENCE, "demo");
    assert types == map["apikey" := "api_key"];
    assert FieldRefusal(types, DEMO_ITEM.fields[0]) == Some(FieldRequiresSecret);
  }

  // ----- Limits are not sent back -----

  /** A snapshot with other limits than the default ones restores, but nothing the restored store can
      export is that snapshot. */
  lemma OtherLimitsLost(dst: Store, snap: Snapshot, system: Ids, again: Snapshot)
    requires SnapshotOk(dst.reference, snap) && SeededTarget(dst, snap) && SystemIdsAre(dst, system)
    requires ItemsRefusal(dst.reference, snap.instances).None?
    requires exists i :: i in snap.instances && i.columns.limits != DEFAULT_LIMITS
    ensures var r := RestoreSnapshot(dst, snap, system);
      r.Done? && (IsExport(r.st, again) ==> again != snap)
  {
    SnapshotRestored(dst, snap, system);
    var st := RestoreSnapshot(dst, snap, system).st;
    hide SnapshotOk, SeededTarget, SystemIdsAre, ItemsRefusal, RestoreSnapshot, TagsListed, RateLimitsListed,
      PoliciesListed, SecretsListed, InstancesListed, InstanceItemIn, InstancesAfter;
    if IsExport(st, snap) {
      var i :| i in snap.instances && i.columns.limits != DEFAULT_LIMITS;
      var id := ItemOrigin(st, snap.instances, i);
      ItemListed(st, InstancesAfter(dst.reference, dst.secrets, snap.instances), id);
      AfterItem(dst.reference, dst.secrets, snap.instances, i);
    }
  }

  const LIMITED_ITEM := InstanceItem("Demo", DEMO_COLUMNS.(limits := Limits(6000, 15000, 2)), None, None,
                                     Some(true), Some(900), [], [], [])

  const LIMITED_SNAPSHOT := Snapshot([], [], [], [LIMITED_ITEM], [])

  /** Such a snapshot: one instance whose connection timeout was raised. */
  lemma LimitsExample(again: Snapshot)
    ensures var r := RestoreSnapshot(DEMO_TARGET, LIMITED_SNAPSHOT, map[]);
      r.Done? && (IsExport(r.st, again) ==> again != LIMITED_SNAPSHOT)
  {
    assert LIMITED_ITEM in LIMITED_SNAPSHOT.instances;
    assert LIMITED_SNAPSHOT.instances[1..] == [];
    assert ItemRefusal(DEMO_REFERENCE, LIMITED_ITEM).None?;
    assert Elements([]) == {};
    assert SnapshotOk(DEMO_REFERENCE, LIMITED_SNAPSHOT);
    hide SnapshotOk, RestoreSnapshot, IsExport, ItemRefusal;
    OtherLimitsLost(DEMO_TARGET, LIMITED_SNAPSHOT, map[], again);
  }

  // ----- A field bound under two types -----

  /** The definition gives the field another secret type, and the field is bound again. */
  function Retype(st: Store, id: Uuid, name: string, fieldType: string, secretId: Uuid): seq<Call>
    requires id in st.instances
  {
    var slug := st.instances[id].upstreamSlug;
    [ImportDefinition(slug, false), AddDefinitionField(slug, name, fieldType), BindField(id, name, secretId)]
  }

  /** The field is bound to a live secret, and could be bound to another under another type. */
  predicate Rebindable(st: Store, id: Uuid, name: string, fieldType: string, secretId: Uuid) {
    && id in st.instances && name in st.instances[id].fields && secretId in st.secrets && SecretType(fieldType)
    && var f := st.instances[id].fields[name];
    && f.fieldType != fieldType && f.secretId.Some? && f.secretId.value in st.secrets && f.secretId.value != secretId
  }

  lemma RetypedDefinition(st: Store, slug: string, name: string, fieldType: string)
    ensures var after := Perform(Perform(st, ImportDefinition(slug, false)), AddDefinitionField(slug, name, fieldType));
      && after == st.(reference := after.reference) && TypesIn(after.reference, slug) == map[name := fieldType]
  {
  }

  lemma Rebound(st: Store, id: Uuid, name: string, fieldType: string, secretId: Uuid)
    requires Rebindable(st, id, name, fieldType, secretId)
    requires TypesIn(st.reference, st.instances[id].upstreamSlug) == map[name := fieldType]
    ensures var after := Perform(st, BindField(id, name, secretId));
      && after.secrets == st.secrets && id in after.instances && name in after.instances[id].fields
      && var f := after.instances[id].fields[name];
      f.secretId == Some(secretId) && st.instances[id].fields[name].secretId.value in f.older.Values
  {
    var was := st.instances[id].fields[name];
    var f := Perform(st, BindField(id, name, secretId)).instances[id].fields[name];
    assert was.fieldType in f.older && f.older[was.fieldType] == was.secretId.value;
  }

  lemma TwoSecrets(st: Store, id: Uuid, name: string, b: Uuid)
    requires id in st.instances && name in st.instances[id].fields && b in st.secrets
    requires var f := st.instances[id].fields[name];
      f.secretId.Some? && f.secretId.value in st.secrets && b in f.older.Values && b != f.secretId.value
    ensures !OneSecretEach(st)
  {
    var f := st.instances[id].fields[name];
    assert f.secretId in Bindings(f) && Some(b) in Bindings(f);
    hide Bindings;
    assert !OneSecret(st, f);
  }

  /** Binding a field again after its definition gave it another secret type leaves both bindings: the
      secret an export names then depends on the order of the joined rows. */
  lemma ReboundFieldExports(st: Store, id: Uuid, name: string, fieldType: string, secretId: Uuid,
    rows: seq<InstanceRow>)
    requires StoreOk(st) && Rebindable(st, id, name, fieldType, secretId)
    requires forall r :: r in rows <==> InInstanceJoin(PerformAll(st, Retype(st, id, name, fieldType, secretId)), r)
    ensures !InstanceOrderFree(rows)
  {
    var after := PerformAll(st, Retype(st, id, name, fieldType, secretId));
    hide *;
    RunKeepsStore(st, Retype(st, id, name, fieldType, secretId));
    ReboundTwice(st, id, name, fieldType, secretId);
    StoreNames(after);
    JoinOrderExact(after, rows);
  }

  lemma RunOfThree(st: Store, a: Call, b: Call, c: Call)
    ensures PerformAll(st, [a, b, c]) == Perform(Perform(Perform(st, a), b), c)
  {
    hide Perform;
    assert [a, b, c][1..] == [b, c] && [b, c][1..] == [c] && [c][1..] == [];
    var first := Perform(st, a);
    var second := Perform(first, b);
    assert PerformAll(Perform(second, c), []) == Perform(second, c);
    assert PerformAll(second, [c]) == Perform(second, c);
    assert PerformAll(first, [b, c]) == PerformAll(second, [c]);
  }

  lemma ReboundTwice(st: Store, id: Uuid, name: string, fieldType: string, secretId: Uuid)
    requires Rebindable(st, id, name, fieldType, secretId)
    ensures !OneSecretEach(PerformAll(st, Retype(st, id, name, fieldType, secretId)))
  {
    hide OneSecretEach, Perform, PerformAll, TypesIn;
    var slug := st.instances[id].upstreamSlug;
    RunOfThree(st, ImportDefinition(slug, false), AddDefinitionField(slug, name, fieldType),
      BindField(id, name, secretId));
    var second := Perform(Perform(st, ImportDefinition(slug, false)), AddDefinitionField(slug, name, fieldType));
    RetypedDefinition(st, slug, name, fieldType);
    Rebound(second, id, name, fieldType, secretId);
    TwoSecrets(Perform(second, BindField(id, name, secretId)), id, name, st.instances[id].fields[name].secretId.value);
  }

  // ----- Unresolved bindings -----

  lemma {:induction false} UnresolvedParameters(secrets: SecretTypes, name: string, items: seq<ParameterItem>,
      u: Unresolved)
    ensures u in MissingParameters(secrets, name, items) <==>
      exists q :: q in items && Missing(secrets, q.secretId)
          && u == Unresolved(RoutingPolicyEntity, name, q.key, q.secretId.value)
  {
    if items != [] {
      assert items == [items[0]] + items[1..];
      UnresolvedParameters(secrets, name, items[1..], u);
    }
  }

  lemma {:induction false} UnresolvedFields(secrets: SecretTypes, name: string, fields: seq<FieldItem>, u: Unresolved)
    ensures u in MissingFields(secrets, name, fields) <==>
      exists f :: f in fields && Missing(secrets, f.secretId)
          && u == Unresolved(IndexerInstanceEntity, name, f.name, f.secretId.value)
  {
    if fields != [] {
      assert fields == [fields[0]] + fields[1..];
      UnresolvedFields(secrets, name, fields[1..], u);
    }
  }

  ghost predicate OpenParameter(secrets: SecretTypes, p: RoutingItem, u: Unresolved) {
    exists q :: q in p.parameters && q.secretId.Some? && q.secretId.value !in secrets
        && u == Unresolved(RoutingPolicyEntity, p.displayName, q.key, q.secretId.value)
  }

  ghost predicate OpenField(secrets: SecretTypes, i: InstanceItem, u: Unresolved) {
    exists f :: f in i.fields && f.secretId.Some? && f.secretId.value !in secrets
        && u == Unresolved(IndexerInstanceEntity, i.displayName, f.name, f.secretId.value)
  }

  lemma {:induction false} UnresolvedInPolicies(secrets: SecretTypes, items: seq<RoutingItem>, u: Unresolved)
    ensures u in MissingInPolicies(secrets, items) <==> exists p :: p in items && OpenParameter(secrets, p, u)
  {
    hide OpenParameter;
    var n := |items|;
    if n > 0 {
      var last := items[n - 1];
      assert items == items[..n - 1] + [last];
      UnresolvedInPolicies(secrets, items[..n - 1], u);
      UnresolvedParameters(secrets, last.displayName, last.parameters, u);
      OpenParameterIs(secrets, last, u);
    }
  }

  lemma OpenParameterIs(secrets: SecretTypes, p: RoutingItem, u: Unresolved)
    ensures OpenParameter(secrets, p, u) <==> u in MissingParameters(secrets, p.displayName, p.parameters)
  {
    UnresolvedParameters(secrets, p.displayName, p.parameters, u);
  }

  lemma OpenFieldIs(secrets: SecretTypes, i: InstanceItem, u: Unresolved)
    ensures OpenField(secrets, i, u) <==> u in MissingFields(secrets, i.displayName, i.fields)
  {
    UnresolvedFields(secrets, i.displayName, i.fields, u);
  }

  lemma {:induction false} UnresolvedInInstances(secrets: SecretTypes, items: seq<InstanceItem>, u: Unresolved)
    ensures u in MissingInInstances(secrets, items) <==> exists i :: i in items && OpenField(secrets, i, u)
  {
    hide OpenField;
    var n := |items|;
    if n > 0 {
      var last := items[n - 1];
      assert items == items[..n - 1] + [last];
      UnresolvedInInstances(secrets, items[..n - 1], u);
      OpenFieldIs(secrets, last, u);
    }
  }

  /** A completed restore reports exactly the bindings whose secret the target does not have. */
  lemma UnresolvedExactly(secrets: SecretTypes, snap: Snapshot, u: Unresolved)
    ensures u in Completed(secrets, snap).unresolved <==>
      || (exists p :: p in snap.routing && OpenParameter(secrets, p, u))
      || (exists i :: i in snap.instances && OpenField(secrets, i, u))
  {
    hide OpenParameter, OpenField, MissingInPolicies, MissingInInstances;
    UnresolvedInPolicies(secrets, snap.routing, u);
    UnresolvedInInstances(secrets, snap.instances, u);
  }
}
