/** Restoring whole instances: creation, links, fields and subscription put together, and the list of them. */
module InstanceRestore {
  import opened Basics
  import opened Ordering
  import opened IndexerRecords
  import opened IndexerStore
  import opened StoreOperations
  import opened Restore
  import opened PolicyRestore
  import opened FieldRestore

  predicate StatusOk(text: string) { text == "enabled" || text == "disabled" }

  predicate ColumnsOk(reference: Reference, c: InstanceColumns) {
    && c.upstreamSlug in reference.definitions && 0 <= c.priority <= 100
    && (c.trustTierKey.Some? ==> c.trustTierKey.value in reference.trustTiers)
    && StatusOk(c.instanceStatus) && StatusOk(c.rssStatus)
    && StatusOk(c.automaticSearchStatus) && StatusOk(c.interactiveSearchStatus)
  }

  /** An enabled subscription needs an enabled instance with RSS on. */
  predicate RssOk(item: InstanceItem) {
    && item.rssEnabled.Some? && item.rssInterval.Some? && IntervalInRange(item.rssInterval.value)
    && (item.rssEnabled.value ==> item.columns.instanceStatus == "enabled" && item.columns.rssStatus == "enabled")
  }

  ghost predicate KeysOk(keys: seq<string>, known: set<string>) {
    AscendingBy(keys, StrLess) && Elements(keys) <= known
  }

  /** A document that restoring into `st` accepts, unless `ItemRefusal` says otherwise. */
  ghost predicate InstanceItemOk(st: Store, item: InstanceItem) {
    && ColumnsOk(st.reference, item.columns) && RssOk(item)
    && KeysOk(item.mediaKeys, st.reference.mediaDomains) && KeysOk(item.tagKeys, st.tags.Keys)
    && FieldsOk(item.fields)
  }

  /** Why the definitions of `reference` refuse the document, if they do. */
  function ItemRefusal(reference: Reference, item: InstanceItem): Option<ErrorCode> {
    var slug := item.columns.upstreamSlug;
    if slug in reference.definitions && reference.definitions[slug].deprecated then Some(DefinitionDeprecated)
    else FieldsRefusal(TypesIn(reference, slug), item.fields)
  }

  /** The first refusal in the list. */
  function ItemsRefusal(reference: Reference, items: seq<InstanceItem>): Option<ErrorCode> {
    if items == [] then None else ItemRefusal(reference, items[0]).Or(ItemsRefusal(reference, items[1..]))
  }

  ghost predicate PoliciesResolve(st: Store, policies: Ids) {
    forall n :: n in policies ==> policies[n] in st.policies && st.policies[policies[n]].displayName == n
  }

  ghost predicate LinksKnown(st: Store, limits: Ids, policies: Ids, item: InstanceItem) {
    && LimitsResolve(st, limits) && PoliciesResolve(st, policies)
    && LimitKnown(limits, item.rateLimitName) && LimitKnown(policies, item.routingName)
  }

  // ----- The stages of one instance -----

  /** After creation and update. */
  function CreatedInstance(item: InstanceItem, policies: Ids): Instance {
    var c := item.columns;
    var f := FlagsOf(c);
    Instance(item.displayName, c.upstreamSlug, f.isEnabled, f.enableRss, f.enableAutomaticSearch,
        f.enableInteractiveSearch,
             c.priority, c.trustTierKey, DEFAULT_LIMITS, ResolveLimit(policies, item.routingName), None,
             RssAfterUpdate(Some(DEFAULT_RSS), f), {}, {}, map[])
  }

  /** After the links. */
  function LinkedInstance(item: InstanceItem, limits: Ids, policies: Ids): Instance {
    CreatedInstance(item, policies).(
      rateLimitId := ResolveLimit(limits, item.rateLimitName),
      mediaKeys := Elements(item.mediaKeys), tagKeys := Elements(item.tagKeys))
  }

  /** After the fields and the subscription. */
  function NewInstance(reference: Reference, secrets: SecretTypes, item: InstanceItem, limits: Ids, policies: Ids)
    : Instance
    requires RssOk(item)
  {
    LinkedInstance(item, limits, policies).(
      fields := FieldRows(TypesIn(reference, item.columns.upstreamSlug), secrets, map[], item.fields),
      rss := Some(Rss(item.rssEnabled.value, item.rssInterval.value)))
  }

  /** The store with one more instance under the next id. */
  function Grown(st: Store, inst: Instance): Store {
    WithInstance(st.(nextId := st.nextId + 1), st.nextId, inst)
  }

  /** As `indexer_instance_create` makes it. */
  function BareInstance(item: InstanceItem, policies: Ids): Instance {
    Instance(item.displayName, item.columns.upstreamSlug, true, true, true, true, item.columns.priority,
             item.columns.trustTierKey, DEFAULT_LIMITS, ResolveLimit(policies, item.routingName), None,
             Some(DEFAULT_RSS), {}, {}, map[])
  }

  lemma InstanceInserted(st: Store, item: InstanceItem, limits: Ids, policies: Ids)
    requires ColumnsOk(st.reference, item.columns) && LinksKnown(st, limits, policies, item)
    requires !InstanceNamed(st, item.displayName) && !st.reference.definitions[item.columns.upstreamSlug].deprecated
    ensures var c := item.columns;
      InstanceCreate(st, c.upstreamSlug, item.displayName, c.priority, c.trustTierKey,
        ResolvePolicy(policies, item.routingName))
        == Ok(Grown(st, BareInstance(item, policies)), st.nextId)
  {
    hide InstanceNamed, LimitsResolve;
  }

  lemma InstancePatched(st: Store, item: InstanceItem, limits: Ids, policies: Ids)
    requires ColumnsOk(st.reference, item.columns) && LinksKnown(st, limits, policies, item)
    ensures InstanceUpdate(Grown(st, BareInstance(item, policies)), st.nextId,
                           PatchOf(item.columns, ResolvePolicy(policies, item.routingName)))
        == Ok(Grown(st, CreatedInstance(item, policies)), ())
  {
    hide LimitsResolve;
    GrownTwice(st, BareInstance(item, policies), CreatedInstance(item, policies));
  }

  lemma InstanceCreated(st: Store, item: InstanceItem, limits: Ids, policies: Ids)
    requires ColumnsOk(st.reference, item.columns) && LinksKnown(st, limits, policies, item)
    requires !InstanceNamed(st, item.displayName) && !st.reference.definitions[item.columns.upstreamSlug].deprecated
    ensures CreateInstance(st, item, policies) == Done(Grown(st, CreatedInstance(item, policies)), st.nextId)
  {
    InstanceInserted(st, item, limits, policies);
    InstancePatched(st, item, limits, policies);
    hide InstanceNamed, LimitsResolve, PoliciesResolve, ColumnsOk, Grown, CreatedInstance, BareInstance,
      InstanceCreate, InstanceUpdate, PatchOf, ResolvePolicy;
  }

  lemma InstanceLinked(st: Store, item: InstanceItem, limits: Ids, policies: Ids)
    requires LinksKnown(st, limits, policies, item)
    requires KeysOk(item.mediaKeys, st.reference.mediaDomains) && KeysOk(item.tagKeys, st.tags.Keys)
    ensures RestoreLinks(Grown(st, CreatedInstance(item, policies)), st.nextId, item, limits)
         == Done(Grown(st, LinkedInstance(item, limits, policies)), ())
  {
    var id := st.nextId;
    var a := CreatedInstance(item, policies);
    var b := a.(rateLimitId := ResolveLimit(limits, item.rateLimitName));
    var c := b.(mediaKeys := Elements(item.mediaKeys));
    var d := LinkedInstance(item, limits, policies);
    assert a.rateLimitId.None? && a.mediaKeys == {} && a.tagKeys == {};
    hide CreatedInstance, KeysOk, PoliciesResolve, AscendingBy;
    GrownTwice(st, a, b);
    GrownTwice(st, b, c);
    GrownTwice(st, c, d);
    assert LinkInstance(Grown(st, a), id, item.rateLimitName, limits) == Done(Grown(st, b), ());
    MediaLinked(st, b, c, item.mediaKeys);
    TagsLinked(st, c, d, item.tagKeys);
  }

  lemma MediaLinked(st: Store, b: Instance, c: Instance, keys: seq<string>)
    requires b.mediaKeys == {} && c == b.(mediaKeys := Elements(keys)) && KeysOk(keys, st.reference.mediaDomains)
    ensures LinkMedia(Grown(st, b), st.nextId, keys) == Done(Grown(st, c), ())
  {
    if keys == [] { assert Elements(keys) == {}; }
    GrownTwice(st, b, c);
  }

  lemma TagsLinked(st: Store, c: Instance, d: Instance, keys: seq<string>)
    requires c.tagKeys == {} && d == c.(tagKeys := Elements(keys)) && KeysOk(keys, st.tags.Keys)
    ensures LinkTags(Grown(st, c), st.nextId, keys) == Done(Grown(st, d), ())
  {
    if keys == [] { assert Elements(keys) == {}; }
    GrownTwice(st, c, d);
  }

  lemma GrownTwice(st: Store, a: Instance, b: Instance)
    ensures st.nextId in Grown(st, a).instances && Grown(st, a).instances[st.nextId] == a
    ensures WithInstance(Grown(st, a), st.nextId, b) == Grown(st, b)
    ensures Grown(st, a) == st.(instances := Grown(st, a).instances, nextId := st.nextId + 1)
  {
  }

  /** One instance restored: created in full, or refused. */
  lemma InstanceRestored(st: Store, item: InstanceItem, limits: Ids, policies: Ids, u: seq<Unresolved>)
    requires InstanceItemOk(st, item) && LinksKnown(st, limits, policies, item) && !InstanceNamed(st, item.displayName)
    ensures var r := RestoreInstance(st, item, limits, policies, u);
      if ItemRefusal(st.reference, item).None? then
        r == Done(Grown(st, NewInstance(st.reference, st.secrets, item, limits, policies)),
                  u + MissingFields(st.secrets, item.displayName, item.fields))
      else r.Failed? && r.code == ItemRefusal(st.reference, item).value
  {
    if st.reference.definitions[item.columns.upstreamSlug].deprecated {
      DeprecatedRefused(st, item, limits, policies, u);
    } else {
      FreshInstanceRestored(st, item, limits, policies, u);
    }
  }

  lemma DeprecatedRefused(st: Store, item: InstanceItem, limits: Ids, policies: Ids, u: seq<Unresolved>)
    requires ColumnsOk(st.reference, item.columns) && LinksKnown(st, limits, policies, item)
    requires st.reference.definitions[item.columns.upstreamSlug].deprecated
    ensures RestoreInstance(st, item, limits, policies, u) == Failed(st, DefinitionDeprecated)
  {
  }

  lemma FreshInstanceRestored(st: Store, item: InstanceItem, limits: Ids, policies: Ids, u: seq<Unresolved>)
    requires InstanceItemOk(st, item) && LinksKnown(st, limits, policies, item) && !InstanceNamed(st, item.displayName)
    requires !st.reference.definitions[item.columns.upstreamSlug].deprecated
    ensures var r, refusal := RestoreInstance(st, item, limits, policies, u),
          FieldsRefusal(TypesIn(st.reference, item.columns.upstreamSlug), item.fields);
      if refusal.None? then
        r == Done(Grown(st, NewInstance(st.reference, st.secrets, item, limits, policies)),
                  u + MissingFields(st.secrets, item.displayName, item.fields))
      else r.Failed? && r.code == refusal.value
  {
    var id := st.nextId;
    var types := TypesIn(st.reference, item.columns.upstreamSlug);
    var linked := LinkedInstance(item, limits, policies);
    var st2 := Grown(st, linked);
    LinkedFacts(st, item, limits, policies);
    var filled := FieldsAdded(types, st.secrets, linked, item.fields);
    hide KeysOk, LinksKnown, CreateInstance, RestoreLinks, RestoreFields, RestoreRss, FieldsRefusal, MissingFields,
      TypesIn, FieldRows, InstanceNamed, FieldsOk, RssOk, LinkedInstance, Grown, WithInstance;
    InstanceCreated(st, item, limits, policies);
    InstanceLinked(st, item, limits, policies);
    GrownTwice(st, linked, filled);
    FieldsRestored(st2, id, item.displayName, item.fields, u);
    if FieldsRefusal(types, item.fields).None? {
      RssRestored(st, filled, item);
    }
  }

  lemma LinkedFacts(st: Store, item: InstanceItem, limits: Ids, policies: Ids)
    ensures var linked := LinkedInstance(item, limits, policies);
      && linked.fields == map[] && TypesOf(Grown(st, linked), linked)
        == TypesIn(st.reference, item.columns.upstreamSlug)
      && Grown(st, linked).secrets == st.secrets
      && linked.isEnabled == (item.columns.instanceStatus == "enabled")
      && linked.enableRss == (item.columns.rssStatus == "enabled")
  {
  }

  lemma RssRestored(st: Store, inst: Instance, item: InstanceItem)
    requires RssOk(item) && inst.isEnabled == (item.columns.instanceStatus == "enabled")
    requires inst.enableRss == (item.columns.rssStatus == "enabled")
    ensures RestoreRss(Grown(st, inst), st.nextId, item)
         == Done(Grown(st, inst.(rss := Some(Rss(item.rssEnabled.value, item.rssInterval.value)))), ())
  {
    GrownTwice(st, inst, inst.(rss := Some(Rss(item.rssEnabled.value, item.rssInterval.value))));
  }

  // ----- The created instance as a document -----

  /** The document a restore can rebuild: default limits, and only the fields that were kept, under the
      types they have now. */
  function InstanceAfter(reference: Reference, secrets: SecretTypes, item: InstanceItem): InstanceItem {
    item.(columns := item.columns.(limits := DEFAULT_LIMITS),
          fields := Kept(TypesIn(reference, item.columns.upstreamSlug), secrets, item.fields))
  }

  lemma StatusKept(text: string)
    requires StatusOk(text)
    ensures StatusText(text == "enabled") == text
  {
  }

  lemma NewInstanceColumns(st: Store, item: InstanceItem, limits: Ids, policies: Ids)
    requires InstanceItemOk(st, item) && LinksKnown(st, limits, policies, item)
    ensures var inst := NewInstance(st.reference, st.secrets, item, limits, policies);
      BareInstanceItem(st, inst) == InstanceItem(
        item.displayName, item.columns.(limits := DEFAULT_LIMITS), item.routingName, item.rateLimitName,
        item.rssEnabled, item.rssInterval, [], [], [])
  {
    hide KeysOk, FieldsOk;
    StatusKept(item.columns.instanceStatus);
    StatusKept(item.columns.rssStatus);
    StatusKept(item.columns.automaticSearchStatus);
    StatusKept(item.columns.interactiveSearchStatus);
  }

  /** The created instance exports as the item it was restored from. */
  lemma NewInstanceItem(st: Store, item: InstanceItem, limits: Ids, policies: Ids)
    requires InstanceItemOk(st, item) && LinksKnown(st, limits, policies, item)
    ensures InstanceItemIn(st, NewInstance(st.reference, st.secrets, item, limits, policies))
      == InstanceAfter(st.reference, st.secrets, item)
  {
    var inst := NewInstance(st.reference, st.secrets, item, limits, policies);
    NewInstanceColumns(st, item, limits, policies);
    FieldsListed(st, inst, TypesIn(st.reference, item.columns.upstreamSlug), item.fields);
    assert inst.mediaKeys == Elements(item.mediaKeys) && inst.tagKeys == Elements(item.tagKeys);
    assert inst.tagKeys * st.tags.Keys == Elements(item.tagKeys);
    hide NewInstance, BareInstanceItem, FieldItems, ByName, SortedNames, Kept;
    SortedNamesOf(item.mediaKeys, Elements(item.mediaKeys));
    SortedNamesOf(item.tagKeys, Elements(item.tagKeys));
  }

  // ----- The list of instances -----

  function MissingInInstances(secrets: SecretTypes, items: seq<InstanceItem>): seq<Unresolved> {
    var n := |items|;
    if n == 0 then [] else
      MissingInInstances(secrets, items[..n - 1])
          + MissingFields(secrets, items[n - 1].displayName, items[n - 1].fields)
  }

  /** The instance under this id exports as the restored form of `m`. */
  predicate Matches(st: Store, id: Uuid, m: InstanceItem) {
    id in st.instances && InstanceItemIn(st, st.instances[id]) == InstanceAfter(st.reference, st.secrets, m)
  }

  /** The instances of the store are those of the items in `made`. */
  ghost predicate InstancesMatch(st: Store, made: seq<InstanceItem>) {
    && (forall id :: id in st.instances ==> exists m :: m in made && Matches(st, id, m))
    && (forall m :: m in made ==> exists id :: Matches(st, id, m))
  }

  ghost predicate InstanceIdsBelow(st: Store) {
    forall id :: id in st.instances ==> id < st.nextId
  }

  ghost predicate InstancesMade(st: Store, acc: Instances, made: seq<InstanceItem>) {
    && InstancesMatch(st, made) && InstanceIdsBelow(st) && UniqueInstanceNames(st) && SinglyBound(st)
    && acc.count == |made| && acc.unresolved == MissingInInstances(st.secrets, made)
  }

  lemma MatchedName(st: Store, id: Uuid, m: InstanceItem)
    requires Matches(st, id, m)
    ensures id in st.instances && st.instances[id].displayName == m.displayName
  {
  }

  lemma UnusedName(st: Store, made: seq<InstanceItem>, name: string)
    requires InstancesMatch(st, made) && forall m :: m in made ==> m.displayName != name
    ensures !InstanceNamed(st, name)
  {
    hide Matches;
    forall id | id in st.instances ensures st.instances[id].displayName != name {
      var m :| m in made && Matches(st, id, m);
      MatchedName(st, id, m);
    }
  }

  /** An instance's document depends on tags, rate limits, policies and secrets only. */
  lemma SameInstanceItem(st: Store, other: Store, inst: Instance)
    requires st.(instances := other.instances, nextId := other.nextId) == other
    ensures InstanceItemIn(st, inst) == InstanceItemIn(other, inst)
  {
    assert FieldItems(st, inst) == FieldItems(other, inst);
  }

  lemma StillMatches(st: Store, inst: Instance, id: Uuid, m: InstanceItem)
    requires Matches(st, id, m) && id < st.nextId
    ensures Matches(Grown(st, inst), id, m)
  {
    hide InstanceItemIn, InstanceAfter;
    GrownTwice(st, inst, inst);
    SameInstanceItem(st, Grown(st, inst), st.instances[id]);
  }

  lemma NewMatches(st: Store, inst: Instance, m: InstanceItem)
    requires InstanceItemIn(st, inst) == InstanceAfter(st.reference, st.secrets, m)
    ensures Matches(Grown(st, inst), st.nextId, m)
  {
    hide InstanceItemIn, InstanceAfter;
    GrownTwice(st, inst, inst);
    SameInstanceItem(st, Grown(st, inst), inst);
  }

  lemma MatchExtended(st: Store, made: seq<InstanceItem>, item: InstanceItem, inst: Instance)
    requires InstancesMatch(st, made) && InstanceIdsBelow(st)
    requires InstanceItemIn(st, inst) == InstanceAfter(st.reference, st.secrets, item)
    ensures InstancesMatch(Grown(st, inst), made + [item]) && InstanceIdsBelow(Grown(st, inst))
  {
    hide InstanceItemIn, InstanceAfter, Matches;
    var st' := Grown(st, inst);
    NewMatches(st, inst, item);
    forall id | id in st'.instances ensures exists m :: m in made + [item] && Matches(st', id, m) {
      if id == st.nextId {
        assert item in made + [item];
      } else {
        var m :| m in made && Matches(st, id, m);
        StillMatches(st, inst, id, m);
        assert m in made + [item];
      }
    }
    forall m | m in made + [item] ensures exists id :: Matches(st', id, m) {
      if m in made {
        var id :| Matches(st, id, m);
        MatchedName(st, id, m);
        StillMatches(st, inst, id, m);
      }
    }
  }

  lemma MadeGrown(st: Store, item: InstanceItem, acc: Instances, made: seq<InstanceItem>, inst: Instance)
    requires InstancesMade(st, acc, made) && InstanceItemIn(st, inst) == InstanceAfter(st.reference, st.secrets, item)
    requires !InstanceNamed(st, inst.displayName) && NothingOlder(inst.fields)
    ensures var st' := Grown(st, inst);
      InstancesMade(st', Instances(acc.count + 1, acc.unresolved
          + MissingFields(st.secrets, item.displayName, item.fields)),
                    made + [item])
      && st' == st.(instances := st'.instances, nextId := st.nextId + 1)
  {
    hide InstanceItemIn, InstanceAfter, InstancesMatch, InstanceIdsBelow, MissingFields, NothingOlder;
    MatchExtended(st, made, item, inst);
    UniqueGrown(st, inst);
    hide UniqueInstanceNames, InstanceNamed;
    assert (made + [item])[..|made|] == made;
  }

  lemma UniqueGrown(st: Store, inst: Instance)
    requires UniqueInstanceNames(st) && !InstanceNamed(st, inst.displayName)
    ensures UniqueInstanceNames(Grown(st, inst))
  {
  }

  lemma NewFields(reference: Reference, secrets: SecretTypes, item: InstanceItem, limits: Ids, policies: Ids)
    requires RssOk(item)
    ensures NewInstance(reference, secrets, item, limits, policies).fields
        == FieldRows(TypesIn(reference, item.columns.upstreamSlug), secrets, map[], item.fields)
  {
  }

  lemma InstanceMade(st: Store, item: InstanceItem, limits: Ids, policies: Ids, acc: Instances, made: seq<InstanceItem>)
    requires InstancesMade(st, acc, made) && forall m :: m in made ==> m.displayName != item.displayName
    requires InstanceItemOk(st, item) && LinksKnown(st, limits, policies, item)
    ensures var r := RestoreInstance(st, item, limits, policies, acc.unresolved);
      if ItemRefusal(st.reference, item).None? then
        r.Done? && InstancesMade(r.st, Instances(acc.count + 1, r.value), made + [item])
        && r.st == st.(instances := r.st.instances, nextId := st.nextId + 1)
      else r.Failed? && r.code == ItemRefusal(st.reference, item).value
  {
    assert RssOk(item);
    UnusedName(st, made, item.displayName);
    assert NothingOlder(map[]);
    assert NewInstance(st.reference, st.secrets, item, limits, policies).displayName == item.displayName;
    hide *;
    InstanceRestored(st, item, limits, policies, acc.unresolved);
    if ItemRefusal(st.reference, item).None? {
      NewInstanceItem(st, item, limits, policies);
      RowsSinglyBound(TypesIn(st.reference, item.columns.upstreamSlug), st.secrets, map[], item.fields);
      NewFields(st.reference, st.secrets, item, limits, policies);
      MadeGrown(st, item, acc, made, NewInstance(st.reference, st.secrets, item, limits, policies));
    }
  }

  /** `RestoreInstances` makes every instance, or stops at the first refused one with its error. */
  lemma {:induction false} InstancesRestored(st: Store, items: seq<InstanceItem>, limits: Ids, policies: Ids,
      acc: Instances, made: seq<InstanceItem>)
    requires InstancesMade(st, acc, made)
    requires AscendingBy(made + items, InstanceBefore)
    requires forall i :: 0 <= i < |items| ==> InstanceItemOk(st, items[i]) && LinksKnown(st, limits, policies, items[i])
    ensures var r := RestoreInstances(st, items, limits, policies, acc);
      if ItemsRefusal(st.reference, items).None? then
        r.Done? && InstancesMade(r.st, r.value, made + items)
        && r.st == st.(instances := r.st.instances, nextId := st.nextId + |items|)
      else r.Failed? && r.code == ItemsRefusal(st.reference, items).value
    decreases |items|
  {
    hide InstancesMade, InstanceItemOk, RestoreInstance, LinksKnown, ItemRefusal;
    if items == [] {
      assert made + items == made;
    } else {
      var item, rest := items[0], items[1..];
      forall m | m in made ensures m.displayName != item.displayName {
        var i :| 0 <= i < |made| && made[i] == m;
        assert InstanceBefore((made + items)[i], (made + items)[|made|]);
        StrLessIrreflexive(item.displayName);
      }
      InstanceMade(st, item, limits, policies, acc, made);
      if ItemRefusal(st.reference, item).None? {
        var r := RestoreInstance(st, item, limits, policies, acc.unresolved);
        assert made + [item] + rest == made + items;
        forall i | 0 <= i < |rest| ensures InstanceItemOk(r.st, rest[i])
            && LinksKnown(r.st, limits, policies, rest[i])
        {
          ItemStillOk(st, r.st, rest[i], limits, policies);
        }
        InstancesRestored(r.st, rest, limits, policies, Instances(acc.count + 1, r.value), made + [item]);
      }
    }
  }

  lemma ItemStillOk(st: Store, other: Store, item: InstanceItem, limits: Ids, policies: Ids)
    requires InstanceItemOk(st, item) && LinksKnown(st, limits, policies, item)
    requires st.(instances := other.instances, nextId := other.nextId) == other
    ensures InstanceItemOk(other, item) && LinksKnown(other, limits, policies, item)
  {
  }
}
