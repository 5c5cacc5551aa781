/** Which snapshots restore, and into what. */
module RoundTrip {
  import opened Basics
  import opened Ordering
  import opened IndexerRecords
  import opened IndexerStore
  import opened StoreOperations
  import opened Restore
  import opened PolicyRestore
  import opened FieldRestore
  import opened InstanceRestore
  import opened SnapshotRestore

  // ----- Snapshots that a restore accepts -----

  ghost predicate LimitListed(snap: Snapshot, name: Option<string>) {
    name.Some? ==> exists r :: r in snap.rateLimits && r.displayName == name.value
  }

  ghost predicate PolicyListed(snap: Snapshot, name: Option<string>) {
    name.Some? ==> exists p :: p in snap.routing && p.displayName == name.value
  }

  function TagKeys(snap: Snapshot): set<string> {
    set t | t in snap.tags :: t.key
  }

  ghost predicate ItemOk(reference: Reference, snap: Snapshot, item: InstanceItem) {
    && ColumnsOk(reference, item.columns) && RssOk(item)
    && KeysOk(item.mediaKeys, reference.mediaDomains) && KeysOk(item.tagKeys, TagKeys(snap))
    && FieldsOk(item.fields)
    && LimitListed(snap, item.rateLimitName) && PolicyListed(snap, item.routingName)
  }

  ghost predicate Sorted(snap: Snapshot) {
    && AscendingBy(snap.tags, TagBefore) && AscendingBy(snap.rateLimits, RateLimitBefore)
    && AscendingBy(snap.routing, RoutingBefore) && AscendingBy(snap.instances, InstanceBefore)
  }

  ghost predicate SnapshotOk(reference: Reference, snap: Snapshot) {
    && Sorted(snap)
    && (forall r :: r in snap.rateLimits && !r.isSystem ==>
        LimitsInRange(r.requestsPerMinute, r.burst, r.concurrentRequests))
    && (forall p :: p in snap.routing ==> PolicyItemOk(p) && LimitListed(snap, p.rateLimitName))
    && (forall i :: i in snap.instances ==> ItemOk(reference, snap, i))
  }

  /** A store with seeded data only, whose system limits are those the snapshot lists. */
  ghost predicate SeededTarget(dst: Store, snap: Snapshot) {
    && dst.tags == map[] && dst.deletedTags == {} && dst.deletedLimits == map[] && dst.policies == map[]
      && dst.instances == map[]
    && (forall id :: id in dst.rateLimits ==> id < dst.nextId)
    && UniqueRateLimitNames(dst)
    && SystemLimitsListed(dst, snap.rateLimits)
    && (forall r :: r in snap.rateLimits && r.isSystem ==> exists id :: Bears(dst, id, r))
  }

  function PoliciesAfter(secrets: SecretTypes, items: seq<RoutingItem>): seq<RoutingItem> {
    seq(|items|, i requires 0 <= i < |items| => PolicyAfter(secrets, items[i]))
  }

  function InstancesAfter(reference: Reference, secrets: SecretTypes, items: seq<InstanceItem>): seq<InstanceItem> {
    seq(|items|, i requires 0 <= i < |items| => InstanceAfter(reference, secrets, items[i]))
  }

  /** The response of a restore that completes. */
  function Completed(secrets: SecretTypes, snap: Snapshot): Response {
    Response(|snap.tags|, NonSystem(snap.rateLimits), |snap.routing|, |snap.instances|,
             MissingInPolicies(secrets, snap.routing) + MissingInInstances(secrets, snap.instances))
  }

  /** What the store holds after a restore that completes. */
  ghost predicate Restored(dst: Store, st: Store, snap: Snapshot) {
    && st.reference == dst.reference && st.secrets == dst.secrets
    && TagsListed(st, snap.tags) && RateLimitsListed(st, snap.rateLimits)
    && PoliciesListed(st, PoliciesAfter(dst.secrets, snap.routing))
    && InstancesListed(st, InstancesAfter(dst.reference, dst.secrets, snap.instances))
    && UniquePolicyNames(st) && UniqueInstanceNames(st) && SinglyBound(st)
  }

  // ----- The phases put together -----

  lemma SystemFound(dst: Store, snap: Snapshot, system: Ids, item: RateLimitItem)
    requires SnapshotOk(dst.reference, snap) && SeededTarget(dst, snap) && SystemIdsAre(dst, system)
        && item in snap.rateLimits
    ensures RateLimitItemOk(dst, system, item)
  {
    hide PolicyItemOk, ItemOk, Sorted, LimitListed;
    if item.isSystem {
      var id :| Bears(dst, id, item);
      assert IsSystemId(dst, item.displayName, id);
      assert IsSystemId(dst, item.displayName, system[item.displayName]);
    }
  }

  lemma LimitsPhase(dst: Store, st: Store, snap: Snapshot, system: Ids)
    requires SnapshotOk(dst.reference, snap) && SeededTarget(dst, snap) && SystemIdsAre(dst, system)
    requires st == dst.(tags := st.tags)
    ensures var r := RestoreRateLimits(st, system, snap.rateLimits, Created(0, map[]));
      r.Done? && LimitsMade(dst, r.st, r.value, snap.rateLimits)
          && r.st == st.(rateLimits := r.st.rateLimits, nextId := r.st.nextId)
  {
    hide PolicyItemOk, ItemOk, LimitListed, RateLimitItemOk;
    forall i | 0 <= i < |snap.rateLimits| ensures RateLimitItemOk(dst, system, snap.rateLimits[i]) {
      SystemFound(dst, snap, system, snap.rateLimits[i]);
    }
    assert LimitsMade(dst, st, Created(0, map[]), []);
    assert [] + snap.rateLimits == snap.rateLimits && snap.rateLimits + [] == snap.rateLimits;
    LimitsRestored(dst, st, system, snap.rateLimits, Created(0, map[]), [], []);
  }

  lemma LimitsAreListed(dst: Store, st: Store, made: Created, items: seq<RateLimitItem>)
    requires LimitsMade(dst, st, made, items) && AscendingBy(items, RateLimitBefore) && SystemLimitsListed(dst, items)
    ensures RateLimitsListed(st, items)
  {
    forall r ensures r in items <==> exists id :: id in st.rateLimits && RateLimitItemOf(st.rateLimits[id]) == r {
      if r in items { var id :| Bears(st, id, r); }
    }
  }

  lemma ListedIsKnown(st: Store, snap: Snapshot, ids: Ids, name: Option<string>)
    requires NamesMade(st, ids, snap.rateLimits) && LimitListed(snap, name)
    ensures LimitKnown(ids, name)
  {
  }

  lemma PoliciesPhase(st: Store, snap: Snapshot, limits: Ids)
    requires SnapshotOk(st.reference, snap) && st.policies == map[] && NamesMade(st, limits, snap.rateLimits)
    ensures var r := RestorePolicies(st, snap.routing, limits, Progress(0, map[], []));
      r.Done? && PoliciesMade(r.st, r.value, snap.routing)
      && r.st == st.(policies := r.st.policies, nextId := r.st.nextId)
  {
    hide PolicyItemOk, ItemOk, LimitListed, LimitKnown, PolicyItem;
    forall p | p in snap.routing ensures LimitKnown(limits, p.rateLimitName) {
      ListedIsKnown(st, snap, limits, p.rateLimitName);
    }
    assert PoliciesMade(st, Progress(0, map[], []), []);
    assert [] + snap.routing == snap.routing;
    PoliciesRestored(st, snap.routing, limits, Progress(0, map[], []), []);
  }

  /** The policy restored from `m` exports as its restored form. */
  lemma PolicyListedBack(st: Store, p: Progress, items: seq<RoutingItem>, id: Uuid)
    requires PoliciesMade(st, p, items) && id in st.policies
    ensures PolicyItem(st, st.policies[id]) in PoliciesAfter(st.secrets, items)
  {
    hide PolicyItem, MissingInPolicies, PolicyAfter;
    var item :| item in items && item.displayName == st.policies[id].displayName;
    var i :| 0 <= i < |items| && items[i] == item;
    assert PoliciesAfter(st.secrets, items)[i] == PolicyItem(st, st.policies[id]);
  }

  lemma ListedPolicy(st: Store, p: Progress, items: seq<RoutingItem>, x: RoutingItem)
    requires PoliciesMade(st, p, items) && x in PoliciesAfter(st.secrets, items)
    ensures exists id :: id in st.policies && PolicyItem(st, st.policies[id]) == x
  {
    hide PolicyItem, MissingInPolicies, PolicyAfter;
    var i :| 0 <= i < |items| && PoliciesAfter(st.secrets, items)[i] == x;
    assert items[i] in items;
    assert p.ids[items[i].displayName] in st.policies;
  }

  lemma AfterSorted(secrets: SecretTypes, items: seq<RoutingItem>)
    requires AscendingBy(items, RoutingBefore)
    ensures AscendingBy(PoliciesAfter(secrets, items), RoutingBefore)
  {
  }

  lemma PoliciesAreListed(st: Store, p: Progress, items: seq<RoutingItem>)
    requires PoliciesMade(st, p, items) && AscendingBy(items, RoutingBefore)
    ensures PoliciesListed(st, PoliciesAfter(st.secrets, items)) && UniquePolicyNames(st)
  {
    AfterSorted(st.secrets, items);
    MadeUnique(st, p, items);
    hide PolicyItem, PoliciesMade, PoliciesAfter, UniquePolicyNames, AscendingBy;
    forall x | x in PoliciesAfter(st.secrets, items)
      ensures exists id :: id in st.policies && PolicyItem(st, st.policies[id]) == x
    {
      ListedPolicy(st, p, items, x);
    }
    forall id | id in st.policies ensures PolicyItem(st, st.policies[id]) in PoliciesAfter(st.secrets, items) {
      PolicyListedBack(st, p, items, id);
    }
  }

  lemma MadeUnique(st: Store, p: Progress, items: seq<RoutingItem>)
    requires PoliciesMade(st, p, items)
    ensures UniquePolicyNames(st)
  {
    hide PolicyItem, MissingInPolicies, PolicyAfter;
  }

  lemma InstancesPhase(st: Store, snap: Snapshot, limits: Ids, p: Progress)
    requires SnapshotOk(st.reference, snap) && st.instances == map[] && NamesMade(st, limits, snap.rateLimits)
    requires PoliciesMade(st, p, snap.routing) && TagsHeld(st, snap.tags)
    ensures var r := RestoreInstances(st, snap.instances, limits, p.ids, Instances(0, []));
      if ItemsRefusal(st.reference, snap.instances).None? then
        r.Done? && InstancesMade(r.st, r.value, snap.instances)
        && r.st == st.(instances := r.st.instances, nextId := r.st.nextId)
      else r.Failed? && r.code == ItemsRefusal(st.reference, snap.instances).value
  {
    SortedParts(st.reference, snap);
    NothingMade(st);
    ItemsOk(st.reference, snap);
    hide SnapshotOk, InstancesMade, InstanceItemOk, LinksKnown, PoliciesMade, ItemOk, NamesMade, TagsHeld,
      ItemsRefusal, AscendingBy;
    forall i | 0 <= i < |snap.instances|
      ensures InstanceItemOk(st, snap.instances[i]) && LinksKnown(st, limits, p.ids, snap.instances[i])
    {
      ItemAccepted(st, snap, limits, p, snap.instances[i]);
    }
    hide RestoreInstances;
    assert [] + snap.instances == snap.instances;
    InstancesRestored(st, snap.instances, limits, p.ids, Instances(0, []), []);
  }

  lemma NothingMade(st: Store)
    requires st.instances == map[]
    ensures InstancesMade(st, Instances(0, []), [])
  {
  }

  lemma ItemsOk(reference: Reference, snap: Snapshot)
    requires SnapshotOk(reference, snap)
    ensures forall i :: 0 <= i < |snap.instances| ==> ItemOk(reference, snap, snap.instances[i])
  {
    hide ItemOk, PolicyItemOk, LimitListed, Sorted;
  }

  lemma ItemAccepted(st: Store, snap: Snapshot, limits: Ids, p: Progress, item: InstanceItem)
    requires ItemOk(st.reference, snap, item) && NamesMade(st, limits, snap.rateLimits)
    requires PoliciesMade(st, p, snap.routing) && TagsHeld(st, snap.tags)
    ensures InstanceItemOk(st, item) && LinksKnown(st, limits, p.ids, item)
  {
    hide ColumnsOk, FieldsOk, RssOk, PolicyItem, MissingInPolicies;
    ListedIsKnown(st, snap, limits, item.rateLimitName);
    assert PoliciesResolve(st, p.ids);
    forall k | k in TagKeys(snap) ensures k in st.tags {
      var t :| t in snap.tags && t.key == k;
    }
  }

  lemma AfterAscending(reference: Reference, secrets: SecretTypes, items: seq<InstanceItem>)
    requires AscendingBy(items, InstanceBefore)
    ensures AscendingBy(InstancesAfter(reference, secrets, items), InstanceBefore)
  {
  }

  lemma AfterItem(reference: Reference, secrets: SecretTypes, items: seq<InstanceItem>, x: InstanceItem)
    ensures x in InstancesAfter(reference, secrets, items) <==>
      exists m :: m in items && InstanceAfter(reference, secrets, m) == x
  {
    hide InstanceAfter;
    var after := InstancesAfter(reference, secrets, items);
    if x in after {
      var i :| 0 <= i < |after| && after[i] == x;
      assert items[i] in items;
    }
    if m :| m in items && InstanceAfter(reference, secrets, m) == x {
      var i :| 0 <= i < |items| && items[i] == m;
      assert after[i] == x;
    }
  }

  lemma AfterIsInstance(st: Store, items: seq<InstanceItem>, x: InstanceItem)
    requires InstancesMatch(st, items) && x in InstancesAfter(st.reference, st.secrets, items)
    ensures exists id :: id in st.instances && InstanceItemIn(st, st.instances[id]) == x
  {
    hide InstanceItemIn, InstanceAfter, InstancesAfter;
    AfterItem(st.reference, st.secrets, items, x);
    var m :| m in items && InstanceAfter(st.reference, st.secrets, m) == x;
    var id :| Matches(st, id, m);
  }

  lemma InstanceIsAfter(st: Store, items: seq<InstanceItem>, id: Uuid)
    requires InstancesMatch(st, items) && id in st.instances
    ensures InstanceItemIn(st, st.instances[id]) in InstancesAfter(st.reference, st.secrets, items)
  {
    hide InstanceItemIn, InstanceAfter, InstancesAfter;
    var m :| m in items && Matches(st, id, m);
    AfterItem(st.reference, st.secrets, items, InstanceItemIn(st, st.instances[id]));
  }

  lemma InstancesAreListed(st: Store, items: seq<InstanceItem>)
    requires InstancesMatch(st, items) && AscendingBy(items, InstanceBefore)
    ensures InstancesListed(st, InstancesAfter(st.reference, st.secrets, items))
  {
    AfterAscending(st.reference, st.secrets, items);
    hide *;
    forall x | x in InstancesAfter(st.reference, st.secrets, items)
      ensures exists id :: id in st.instances && InstanceItemIn(st, st.instances[id]) == x
    {
      AfterIsInstance(st, items, x);
    }
    forall id | id in st.instances
      ensures InstanceItemIn(st, st.instances[id]) in InstancesAfter(st.reference, st.secrets, items)
    {
      InstanceIsAfter(st, items, id);
    }
    ListedBothWays(st, InstancesAfter(st.reference, st.secrets, items));
  }

  lemma ListedBothWays(st: Store, items: seq<InstanceItem>)
    requires AscendingBy(items, InstanceBefore)
    requires forall x :: x in items ==> exists id :: id in st.instances && InstanceItemIn(st, st.instances[id]) == x
    requires forall id :: id in st.instances ==> InstanceItemIn(st, st.instances[id]) in items
    ensures InstancesListed(st, items)
  {
    hide InstanceItemIn, AscendingBy;
  }

  /** Documents of policies do not see instances. */
  lemma PoliciesStayListed(st: Store, other: Store, items: seq<RoutingItem>)
    requires PoliciesListed(st, items) && st.(instances := other.instances, nextId := other.nextId) == other
    ensures PoliciesListed(other, items)
  {
    hide PolicyItem;
    forall p: Policy | true ensures PolicyItem(st, p) == PolicyItem(other, p) { SameDocument(st, other, p); }
  }

  /** The store between the second and the third phase. */
  ghost predicate HalfWay(dst: Store, st: Store, snap: Snapshot, made: Created) {
    && st == dst.(tags := st.tags, rateLimits := st.rateLimits, nextId := st.nextId)
    && TagsHeld(st, snap.tags) && RateLimitsListed(st, snap.rateLimits)
    && NamesMade(st, made.ids, snap.rateLimits) && made.count == NonSystem(snap.rateLimits)
  }

  lemma FirstPhases(dst: Store, snap: Snapshot, system: Ids)
    requires SnapshotOk(dst.reference, snap) && SeededTarget(dst, snap) && SystemIdsAre(dst, system)
    ensures var r1 := RestoreTags(dst, snap.tags, 0);
      r1.Done? && r1.value == |snap.tags|
      && var r2 := RestoreRateLimits(r1.st, system, snap.rateLimits, Created(0, map[]));
         r2.Done? && HalfWay(dst, r2.st, snap, r2.value)
  {
    SortedParts(dst.reference, snap);
    TagsPhase(dst, snap);
    SeededLimits(dst, snap);
    var st1 := RestoreTags(dst, snap.tags, 0).st;
    hide SnapshotOk, SeededTarget, SystemIdsAre, RestoreTags, RestoreRateLimits, TagsHeld, RateLimitsListed, LimitsMade,
      NamesMade, NonSystem, AscendingBy, SystemLimitsListed;
    LimitsPhase(dst, st1, snap, system);
    var r2 := RestoreRateLimits(st1, system, snap.rateLimits, Created(0, map[]));
    LimitsAreListed(dst, r2.st, r2.value, snap.rateLimits);
    LimitsCounted(dst, st1, r2.st, r2.value, snap);
  }

  lemma TagsPhase(dst: Store, snap: Snapshot)
    requires SnapshotOk(dst.reference, snap) && SeededTarget(dst, snap)
    ensures var r := RestoreTags(dst, snap.tags, 0);
      r.Done? && r.value == |snap.tags| && TagsHeld(r.st, snap.tags) && r.st == dst.(tags := r.st.tags)
  {
    SortedParts(dst.reference, snap);
    assert [] + snap.tags == snap.tags;
    TagsRestored(dst, snap.tags, 0, []);
  }

  lemma SeededLimits(dst: Store, snap: Snapshot)
    requires SeededTarget(dst, snap)
    ensures SystemLimitsListed(dst, snap.rateLimits)
  {
  }

  lemma LimitsCounted(dst: Store, before: Store, st: Store, made: Created, snap: Snapshot)
    requires LimitsMade(dst, st, made, snap.rateLimits) && RateLimitsListed(st, snap.rateLimits)
    requires TagsHeld(before, snap.tags) && before == dst.(tags := before.tags)
    requires st == before.(rateLimits := st.rateLimits, nextId := st.nextId)
    ensures HalfWay(dst, st, snap, made)
  {
    hide RateLimitsListed;
  }

  lemma PolicyPhase(dst: Store, st: Store, snap: Snapshot, made: Created)
    requires SnapshotOk(dst.reference, snap) && dst.policies == map[] && HalfWay(dst, st, snap, made)
    ensures var r3 := RestorePolicies(st, snap.routing, made.ids, Progress(0, map[], []));
      r3.Done? && r3.value.count == |snap.routing|
          && r3.value.unresolved == MissingInPolicies(dst.secrets, snap.routing)
      && PoliciesMade(r3.st, r3.value, snap.routing) && r3.st == st.(policies := r3.st.policies, nextId := r3.st.nextId)
      && PoliciesListed(r3.st, PoliciesAfter(dst.secrets, snap.routing)) && UniquePolicyNames(r3.st)
      && NamesMade(r3.st, made.ids, snap.rateLimits)
  {
    SortedParts(dst.reference, snap);
    hide SnapshotOk, RateLimitItemOf, PolicyItem;
    PoliciesPhase(st, snap, made.ids);
    var r3 := RestorePolicies(st, snap.routing, made.ids, Progress(0, map[], []));
    NamesStay(st, r3.st, made.ids, snap.rateLimits);
    hide RestorePolicies, TagsHeld, RateLimitsListed, NamesMade;
    PoliciesAreListed(r3.st, r3.value, snap.routing);
  }

  lemma InstancePhase(st: Store, snap: Snapshot, limits: Ids, p: Progress)
    requires SnapshotOk(st.reference, snap) && st.instances == map[] && NamesMade(st, limits, snap.rateLimits)
    requires PoliciesMade(st, p, snap.routing) && TagsHeld(st, snap.tags)
    ensures var r4 := RestoreInstances(st, snap.instances, limits, p.ids, Instances(0, []));
      if ItemsRefusal(st.reference, snap.instances).None? then
        r4.Done? && r4.value == Instances(|snap.instances|, MissingInInstances(st.secrets, snap.instances))
        && r4.st == st.(instances := r4.st.instances, nextId := r4.st.nextId)
        && InstancesListed(r4.st, InstancesAfter(st.reference, st.secrets, snap.instances))
          && UniqueInstanceNames(r4.st)
        && SinglyBound(r4.st)
      else r4.Failed? && r4.code == ItemsRefusal(st.reference, snap.instances).value
  {
    SortedParts(st.reference, snap);
    InstancesPhase(st, snap, limits, p);
    hide SnapshotOk, PoliciesMade, NamesMade, TagsHeld, ItemsRefusal, RestoreInstances, MissingInInstances;
    if ItemsRefusal(st.reference, snap.instances).None? {
      var r4 := RestoreInstances(st, snap.instances, limits, p.ids, Instances(0, []));
      InstancesAreListed(r4.st, snap.instances);
    }
  }

  lemma Finished(dst: Store, st: Store, last: Store, snap: Snapshot)
    requires TagsHeld(st, snap.tags) && RateLimitsListed(st, snap.rateLimits) && AscendingBy(snap.tags, TagBefore)
    requires PoliciesListed(st, PoliciesAfter(dst.secrets, snap.routing)) && UniquePolicyNames(st)
    requires st.(instances := last.instances, nextId := last.nextId) == last
    requires st.secrets == dst.secrets && st.reference == dst.reference
    requires InstancesListed(last, InstancesAfter(dst.reference, dst.secrets, snap.instances))
      && UniqueInstanceNames(last)
    requires SinglyBound(last)
    ensures Restored(dst, last, snap)
  {
    PoliciesStayListed(st, last, PoliciesAfter(dst.secrets, snap.routing));
    assert UniquePolicyNames(last);
    assert RateLimitsListed(last, snap.rateLimits) by { hide RateLimitItemOf; }
    hide PoliciesListed, InstancesListed, RateLimitsListed, UniquePolicyNames, UniqueInstanceNames, SinglyBound,
      PoliciesAfter, InstancesAfter;
  }

  lemma LastPhases(dst: Store, st: Store, snap: Snapshot, made: Created)
    requires SnapshotOk(dst.reference, snap) && dst.policies == map[] && dst.instances == map[]
        && HalfWay(dst, st, snap, made)
    ensures var r3 := RestorePolicies(st, snap.routing, made.ids, Progress(0, map[], []));
      r3.Done? && r3.value.count == |snap.routing|
          && r3.value.unresolved == MissingInPolicies(dst.secrets, snap.routing)
      && var r4 := RestoreInstances(r3.st, snap.instances, made.ids, r3.value.ids, Instances(0, []));
         if ItemsRefusal(dst.reference, snap.instances).None? then
           r4.Done? && r4.value == Instances(|snap.instances|, MissingInInstances(dst.secrets, snap.instances))
           && Restored(dst, r4.st, snap)
         else r4.Failed? && r4.code == ItemsRefusal(dst.reference, snap.instances).value
  {
    SortedParts(dst.reference, snap);
    PolicyPhase(dst, st, snap, made);
    var r3 := RestorePolicies(st, snap.routing, made.ids, Progress(0, map[], []));
    assert TagsHeld(r3.st, snap.tags);
    assert RateLimitsListed(r3.st, snap.rateLimits) by { LimitsStay(st, r3.st, snap.rateLimits); }
    hide SnapshotOk, PoliciesMade, PoliciesListed, InstancesListed, TagsHeld, RateLimitsListed, NamesMade,
      UniquePolicyNames, UniqueInstanceNames, SinglyBound, ItemsRefusal, Restored, RestorePolicies,
      RestoreInstances, MissingInInstances, MissingInPolicies;
    InstancePhase(r3.st, snap, made.ids, r3.value);
    if ItemsRefusal(dst.reference, snap.instances).None? {
      var r4 := RestoreInstances(r3.st, snap.instances, made.ids, r3.value.ids, Instances(0, []));
      Finished(dst, r3.st, r4.st, snap);
    }
  }

  lemma LimitsStay(st: Store, other: Store, items: seq<RateLimitItem>)
    requires RateLimitsListed(st, items) && st.rateLimits == other.rateLimits
    ensures RateLimitsListed(other, items)
  {
  }

  /** A well-formed snapshot restores completely, unless the definitions of the target refuse one of its
      instances: then the restore fails with the first refusal. */
  lemma SnapshotRestored(dst: Store, snap: Snapshot, system: Ids)
    requires SnapshotOk(dst.reference, snap) && SeededTarget(dst, snap) && SystemIdsAre(dst, system)
    ensures var r := RestoreSnapshot(dst, snap, system);
      if ItemsRefusal(dst.reference, snap.instances).None? then
        r.Done? && r.value == Completed(dst.secrets, snap) && Restored(dst, r.st, snap)
      else r.Failed? && r.code == ItemsRefusal(dst.reference, snap.instances).value
  {
    assert dst.policies == map[] && dst.instances == map[];
    hide SnapshotOk, SeededTarget, SystemIdsAre, HalfWay, Restored, ItemsRefusal, RestoreTags, RestoreRateLimits,
      RestorePolicies, RestoreInstances, NonSystem;
    FirstPhases(dst, snap, system);
    var r1 := RestoreTags(dst, snap.tags, 0);
    var r2 := RestoreRateLimits(r1.st, system, snap.rateLimits, Created(0, map[]));
    LastPhases(dst, r2.st, snap, r2.value);
    assert r2.value.count == NonSystem(snap.rateLimits) by { HalfWayCount(dst, r2.st, snap, r2.value); }
  }

  lemma HalfWayCount(dst: Store, st: Store, snap: Snapshot, made: Created)
    requires HalfWay(dst, st, snap, made)
    ensures made.count == NonSystem(snap.rateLimits)
  {
  }

  lemma SortedParts(reference: Reference, snap: Snapshot)
    requires SnapshotOk(reference, snap)
    ensures AscendingBy(snap.tags, TagBefore) && AscendingBy(snap.rateLimits, RateLimitBefore)
    ensures AscendingBy(snap.routing, RoutingBefore) && AscendingBy(snap.instances, InstanceBefore)
  {
  }

  lemma NamesStay(st: Store, other: Store, ids: Ids, items: seq<RateLimitItem>)
    requires NamesMade(st, ids, items) && st.rateLimits == other.rateLimits
    ensures NamesMade(other, ids, items)
  {
  }
}
