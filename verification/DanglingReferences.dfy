/** What a restore does with a snapshot whose names lead nowhere: with which error it stops, where, and what
    it leaves behind. */
module DanglingReferences {
  import opened Basics
  import opened Ordering
  import opened IndexerRecords
  import opened IndexerStore
  import opened StoreOperations
  import opened Restore
  import opened PolicyRestore
  import opened FieldRestore
  import opened InstanceRestore
  import opened SnapshotRestore
  import opened RoundTrip

  // ----- Snapshots whose references may dangle -----

  ghost predicate ShapeOk(reference: Reference, snap: Snapshot, item: InstanceItem) {
    && ColumnsOk(reference, item.columns) && RssOk(item)
    && KeysOk(item.mediaKeys, reference.mediaDomains) && KeysOk(item.tagKeys, TagKeys(snap))
    && FieldsOk(item.fields)
  }

  /** The snapshot is well-formed apart from its references. */
  ghost predicate WellFormed(reference: Reference, snap: Snapshot) {
    && Sorted(snap)
    && (forall r :: r in snap.rateLimits && !r.isSystem ==>
        LimitsInRange(r.requestsPerMinute, r.burst, r.concurrentRequests))
    && (forall p :: p in snap.routing ==> PolicyItemOk(p))
    && (forall i :: i in snap.instances ==> ShapeOk(reference, snap, i))
  }

  /** A store with seeded data only, whose rate limits are system limits that the snapshot lists. */
  ghost predicate BareTarget(dst: Store, snap: Snapshot) {
    && dst.tags == map[] && dst.deletedTags == {} && dst.deletedLimits == map[] && dst.policies == map[]
      && dst.instances == map[]
    && (forall id :: id in dst.rateLimits ==> id < dst.nextId)
    && UniqueRateLimitNames(dst) && SystemLimitsListed(dst, snap.rateLimits)
  }

  /** A system limit of which the target has none by that name. */
  ghost predicate AbsentLimit(dst: Store, item: RateLimitItem) {
    item.isSystem && forall id :: id in dst.rateLimits ==> dst.rateLimits[id].displayName != item.displayName
  }

  ghost predicate Dangles(snap: Snapshot, item: InstanceItem) {
    !LimitListed(snap, item.rateLimitName) || !PolicyListed(snap, item.routingName)
  }

  predicate IsDeprecated(reference: Reference, item: InstanceItem) {
    var slug := item.columns.upstreamSlug;
    slug in reference.definitions && reference.definitions[slug].deprecated
  }

  // ----- Lists restored in two parts -----

  lemma {:induction false} LimitsJoin(st: Store, system: Ids, a: seq<RateLimitItem>, b: seq<RateLimitItem>,
                                      made: Created)
    ensures RestoreRateLimits(st, system, a + b, made) ==
      match RestoreRateLimits(st, system, a, made)
      case Failed(s, c) => Failed(s, c)
      case Done(s, m) => RestoreRateLimits(s, system, b, m)
    decreases |a|
  {
    if a == [] {
      assert a + b == b;
    } else {
      var item := a[0];
      assert (a + b)[1..] == a[1..] + b;
      hide LimitsInRange, RateLimitNamed;
      if item.isSystem {
        if item.displayName in system {
          LimitsJoin(st, system, a[1..], b, made.(ids := made.ids[item.displayName := system[item.displayName]]));
        }
      } else {
        match RateLimitCreate(st, item.displayName, item.requestsPerMinute, item.burst, item.concurrentRequests)
        case Err(_) =>
        case Ok(st', id) =>
          LimitsJoin(st', system, a[1..], b, Created(made.count + 1, made.ids[item.displayName := id]));
      }
    }
  }

  lemma {:induction false} PoliciesJoin(st: Store, a: seq<RoutingItem>, b: seq<RoutingItem>, limits: Ids, p: Progress)
    ensures RestorePolicies(st, a + b, limits, p) ==
      match RestorePolicies(st, a, limits, p)
      case Failed(s, c) => Failed(s, c)
      case Done(s, q) => RestorePolicies(s, b, limits, q)
    decreases |a|
  {
    hide RestorePolicy;
    if a == [] {
      assert a + b == b;
    } else {
      assert (a + b)[1..] == a[1..] + b;
      match RestorePolicy(st, a[0], limits, p)
      case Failed(_, _) =>
      case Done(st', p') => PoliciesJoin(st', a[1..], b, limits, p');
    }
  }

  lemma {:induction false} InstancesJoin(st: Store, a: seq<InstanceItem>, b: seq<InstanceItem>, limits: Ids,
                                         policies: Ids, acc: Instances)
    ensures RestoreInstances(st, a + b, limits, policies, acc) ==
      match RestoreInstances(st, a, limits, policies, acc)
      case Failed(s, c) => Failed(s, c)
      case Done(s, x) => RestoreInstances(s, b, limits, policies, x)
    decreases |a|
  {
    hide RestoreInstance;
    if a == [] {
      assert a + b == b;
    } else {
      assert (a + b)[1..] == a[1..] + b;
      match RestoreInstance(st, a[0], limits, policies, acc.unresolved)
      case Failed(_, _) =>
      case Done(st', u) => InstancesJoin(st', a[1..], b, limits, policies, Instances(acc.count + 1, u));
    }
  }

  // ----- An absent system limit -----

  lemma SystemPresent(dst: Store, snap: Snapshot, item: RateLimitItem)
    requires AscendingBy(snap.rateLimits, RateLimitBefore) && SystemLimitsListed(dst, snap.rateLimits)
    requires item in snap.rateLimits && item.isSystem && !AbsentLimit(dst, item)
    ensures exists id :: Bears(dst, id, item)
  {
    var id :| id in dst.rateLimits && dst.rateLimits[id].displayName == item.displayName;
    SameNameSameLimit(snap.rateLimits, RateLimitItemOf(dst.rateLimits[id]), item);
    assert Bears(dst, id, item);
  }

  lemma SystemUsable(dst: Store, snap: Snapshot, system: Ids, item: RateLimitItem)
    requires WellFormed(dst.reference, snap) && BareTarget(dst, snap) && SystemIdsAre(dst, system)
    requires item in snap.rateLimits && !AbsentLimit(dst, item)
    ensures RateLimitItemOk(dst, system, item)
  {
    hide PolicyItemOk, ShapeOk;
    if item.isSystem {
      SystemPresent(dst, snap, item);
      var id :| Bears(dst, id, item);
      assert IsSystemId(dst, item.displayName, id);
      assert IsSystemId(dst, item.displayName, system[item.displayName]);
    }
  }

  lemma BareTags(dst: Store, snap: Snapshot)
    requires WellFormed(dst.reference, snap) && BareTarget(dst, snap)
    ensures var r := RestoreTags(dst, snap.tags, 0);
      r.Done? && r.value == |snap.tags| && TagsHeld(r.st, snap.tags) && r.st == dst.(tags := r.st.tags)
  {
    assert [] + snap.tags == snap.tags;
    TagsRestored(dst, snap.tags, 0, []);
  }

  /** The limits before position `k` are restored. */
  lemma LimitsBefore(dst: Store, st: Store, snap: Snapshot, system: Ids, k: nat)
    requires WellFormed(dst.reference, snap) && BareTarget(dst, snap) && SystemIdsAre(dst, system)
    requires k <= |snap.rateLimits| && forall j :: 0 <= j < k ==> !AbsentLimit(dst, snap.rateLimits[j])
    requires st == dst.(tags := st.tags)
    ensures var r := RestoreRateLimits(st, system, snap.rateLimits[..k], Created(0, map[]));
      r.Done? && LimitsHeld(dst, r.st, snap.rateLimits[..k])
      && r.st == st.(rateLimits := r.st.rateLimits, nextId := r.st.nextId)
  {
    hide WellFormed, BareTarget, SystemIdsAre, RateLimitItemOk, AbsentLimit, LimitsMade, RestoreRateLimits, LimitsHeld,
      SystemLimitsListed;
    var first, later := snap.rateLimits[..k], snap.rateLimits[k..];
    assert [] + first == first && [] + first + later == snap.rateLimits;
    forall i | 0 <= i < k ensures RateLimitItemOk(dst, system, first[i]) {
      SystemUsable(dst, snap, system, snap.rateLimits[i]);
    }
    NoLimitsYet(dst, st, snap);
    LimitsRestored(dst, st, system, first, Created(0, map[]), [], later);
    var r := RestoreRateLimits(st, system, first, Created(0, map[]));
    MadeHeld(dst, r.st, r.value, first);
  }

  lemma NoLimitsYet(dst: Store, st: Store, snap: Snapshot)
    requires WellFormed(dst.reference, snap) && BareTarget(dst, snap) && st == dst.(tags := st.tags)
    ensures LimitsMade(dst, st, Created(0, map[]), []) && st.deletedLimits == map[]
    ensures AscendingBy(snap.rateLimits, RateLimitBefore) && SystemLimitsListed(dst, snap.rateLimits)
  {
    hide PolicyItemOk, ShapeOk, LimitsInRange;
  }

  lemma MadeHeld(base: Store, st: Store, made: Created, done: seq<RateLimitItem>)
    requires LimitsMade(base, st, made, done)
    ensures LimitsHeld(base, st, done)
  {
  }

  /** The first listed system limit that the target lacks stops the restore: the tags are there, and the
      limits before it, but no policy and no instance. */
  lemma AbsentLimitStops(dst: Store, snap: Snapshot, system: Ids, k: nat)
    requires WellFormed(dst.reference, snap) && BareTarget(dst, snap) && SystemIdsAre(dst, system)
    requires k < |snap.rateLimits| && AbsentLimit(dst, snap.rateLimits[k])
    requires forall j :: 0 <= j < k ==> !AbsentLimit(dst, snap.rateLimits[j])
    ensures var r := RestoreSnapshot(dst, snap, system);
      && r.Failed? && r.code == RateLimitReferenceMissing
      && r.st == dst.(tags := r.st.tags, rateLimits := r.st.rateLimits, nextId := r.st.nextId)
      && TagsHeld(r.st, snap.tags) && LimitsHeld(dst, r.st, snap.rateLimits[..k])
  {
    hide WellFormed, BareTarget, SystemIdsAre, RestoreTags, RestorePolicies, RestoreInstances, TagsHeld, LimitsHeld,
      RestoreRateLimits;
    var item := snap.rateLimits[k];
    NotAmongSystem(dst, system, item);
    hide AbsentLimit;
    BareTags(dst, snap);
    var st1 := RestoreTags(dst, snap.tags, 0).st;
    LimitsBefore(dst, st1, snap, system, k);
    assert snap.rateLimits == snap.rateLimits[..k] + snap.rateLimits[k..];
    LimitsJoin(st1, system, snap.rateLimits[..k], snap.rateLimits[k..], Created(0, map[]));
    var r2 := RestoreRateLimits(st1, system, snap.rateLimits[..k], Created(0, map[]));
    AbsentNext(r2.st, system, snap.rateLimits[k..], r2.value);
    TagsStay(st1, r2.st, snap.tags);
  }

  lemma NotAmongSystem(dst: Store, system: Ids, item: RateLimitItem)
    requires SystemIdsAre(dst, system) && AbsentLimit(dst, item)
    ensures item.displayName !in system
  {
    assert item.displayName in system ==> IsSystemId(dst, item.displayName, system[item.displayName]);
  }

  lemma AbsentNext(st: Store, system: Ids, items: seq<RateLimitItem>, made: Created)
    requires items != [] && items[0].isSystem && items[0].displayName !in system
    ensures RestoreRateLimits(st, system, items, made) == Failed(st, RateLimitReferenceMissing)
  {
  }

  lemma TagsStay(st: Store, other: Store, tags: seq<TagItem>)
    requires TagsHeld(st, tags) && st.tags == other.tags
    ensures TagsHeld(other, tags)
  {
  }

  /** A listed system limit is looked up among the system limits alone, whatever else has its name. */
  lemma SystemLookup(st: Store, system: Ids, item: RateLimitItem, rest: seq<RateLimitItem>, made: Created)
    requires SystemIdsAre(st, system) && item.isSystem
    ensures var r := RestoreRateLimits(st, system, [item] + rest, made);
      if forall id :: id in st.rateLimits && st.rateLimits[id].displayName == item.displayName ==>
           !st.rateLimits[id].isSystem
      then r == Failed(st, RateLimitReferenceMissing)
      else
        exists id ::
          && id in st.rateLimits && st.rateLimits[id].displayName == item.displayName && st.rateLimits[id].isSystem
          && r == RestoreRateLimits(st, system, rest, Created(made.count, made.ids[item.displayName := id]))
  {
    var name := item.displayName;
    assert ([item] + rest)[1..] == rest;
    if id :| id in st.rateLimits && st.rateLimits[id].displayName == name && st.rateLimits[id].isSystem {
      assert IsSystemId(st, name, id);
      assert IsSystemId(st, name, system[name]);
    } else {
      NoSuchSystem(st, system, name);
    }
  }

  lemma NoSuchSystem(st: Store, system: Ids, name: string)
    requires SystemIdsAre(st, system)
    requires forall id :: id in st.rateLimits && st.rateLimits[id].displayName == name ==> !st.rateLimits[id].isSystem
    ensures name !in system
  {
    assert name in system ==> IsSystemId(st, name, system[name]);
  }

  // ----- The phases one after the other -----

  /** The first three phases lead to `st`. */
  predicate ThirdPhase(dst: Store, snap: Snapshot, system: Ids, st: Store, limits: Created, p: Progress) {
    var r1 := RestoreTags(dst, snap.tags, 0);
    r1.Done? && r1.value == |snap.tags| &&
    var r2 := RestoreRateLimits(r1.st, system, snap.rateLimits, Created(0, map[]));
    r2.Done? && r2.value == limits
    && RestorePolicies(r2.st, snap.routing, limits.ids, Progress(0, map[], [])) == Done(st, p)
  }

  /** The fourth phase put behind the others. */
  function Completion(snap: Snapshot, limits: Created, p: Progress, r: Outcome<Instances>): Outcome<Response> {
    match r
    case Failed(s, c) => Failed(s, c)
    case Done(s, x) =>
      Done(s, Response(|snap.tags|, limits.count, p.count, x.count, p.unresolved + x.unresolved))
  }

  lemma Continues(dst: Store, snap: Snapshot, system: Ids, st: Store, limits: Created, p: Progress)
    requires ThirdPhase(dst, snap, system, st, limits, p)
    ensures RestoreSnapshot(dst, snap, system) ==
      Completion(snap, limits, p, RestoreInstances(st, snap.instances, limits.ids, p.ids, Instances(0, [])))
  {
    hide RestoreTags, RestoreRateLimits, RestorePolicies, RestoreInstances;
  }

  /** What holds after three phases. */
  ghost predicate PoliciesDone(dst: Store, snap: Snapshot, st: Store, limits: Created, p: Progress) {
    && NamesMade(st, limits.ids, snap.rateLimits) && TagsHeld(st, snap.tags) && PoliciesMade(st, p, snap.routing)
    && st.instances == map[] && st.reference == dst.reference
  }

  lemma ThreePhases(dst: Store, snap: Snapshot, system: Ids) returns (st: Store, limits: Created, p: Progress)
    requires SnapshotOk(dst.reference, snap) && SeededTarget(dst, snap) && SystemIdsAre(dst, system)
    ensures ThirdPhase(dst, snap, system, st, limits, p) && PoliciesDone(dst, snap, st, limits, p)
  {
    assert dst.policies == map[] && dst.instances == map[];
    hide SnapshotOk, SeededTarget, SystemIdsAre, RestoreTags, RestoreRateLimits, RestorePolicies, HalfWay,
      PoliciesMade, NamesMade, TagsHeld, PoliciesListed, UniquePolicyNames, PoliciesAfter;
    FirstPhases(dst, snap, system);
    var r1 := RestoreTags(dst, snap.tags, 0);
    var r2 := RestoreRateLimits(r1.st, system, snap.rateLimits, Created(0, map[]));
    PolicyPhase(dst, r2.st, snap, r2.value);
    var r3 := RestorePolicies(r2.st, snap.routing, r2.value.ids, Progress(0, map[], []));
    HalfWayTags(dst, r2.st, snap, r2.value);
    st, limits, p := r3.st, r2.value, r3.value;
    TagsStay(r2.st, st, snap.tags);
  }

  lemma HalfWayTags(dst: Store, st: Store, snap: Snapshot, made: Created)
    requires HalfWay(dst, st, snap, made)
    ensures TagsHeld(st, snap.tags) && st.reference == dst.reference && st.instances == dst.instances
  {
  }

  // ----- A policy's reference -----

  /** The system limits of the snapshot are all in the target. */
  ghost predicate AllPresent(dst: Store, snap: Snapshot) {
    forall r :: r in snap.rateLimits ==> !AbsentLimit(dst, r)
  }

  lemma PresentSeeded(dst: Store, snap: Snapshot)
    requires AscendingBy(snap.rateLimits, RateLimitBefore) && BareTarget(dst, snap) && AllPresent(dst, snap)
    ensures SeededTarget(dst, snap)
  {
    hide UniqueRateLimitNames, AbsentLimit, Bears;
    forall r | r in snap.rateLimits && r.isSystem ensures exists id :: Bears(dst, id, r) {
      SystemPresent(dst, snap, r);
    }
  }

  /** The snapshot cut off before its `k`-th policy. */
  function UpToPolicy(snap: Snapshot, k: nat): Snapshot
    requires k <= |snap.routing|
  {
    snap.(routing := snap.routing[..k], instances := [])
  }

  lemma PolicyCutOk(reference: Reference, snap: Snapshot, k: nat)
    requires WellFormed(reference, snap) && k <= |snap.routing|
    requires forall j :: 0 <= j < k ==> LimitListed(snap, snap.routing[j].rateLimitName)
    ensures SnapshotOk(reference, UpToPolicy(snap, k))
  {
    hide PolicyItemOk, ShapeOk, LimitsInRange;
    var cut := UpToPolicy(snap, k);
    forall p | p in cut.routing ensures PolicyItemOk(p) && LimitListed(cut, p.rateLimitName) {
      var j :| 0 <= j < k && snap.routing[j] == p;
      assert p in snap.routing && LimitListed(snap, p.rateLimitName);
    }
  }

  lemma CutSeeded(dst: Store, snap: Snapshot, cut: Snapshot)
    requires SeededTarget(dst, snap) && cut.rateLimits == snap.rateLimits
    ensures SeededTarget(dst, cut)
  {
  }

  /** The store with one more policy that has nothing but its default parameters. */
  function WithBarePolicy(st: Store, item: RoutingItem): Store {
    st.(policies := st.policies[st.nextId := Policy(item.displayName, item.mode, None, DefaultParameters(item.mode))],
        nextId := st.nextId + 1)
  }

  lemma UnlistedName(st: Store, ids: Ids, snap: Snapshot, name: Option<string>)
    requires NamesMade(st, ids, snap.rateLimits)
    ensures name.Some? ==> (name.value in ids <==> LimitListed(snap, name))
  {
    if name.Some? && LimitListed(snap, name) { ListedIsKnown(st, snap, ids, name); }
  }

  lemma PolicyStep(st: Store, item: RoutingItem, limits: Ids, p: Progress)
    requires SupportedMode(item.mode) && !PolicyNamed(st, item.displayName)
    requires item.rateLimitName.Some? && item.rateLimitName.value !in limits
    ensures RestorePolicy(st, item, limits, p) == Failed(WithBarePolicy(st, item), RateLimitReferenceMissing)
  {
    hide DefaultParameters, PolicyNamed;
    PolicyInserted(st, item);
  }

  /** A failure among the policies from the `k`-th on is the failure of the restore. */
  lemma PoliciesFail(dst: Store, snap: Snapshot, system: Ids, k: nat, st: Store, limits: Created, p: Progress)
    requires k <= |snap.routing| && ThirdPhase(dst, UpToPolicy(snap, k), system, st, limits, p)
    requires RestorePolicies(st, snap.routing[k..], limits.ids, p).Failed?
    ensures var r := RestorePolicies(st, snap.routing[k..], limits.ids, p);
      RestoreSnapshot(dst, snap, system) == Failed(r.st, r.code)
  {
    hide RestoreTags, RestoreRateLimits, RestorePolicies, RestoreInstances;
    var r1 := RestoreTags(dst, snap.tags, 0);
    var r2 := RestoreRateLimits(r1.st, system, snap.rateLimits, Created(0, map[]));
    assert snap.routing == snap.routing[..k] + snap.routing[k..];
    PoliciesJoin(r2.st, snap.routing[..k], snap.routing[k..], limits.ids, Progress(0, map[], []));
  }

  /** Without instances the third phase is the last. */
  lemma NoInstances(dst: Store, snap: Snapshot, system: Ids, st: Store, limits: Created, p: Progress)
    requires ThirdPhase(dst, snap, system, st, limits, p) && snap.instances == []
    ensures RestoreSnapshot(dst, snap, system).Done? && RestoreSnapshot(dst, snap, system).st == st
  {
    hide ThirdPhase, RestoreSnapshot;
    Continues(dst, snap, system, st, limits, p);
  }

  lemma FirstPolicyFails(st: Store, items: seq<RoutingItem>, limits: Ids, p: Progress)
    requires items != [] && RestorePolicy(st, items[0], limits, p).Failed?
    ensures var r := RestorePolicy(st, items[0], limits, p);
      RestorePolicies(st, items, limits, p) == Failed(r.st, r.code)
  {
    hide RestorePolicy;
  }

  lemma DoneFacts(dst: Store, snap: Snapshot, st: Store, limits: Created, p: Progress)
    requires PoliciesDone(dst, snap, st, limits, p)
    ensures NamesMade(st, limits.ids, snap.rateLimits) && PoliciesMade(st, p, snap.routing)
  {
  }

  lemma NamesUnlisted(snap: Snapshot, name: Option<string>)
    requires !LimitListed(snap, name)
    ensures name.Some?
  {
  }

  /** The first policy that names a rate limit the snapshot does not list stops the restore. It stays behind
      without a limit and with its default parameters, beside what the snapshot up to there restores. */
  lemma PolicyStops(dst: Store, snap: Snapshot, system: Ids, k: nat)
    requires k < |snap.routing| && SnapshotOk(dst.reference, UpToPolicy(snap, k)) && SeededTarget(dst, snap)
    requires SystemIdsAre(dst, system)
    requires SupportedMode(snap.routing[k].mode) && !LimitListed(snap, snap.routing[k].rateLimitName)
    requires forall j :: 0 <= j < k ==> snap.routing[j].displayName != snap.routing[k].displayName
    ensures var before := RestoreSnapshot(dst, UpToPolicy(snap, k), system);
      && before.Done? && Restored(dst, before.st, UpToPolicy(snap, k))
      && RestoreSnapshot(dst, snap, system) ==
         Failed(WithBarePolicy(before.st, snap.routing[k]), RateLimitReferenceMissing)
  {
    hide SnapshotOk, SeededTarget, SystemIdsAre, SupportedMode, LimitListed, Restored, RestoreSnapshot, ThirdPhase,
      PoliciesDone, WithBarePolicy, RestorePolicy, RestorePolicies, NamesMade, PoliciesMade;
    var cut, item := UpToPolicy(snap, k), snap.routing[k];
    CutSeeded(dst, snap, cut);
    SnapshotRestored(dst, cut, system);
    var st, limits, p := ThreePhases(dst, cut, system);
    NoInstances(dst, cut, system, st, limits, p);
    DoneFacts(dst, cut, st, limits, p);
    NamesUnlisted(snap, item.rateLimitName);
    UnlistedName(st, limits.ids, snap, item.rateLimitName);
    NotNamed(st, p, cut.routing, item.displayName);
    PolicyStep(st, item, limits.ids, p);
    FirstPolicyFails(st, snap.routing[k..], limits.ids, p);
    PoliciesFail(dst, snap, system, k, st, limits, p);
  }

  // ----- An instance's references -----

  /** The snapshot cut off before its `k`-th instance. */
  function UpToInstance(snap: Snapshot, k: nat): Snapshot
    requires k <= |snap.instances|
  {
    snap.(instances := snap.instances[..k])
  }

  /** Every policy names a limit that the snapshot lists, or none. */
  ghost predicate PoliciesRefer(snap: Snapshot) {
    forall p :: p in snap.routing ==> LimitListed(snap, p.rateLimitName)
  }

  lemma InstanceCutOk(reference: Reference, snap: Snapshot, k: nat)
    requires WellFormed(reference, snap) && PoliciesRefer(snap) && k <= |snap.instances|
    requires forall j :: 0 <= j < k ==> !Dangles(snap, snap.instances[j])
    ensures SnapshotOk(reference, UpToInstance(snap, k))
  {
    hide PolicyItemOk, LimitsInRange, ColumnsOk, RssOk, KeysOk, FieldsOk;
    var cut := UpToInstance(snap, k);
    assert TagKeys(cut) == TagKeys(snap);
    forall i | i in cut.instances ensures ItemOk(reference, cut, i) {
      var j :| 0 <= j < k && snap.instances[j] == i;
      assert i in snap.instances && !Dangles(snap, i);
      assert LimitListed(cut, i.rateLimitName) && PolicyListed(cut, i.routingName);
    }
    forall p | p in cut.routing ensures PolicyItemOk(p) && LimitListed(cut, p.rateLimitName) {
      assert p in snap.routing && LimitListed(snap, p.rateLimitName);
    }
  }

  /** The instance that creation and update leave: the columns of the item, its policy and the table's own
      limits, but no rate limit, no keys and no fields, and the subscription on exactly when instance and RSS are. */
  ghost predicate CreatedOnly(st: Store, item: InstanceItem, inst: Instance) {
    var c := item.columns;
    var on, rss := c.instanceStatus == "enabled", c.rssStatus == "enabled";
    && inst == Instance(
         item.displayName, c.upstreamSlug, on, rss, c.automaticSearchStatus == "enabled",
         c.interactiveSearchStatus == "enabled", c.priority, c.trustTierKey, Limits(5000, 15000, 2),
         inst.routingId, None, Some(Rss(on && rss, 900)), {}, {}, map[])
    && (inst.routingId.Some? <==> item.routingName.Some?)
    && (inst.routingId.Some? ==>
          inst.routingId.value in st.policies
          && st.policies[inst.routingId.value].displayName == item.routingName.value)
  }

  function WithCreated(st: Store, inst: Instance): Store {
    st.(instances := st.instances[st.nextId := inst], nextId := st.nextId + 1)
  }

  lemma CreatedShows(st: Store, item: InstanceItem, policies: Ids)
    requires PoliciesResolve(st, policies) && LimitKnown(policies, item.routingName)
    ensures CreatedOnly(st, item, CreatedInstance(item, policies))
    ensures Grown(st, CreatedInstance(item, policies)) == WithCreated(st, CreatedInstance(item, policies))
  {
  }

  lemma UnlistedPolicyStep(st: Store, item: InstanceItem, limits: Ids, policies: Ids, u: seq<Unresolved>)
    requires item.routingName.Some? && item.routingName.value !in policies
    ensures RestoreInstance(st, item, limits, policies, u) == Failed(st, RoutingPolicyReferenceMissing)
  {
  }

  lemma DeprecatedStep(st: Store, item: InstanceItem, limits: Ids, policies: Ids, u: seq<Unresolved>)
    requires LimitKnown(policies, item.routingName) && IsDeprecated(st.reference, item)
    ensures RestoreInstance(st, item, limits, policies, u) == Failed(st, DefinitionDeprecated)
  {
  }

  lemma UnlistedLimitStep(st: Store, item: InstanceItem, limits: Ids, policies: Ids, u: seq<Unresolved>)
    requires ColumnsOk(st.reference, item.columns) && LimitsResolve(st, limits) && PoliciesResolve(st, policies)
    requires LimitKnown(policies, item.routingName) && !IsDeprecated(st.reference, item)
    requires item.rateLimitName.Some? && item.rateLimitName.value !in limits && !InstanceNamed(st, item.displayName)
    ensures RestoreInstance(st, item, limits, policies, u) ==
      Failed(WithCreated(st, CreatedInstance(item, policies)), RateLimitReferenceMissing)
    ensures CreatedOnly(st, item, CreatedInstance(item, policies))
  {
    var unlimited := item.(rateLimitName := None);
    CreatedShows(st, item, policies);
    assert CreatedInstance(unlimited, policies) == CreatedInstance(item, policies);
    SameCreation(st, item, policies);
    hide LimitsResolve, InstanceNamed, CreatedInstance, CreatedOnly, Grown, WithCreated, CreateInstance, ColumnsOk;
    InstanceCreated(st, unlimited, limits, policies);
  }

  lemma SameCreation(st: Store, item: InstanceItem, policies: Ids)
    ensures CreateInstance(st, item.(rateLimitName := None), policies) == CreateInstance(st, item, policies)
  {
    hide InstanceCreate, InstanceUpdate;
  }

  /** What becomes of the instance at which the restore stops. */
  ghost predicate InstanceStop(before: Store, snap: Snapshot, item: InstanceItem, r: Outcome<Response>) {
    if !PolicyListed(snap, item.routingName) then r == Failed(before, RoutingPolicyReferenceMissing)
    else if IsDeprecated(before.reference, item) then r == Failed(before, DefinitionDeprecated)
    else if !LimitListed(snap, item.rateLimitName) then
      exists inst ::
        CreatedOnly(before, item, inst) && r == Failed(WithCreated(before, inst), RateLimitReferenceMissing)
    else r.Failed? && Some(r.code) == FieldsRefusal(TypesIn(before.reference, item.columns.upstreamSlug), item.fields)
  }

  /** The instances before position `k` refer to what is listed and fit their definitions. */
  ghost predicate FineUpTo(reference: Reference, snap: Snapshot, k: nat)
    requires k <= |snap.instances|
  {
    forall j :: 0 <= j < k ==> !Dangles(snap, snap.instances[j]) && ItemRefusal(reference, snap.instances[j]).None?
  }

  lemma {:induction false} NoneRefused(reference: Reference, items: seq<InstanceItem>)
    requires forall j :: 0 <= j < |items| ==> ItemRefusal(reference, items[j]).None?
    ensures ItemsRefusal(reference, items).None?
  {
    hide ItemRefusal;
    if items != [] { NoneRefused(reference, items[1..]); }
  }

  /** Where the restore stands before its `k`-th instance. */
  ghost predicate Reached(dst: Store, snap: Snapshot, system: Ids, k: nat, st: Store, limits: Created, p: Progress,
                          acc: Instances)
    requires k <= |snap.instances|
  {
    var before := RestoreSnapshot(dst, UpToInstance(snap, k), system);
    && before.Done? && before.st == st && Restored(dst, st, UpToInstance(snap, k))
    && NamesMade(st, limits.ids, snap.rateLimits) && TagsHeld(st, snap.tags)
    && PoliciesMade(st, p, snap.routing) && InstancesMade(st, acc, snap.instances[..k])
    && RestoreSnapshot(dst, snap, system) ==
       Completion(snap, limits, p, RestoreInstances(st, snap.instances[k..], limits.ids, p.ids, acc))
  }

  lemma CutPhases(dst: Store, snap: Snapshot, system: Ids, k: nat, st: Store, limits: Created, p: Progress)
    requires k <= |snap.instances| && ThirdPhase(dst, UpToInstance(snap, k), system, st, limits, p)
    ensures ThirdPhase(dst, snap, system, st, limits, p)
  {
    hide RestoreTags, RestoreRateLimits, RestorePolicies;
  }

  lemma InstancesReached(dst: Store, snap: Snapshot, system: Ids, k: nat)
    returns (st: Store, limits: Created, p: Progress, acc: Instances)
    requires k <= |snap.instances| && SnapshotOk(dst.reference, UpToInstance(snap, k)) && SeededTarget(dst, snap)
    requires SystemIdsAre(dst, system) && FineUpTo(dst.reference, snap, k)
    ensures Reached(dst, snap, system, k, st, limits, p, acc)
  {
    hide SnapshotOk, SeededTarget, SystemIdsAre, Restored, PoliciesMade, InstancesMade, ItemsRefusal,
      NamesMade, TagsHeld, ThirdPhase, RestoreInstances, RestoreSnapshot, Dangles, ItemRefusal;
    var cut, rest := UpToInstance(snap, k), snap.instances[k..];
    CutSeeded(dst, snap, cut);
    NoneRefused(dst.reference, cut.instances);
    SnapshotRestored(dst, cut, system);
    var third;
    third, limits, p := ThreePhases(dst, cut, system);
    InstancesPhase(third, cut, limits.ids, p);
    var r4 := RestoreInstances(third, cut.instances, limits.ids, p.ids, Instances(0, []));
    st, acc := r4.st, r4.value;
    Continues(dst, cut, system, third, limits, p);
    CutPhases(dst, snap, system, k, third, limits, p);
    Continues(dst, snap, system, third, limits, p);
    assert snap.instances == cut.instances + rest;
    InstancesJoin(third, cut.instances, rest, limits.ids, p.ids, Instances(0, []));
    NamesStay(third, st, limits.ids, snap.rateLimits);
    TagsStay(third, st, snap.tags);
    PoliciesStay(third, st, p, snap.routing);
  }

  lemma PoliciesStay(st: Store, other: Store, p: Progress, items: seq<RoutingItem>)
    requires PoliciesMade(st, p, items) && st.(instances := other.instances, nextId := other.nextId) == other
    ensures PoliciesMade(other, p, items)
  {
    hide PolicyItem, PolicyAfter, MissingInPolicies;
    forall item | item in items
      ensures PolicyItem(other, other.policies[p.ids[item.displayName]]) == PolicyAfter(other.secrets, item)
    {
      SameDocument(st, other, st.policies[p.ids[item.displayName]]);
    }
  }

  lemma UnlistedPolicy(st: Store, p: Progress, snap: Snapshot, name: Option<string>)
    requires PoliciesMade(st, p, snap.routing)
    ensures PoliciesResolve(st, p.ids) && (PolicyListed(snap, name) <==> LimitKnown(p.ids, name))
  {
    hide PolicyItem, PolicyAfter, MissingInPolicies;
  }

  lemma ItemComplete(reference: Reference, snap: Snapshot, item: InstanceItem)
    requires WellFormed(reference, snap) && item in snap.instances
    ensures ShapeOk(reference, snap, item) && ColumnsOk(reference, item.columns)
    ensures !Dangles(snap, item) ==> ItemOk(reference, snap, item)
  {
    hide PolicyItemOk, LimitsInRange, ColumnsOk, RssOk, KeysOk, FieldsOk;
  }

  lemma MadeMatch(st: Store, acc: Instances, made: seq<InstanceItem>)
    requires InstancesMade(st, acc, made)
    ensures InstancesMatch(st, made)
  {
    hide InstancesMatch;
  }

  lemma NameUnused(st: Store, snap: Snapshot, acc: Instances, k: nat)
    requires AscendingBy(snap.instances, InstanceBefore) && k < |snap.instances|
    requires InstancesMade(st, acc, snap.instances[..k])
    ensures !InstanceNamed(st, snap.instances[k].displayName)
  {
    hide InstancesMade, InstancesMatch, InstanceNamed;
    var item, made := snap.instances[k], snap.instances[..k];
    forall m | m in made ensures m.displayName != item.displayName {
      var j :| 0 <= j < k && snap.instances[j] == m;
      assert InstanceBefore(snap.instances[j], item);
      StrLessIrreflexive(item.displayName);
    }
    MadeMatch(st, acc, made);
    UnusedName(st, made, item.displayName);
  }

  /** The restore of the instance at which it stops, as `InstanceStop` says. */
  lemma StepStops(st: Store, snap: Snapshot, limits: Ids, p: Progress, item: InstanceItem, u: seq<Unresolved>)
    requires ColumnsOk(st.reference, item.columns) && (!Dangles(snap, item) ==> ItemOk(st.reference, snap, item))
    requires NamesMade(st, limits, snap.rateLimits) && TagsHeld(st, snap.tags) && PoliciesMade(st, p, snap.routing)
    requires !InstanceNamed(st, item.displayName)
    requires Dangles(snap, item) || ItemRefusal(st.reference, item).Some?
    ensures var r := RestoreInstance(st, item, limits, p.ids, u);
      r.Failed? && InstanceStop(st, snap, item, Failed(r.st, r.code))
  {
    UnlistedPolicy(st, p, snap, item.routingName);
    UnlistedName(st, limits, snap, item.rateLimitName);
    assert LimitsResolve(st, limits);
    hide PoliciesMade, NamesMade, TagsHeld, ColumnsOk, InstanceNamed, ItemOk, LimitsResolve, PoliciesResolve,
      RestoreInstance, CreatedOnly, WithCreated, FieldsRefusal;
    if !PolicyListed(snap, item.routingName) {
      UnlistedPolicyStep(st, item, limits, p.ids, u);
    } else if IsDeprecated(st.reference, item) {
      DeprecatedStep(st, item, limits, p.ids, u);
    } else if !LimitListed(snap, item.rateLimitName) {
      UnlistedLimitStep(st, item, limits, p.ids, u);
    } else {
      ItemAccepted(st, snap, limits, p, item);
      InstanceRestored(st, item, limits, p.ids, u);
    }
  }

  lemma FirstFails(st: Store, items: seq<InstanceItem>, limits: Ids, policies: Ids, acc: Instances)
    requires items != [] && RestoreInstance(st, items[0], limits, policies, acc.unresolved).Failed?
    ensures var r := RestoreInstance(st, items[0], limits, policies, acc.unresolved);
      RestoreInstances(st, items, limits, policies, acc) == Failed(r.st, r.code)
  {
    hide RestoreInstance;
  }

  lemma RestoredReference(dst: Store, st: Store, snap: Snapshot)
    requires Restored(dst, st, snap)
    ensures st.reference == dst.reference
  {
  }

  lemma InstancesSorted(reference: Reference, snap: Snapshot)
    requires WellFormed(reference, snap)
    ensures AscendingBy(snap.instances, InstanceBefore)
  {
  }

  /** The first instance that names something unlisted, or that its definition refuses, stops the restore.
      What the snapshot up to there restores stays; so does the instance itself, without its links, when
      it is its rate limit that is not listed. */
  lemma InstanceStops(dst: Store, snap: Snapshot, system: Ids, k: nat)
    requires WellFormed(dst.reference, snap) && PoliciesRefer(snap) && SeededTarget(dst, snap)
    requires SystemIdsAre(dst, system) && k < |snap.instances| && FineUpTo(dst.reference, snap, k)
    requires Dangles(snap, snap.instances[k]) || ItemRefusal(dst.reference, snap.instances[k]).Some?
    ensures var before := RestoreSnapshot(dst, UpToInstance(snap, k), system);
      && before.Done? && Restored(dst, before.st, UpToInstance(snap, k))
      && InstanceStop(before.st, snap, snap.instances[k], RestoreSnapshot(dst, snap, system))
  {
    hide WellFormed, PoliciesRefer, SeededTarget, SystemIdsAre, SnapshotOk, Dangles, ShapeOk, ItemOk, ItemRefusal,
      ColumnsOk, NamesMade, TagsHeld, PoliciesMade, InstancesMade, RestoreSnapshot, RestoreInstances, InstanceStop,
      Restored;
    var item, rest := snap.instances[k], snap.instances[k..];
    InstanceCutOk(dst.reference, snap, k);
    ItemComplete(dst.reference, snap, item);
    InstancesSorted(dst.reference, snap);
    var st, limits, p, acc := InstancesReached(dst, snap, system, k);
    RestoredReference(dst, st, UpToInstance(snap, k));
    NameUnused(st, snap, acc, k);
    StepStops(st, snap, limits.ids, p, item, acc.unresolved);
    FirstFails(st, rest, limits.ids, p.ids, acc);
  }

  // ----- Exactly when -----

  /** The instance at position `k` is the first that stops the restore, and one of its references does so:
      a deprecated definition is found out before an unlisted limit, but after an unlisted policy. */
  ghost predicate StopsByReference(reference: Reference, snap: Snapshot, k: nat)
    requires k < |snap.instances|
  {
    && FineUpTo(reference, snap, k) && Dangles(snap, snap.instances[k])
    && (IsDeprecated(reference, snap.instances[k]) ==> !PolicyListed(snap, snap.instances[k].routingName))
  }

  predicate ReferenceError(r: Outcome<Response>) {
    r.Failed? && (r.code == RateLimitReferenceMissing || r.code == RoutingPolicyReferenceMissing)
  }

  lemma {:induction false} RefusalsAreOthers(types: FieldTypes, fields: seq<FieldItem>)
    ensures FieldsRefusal(types, fields) != Some(RateLimitReferenceMissing)
    ensures FieldsRefusal(types, fields) != Some(RoutingPolicyReferenceMissing)
  {
    if fields != [] { RefusalsAreOthers(types, fields[1..]); }
  }

  lemma FirstOf(n: nat, holds: nat -> bool) returns (k: nat)
    requires exists i: nat :: i < n && holds(i)
    ensures k < n && holds(k) && forall j: nat :: j < k ==> !holds(j)
  {
    k := 0;
    while !holds(k)
      invariant k < n && forall j: nat :: j < k ==> !holds(j)
      invariant exists i: nat :: i < n && holds(i)
      decreases n - k
    {
      k := k + 1;
    }
  }

  lemma LimitAbsent(dst: Store, snap: Snapshot, system: Ids)
    requires WellFormed(dst.reference, snap) && BareTarget(dst, snap) && SystemIdsAre(dst, system)
    requires !AllPresent(dst, snap)
    ensures var r := RestoreSnapshot(dst, snap, system);
      r.Failed? && r.code == RateLimitReferenceMissing
  {
    hide WellFormed, BareTarget, SystemIdsAre, RestoreSnapshot, AbsentLimit, LimitsHeld, TagsHeld;
    var absent := (j: nat) => j < |snap.rateLimits| && AbsentLimit(dst, snap.rateLimits[j]);
    var r :| r in snap.rateLimits && AbsentLimit(dst, r);
    var i :| 0 <= i < |snap.rateLimits| && snap.rateLimits[i] == r;
    assert absent(i);
    var k := FirstOf(|snap.rateLimits|, absent);
    forall j | 0 <= j < k ensures !AbsentLimit(dst, snap.rateLimits[j]) { assert !absent(j); }
    AbsentLimitStops(dst, snap, system, k);
  }

  lemma PolicyFacts(reference: Reference, snap: Snapshot, k: nat)
    requires WellFormed(reference, snap) && k < |snap.routing|
    ensures SupportedMode(snap.routing[k].mode)
    ensures forall j :: 0 <= j < k ==> snap.routing[j].displayName != snap.routing[k].displayName
  {
    hide ShapeOk, ParameterItemOk, LimitsInRange;
    assert PolicyItemOk(snap.routing[k]);
    forall j | 0 <= j < k ensures snap.routing[j].displayName != snap.routing[k].displayName {
      assert RoutingBefore(snap.routing[j], snap.routing[k]);
      StrLessIrreflexive(snap.routing[k].displayName);
    }
  }

  lemma PolicyDangles(dst: Store, snap: Snapshot, system: Ids)
    requires WellFormed(dst.reference, snap) && BareTarget(dst, snap) && SystemIdsAre(dst, system)
    requires SeededTarget(dst, snap) && !PoliciesRefer(snap)
    ensures var r := RestoreSnapshot(dst, snap, system);
      r.Failed? && r.code == RateLimitReferenceMissing
  {
    hide WellFormed, BareTarget, SystemIdsAre, RestoreSnapshot, SeededTarget, LimitListed, SnapshotOk, Restored,
      SupportedMode, WithBarePolicy;
    var dangles := (j: nat) => j < |snap.routing| && !LimitListed(snap, snap.routing[j].rateLimitName);
    var p :| p in snap.routing && !LimitListed(snap, p.rateLimitName);
    var i :| 0 <= i < |snap.routing| && snap.routing[i] == p;
    assert dangles(i);
    var k := FirstOf(|snap.routing|, dangles);
    forall j | 0 <= j < k ensures LimitListed(snap, snap.routing[j].rateLimitName) { assert !dangles(j); }
    PolicyFacts(dst.reference, snap, k);
    PolicyCutOk(dst.reference, snap, k);
    PolicyStops(dst, snap, system, k);
  }

  /** Some instance stops the restore by a reference. */
  ghost predicate SomeStopsByReference(reference: Reference, snap: Snapshot) {
    exists k: nat :: k < |snap.instances| && StopsByReference(reference, snap, k)
  }

  /** Some instance stops the restore by naming a policy that the snapshot does not list. */
  ghost predicate SomeStopsByPolicy(reference: Reference, snap: Snapshot) {
    exists k: nat :: k < |snap.instances| && StopsByReference(reference, snap, k)
      && !PolicyListed(snap, snap.instances[k].routingName)
  }

  lemma PolicyListedDangles(snap: Snapshot, item: InstanceItem)
    ensures !PolicyListed(snap, item.routingName) ==> Dangles(snap, item)
  {
  }

  lemma OneStops(reference: Reference, snap: Snapshot, k: nat)
    requires k < |snap.instances| && FineUpTo(reference, snap, k)
    requires Dangles(snap, snap.instances[k]) || ItemRefusal(reference, snap.instances[k]).Some?
    ensures SomeStopsByReference(reference, snap) <==> StopsByReference(reference, snap, k)
    ensures SomeStopsByPolicy(reference, snap) <==> !PolicyListed(snap, snap.instances[k].routingName)
  {
    hide Dangles, ItemRefusal, IsDeprecated, PolicyListed;
    assert forall i: nat :: i < |snap.instances| && StopsByReference(reference, snap, i) ==> i == k;
    assert !PolicyListed(snap, snap.instances[k].routingName) ==> Dangles(snap, snap.instances[k]) by {
      PolicyListedDangles(snap, snap.instances[k]);
    }
  }

  lemma StopVerdict(before: Store, snap: Snapshot, item: InstanceItem, r: Outcome<Response>)
    requires InstanceStop(before, snap, item, r)
    requires Dangles(snap, item) || ItemRefusal(before.reference, item).Some?
    ensures r.Failed?
    ensures ReferenceError(r) <==>
      Dangles(snap, item) && (IsDeprecated(before.reference, item) ==> !PolicyListed(snap, item.routingName))
    ensures r.code == RoutingPolicyReferenceMissing <==> !PolicyListed(snap, item.routingName)
  {
    RefusalsAreOthers(TypesIn(before.reference, item.columns.upstreamSlug), item.fields);
    hide FieldsRefusal, CreatedOnly, WithCreated, LimitListed, PolicyListed;
  }

  lemma InstancesVerdict(dst: Store, snap: Snapshot, system: Ids)
    requires WellFormed(dst.reference, snap) && PoliciesRefer(snap) && SeededTarget(dst, snap)
    requires SystemIdsAre(dst, system)
    ensures var r := RestoreSnapshot(dst, snap, system);
      && (ReferenceError(r) <==> SomeStopsByReference(dst.reference, snap))
      && (r.Failed? && r.code == RoutingPolicyReferenceMissing <==> SomeStopsByPolicy(dst.reference, snap))
  {
    hide WellFormed, PoliciesRefer, SeededTarget, SystemIdsAre, RestoreSnapshot, Restored, InstanceStop, Dangles,
      ItemRefusal, SnapshotOk, SomeStopsByPolicy, SomeStopsByReference;
    var n := |snap.instances|;
    var stops := (j: nat) =>
      j < n && (Dangles(snap, snap.instances[j]) || ItemRefusal(dst.reference, snap.instances[j]).Some?);
    if i: nat :| i < n && stops(i) {
      var k := FirstOf(n, stops);
      forall j | 0 <= j < k
        ensures !Dangles(snap, snap.instances[j]) && ItemRefusal(dst.reference, snap.instances[j]).None?
      {
        assert !stops(j);
      }
      InstanceStops(dst, snap, system, k);
      var before := RestoreSnapshot(dst, UpToInstance(snap, k), system).st;
      RestoredReference(dst, before, UpToInstance(snap, k));
      StopVerdict(before, snap, snap.instances[k], RestoreSnapshot(dst, snap, system));
      OneStops(dst.reference, snap, k);
    } else {
      forall j | 0 <= j < n
        ensures !Dangles(snap, snap.instances[j]) && ItemRefusal(dst.reference, snap.instances[j]).None?
      {
        assert !stops(j);
      }
      NothingStops(dst, snap, system);
    }
  }

  lemma NothingStops(dst: Store, snap: Snapshot, system: Ids)
    requires WellFormed(dst.reference, snap) && PoliciesRefer(snap) && SeededTarget(dst, snap)
    requires SystemIdsAre(dst, system) && FineUpTo(dst.reference, snap, |snap.instances|)
    ensures RestoreSnapshot(dst, snap, system).Done?
    ensures !SomeStopsByReference(dst.reference, snap) && !SomeStopsByPolicy(dst.reference, snap)
  {
    hide WellFormed, PoliciesRefer, SeededTarget, SystemIdsAre, RestoreSnapshot, Restored, SnapshotOk, Dangles,
      ItemRefusal;
    InstanceCutOk(dst.reference, snap, |snap.instances|);
    NoneRefused(dst.reference, snap.instances);
    assert UpToInstance(snap, |snap.instances|) == snap;
    SnapshotRestored(dst, snap, system);
  }

  /** A restore of a snapshot that is well-formed but for its references fails on a reference if and only if
      the target lacks a listed system limit, or a policy names a limit that is not listed, or an instance
      names a limit or a policy that is not listed and no definition refuses an instance before that. It
      reports a missing policy exactly when only instances are at fault and the first names one. */
  lemma ReferenceErrorExactly(dst: Store, snap: Snapshot, system: Ids)
    requires WellFormed(dst.reference, snap) && BareTarget(dst, snap) && SystemIdsAre(dst, system)
    ensures var r := RestoreSnapshot(dst, snap, system);
      && (ReferenceError(r) <==>
            !AllPresent(dst, snap) || !PoliciesRefer(snap) || SomeStopsByReference(dst.reference, snap))
      && (r.Failed? && r.code == RoutingPolicyReferenceMissing <==>
            AllPresent(dst, snap) && PoliciesRefer(snap) && SomeStopsByPolicy(dst.reference, snap))
  {
    assert AscendingBy(snap.rateLimits, RateLimitBefore);
    hide WellFormed, BareTarget, SystemIdsAre, RestoreSnapshot, AllPresent, PoliciesRefer, SomeStopsByReference,
      SomeStopsByPolicy, SeededTarget, AscendingBy;
    if !AllPresent(dst, snap) {
      LimitAbsent(dst, snap, system);
    } else {
      PresentSeeded(dst, snap);
      if !PoliciesRefer(snap) {
        PolicyDangles(dst, snap, system);
      } else {
        InstancesVerdict(dst, snap, system);
      }
    }
  }

  // ----- An example -----

  /** One policy that names a missing limit, restored into a store without limits and policies. */
  lemma MissingLimitExample(dst: Store)
    requires dst.policies == map[] && dst.rateLimits == map[]
    ensures var snap := Snapshot([], [], [RoutingItem("r", "http_proxy", Some("missing-rate-limit"), [])], [], []);
      RestoreSnapshot(dst, snap, map[]) == Failed(
        dst.(policies := map[dst.nextId := Policy("r", "http_proxy", None, map[
               "verify_tls" := Parameter(RoutingValue(None, None, Some(true)), None),
               "http_proxy_auth" := Parameter(RoutingValue(None, None, None), None)])],
             nextId := dst.nextId + 1),
        RateLimitReferenceMissing)
  {
    var item := RoutingItem("r", "http_proxy", Some("missing-rate-limit"), []);
    PolicyStep(dst, item, map[], Progress(0, map[], []));
    hide RestorePolicy;
    assert RestorePolicies(dst, [item], map[], Progress(0, map[], [])) == Failed(WithBarePolicy(dst, item),
      RateLimitReferenceMissing);
  }
}
