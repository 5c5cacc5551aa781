/** The restore as the service runs it: loops over the snapshot, one procedure call at a time,
    against a database that each call changes in place. */
module BackupService {
  import opened Basics
  import opened IndexerRecords
  import opened IndexerStore
  import opened StoreOperations
  import opened Restore

  /** What a caller of a procedure sees. */
  datatype Answer<+T> = Accepted(value: T) | Refused(code: ErrorCode)

  function Answered<T>(r: Reply<T>): Answer<T> {
    if r.Ok? then Accepted(r.value) else Refused(r.code)
  }

  /** A method ended as the phase prescribes: same store, same value or same error. */
  ghost predicate Meets<T>(o: Outcome<T>, st: Store, a: Answer<T>) {
    match o
    case Done(s, v) => st == s && a == Accepted(v)
    case Failed(s, c) => st == s && a == Refused(c)
  }

  class Database {
    var store: Store

    constructor (store: Store)
      ensures this.store == store
    {
      this.store := store;
    }

    /** Takes the reply of a procedure and commits it. */
    method Commit<T>(r: Reply<T>) returns (a: Answer<T>)
      modifies this
      ensures store == Settled(old(store), r) && a == Answered(r)
    {
      store := Settled(store, r);
      a := Answered(r);
    }

    /** `rate_limit_policy_list`: every live limit once, in some order. */
    method RateLimitPolicyList() returns (list: seq<(Uuid, RateLimit)>)
      ensures forall p :: p in list <==> p.0 in store.rateLimits && store.rateLimits[p.0] == p.1
    {
      list := [];
      var ids := store.rateLimits.Keys;
      ghost var listed: set<Uuid> := {};
      while ids != {}
        invariant ids + listed == store.rateLimits.Keys && ids !! listed
        invariant forall p :: p in list <==> p.0 in listed && store.rateLimits[p.0] == p.1
        decreases ids
      {
        var id :| id in ids;
        list := list + [(id, store.rateLimits[id])];
        listed := listed + {id};
        ids := ids - {id};
      }
    }
  }

  class IndexerService {
    const db: Database

    constructor (db: Database)
      ensures this.db == db
    {
      this.db := db;
    }

    method RestoreBackupTags(tags: seq<TagItem>) returns (r: Answer<nat>)
      modifies db
      ensures Meets(RestoreTags(old(db.store), tags, 0), db.store, r)
    {
      var createdTagCount: nat := 0;
      for i := 0 to |tags|
        invariant RestoreTags(old(db.store), tags, 0) == RestoreTags(db.store, tags[i..], createdTagCount)
      {
        var a := db.Commit(TagCreate(db.store, tags[i].key, tags[i].displayName));
        if a.Refused? {
          return Refused(a.code);
        }
        createdTagCount := createdTagCount + 1;
      }
      r := Accepted(createdTagCount);
    }

    /** `existing_system_policy_ids` */
    method ExistingSystemPolicyIds() returns (system: Ids)
      ensures SystemIdsAre(db.store, system)
    {
      var list := db.RateLimitPolicyList();
      system := map[];
      for i := 0 to |list|
        invariant forall n :: n in system ==> IsSystemId(db.store, n, system[n])
        invariant forall k :: 0 <= k < i && list[k].1.isSystem ==> list[k].1.displayName in system
      {
        var (id, policy) := list[i];
        assert list[i] in list;
        if policy.isSystem {
          system := system[policy.displayName := id];
        }
      }
      forall n, id | IsSystemId(db.store, n, id) ensures n in system {
        assert (id, db.store.rateLimits[id]) in list;
        var k :| 0 <= k < |list| && list[k] == (id, db.store.rateLimits[id]);
      }
    }

    method RestoreBackupRateLimits(policies: seq<RateLimitItem>) returns (r: Answer<Created>, ghost system: Ids)
      modifies db
      ensures SystemIdsAre(old(db.store), system)
      ensures Meets(RestoreRateLimits(old(db.store), system, policies, Created(0, map[])), db.store, r)
    {
      var existing := ExistingSystemPolicyIds();
      system := existing;
      var rateLimitIdByName: Ids := map[];
      var count: nat := 0;
      for i := 0 to |policies|
        invariant RestoreRateLimits(old(db.store), system, policies, Created(0, map[]))
               == RestoreRateLimits(db.store, system, policies[i..], Created(count, rateLimitIdByName))
      {
        var policy := policies[i];
        if policy.isSystem {
          if policy.displayName !in existing {
            r := Refused(RateLimitReferenceMissing);
            return;
          }
          rateLimitIdByName := rateLimitIdByName[policy.displayName := existing[policy.displayName]];
        } else {
          var a := db.Commit(RateLimitCreate(db.store, policy.displayName, policy.requestsPerMinute, policy.burst,
                                             policy.concurrentRequests));
          if a.Refused? {
            r := Refused(a.code);
            return;
          }
          rateLimitIdByName := rateLimitIdByName[policy.displayName := a.value];
          count := count + 1;
        }
      }
      r := Accepted(Created(count, rateLimitIdByName));
    }

    method RestoreBackupRoutingParameter(name: string, id: Uuid, parameter: ParameterItem, unresolved: seq<Unresolved>)
      returns (r: Answer<seq<Unresolved>>)
      modifies db
      ensures Meets(RestoreParameter(old(db.store), id, name, parameter, unresolved), db.store, r)
    {
      if parameter.value.Present() {
        var a := db.Commit(PolicySetParam(db.store, id, parameter.key, parameter.value));
        if a.Refused? {
          return Refused(a.code);
        }
      }
      r := Accepted(unresolved);
      if parameter.secretId.Some? {
        var a := db.Commit(PolicyBindSecret(db.store, id, parameter.key, parameter.secretId.value));
        if a.Refused? && a.code == SecretNotFound {
          r := Accepted(unresolved + [Unresolved(RoutingPolicyEntity, name, parameter.key, parameter.secretId.value)]);
        } else if a.Refused? {
          r := Refused(a.code);
        }
      }
    }

    method RestoreBackupRoutingPolicies(policies: seq<RoutingItem>, limits: Ids) returns (r: Answer<Progress>)
      modifies db
      ensures Meets(RestorePolicies(old(db.store), policies, limits, Progress(0, map[], [])), db.store, r)
    {
      var p := Progress(0, map[], []);
      for i := 0 to |policies|
        invariant RestorePolicies(old(db.store), policies, limits, Progress(0, map[], []))
               == RestorePolicies(db.store, policies[i..], limits, p)
      {
        assert policies[i..][1..] == policies[i + 1..];
        var a := RestoreOnePolicy(policies[i], limits, p);
        if a.Refused? {
          return Refused(a.code);
        }
        p := a.value;
      }
      r := Accepted(p);
    }

    /** The body of the loop over routing policies. */
    method RestoreOnePolicy(policy: RoutingItem, limits: Ids, p: Progress) returns (r: Answer<Progress>)
      modifies db
      ensures Meets(RestorePolicy(old(db.store), policy, limits, p), db.store, r)
    {
      hide PolicyCreate, PolicySetRateLimit, RestoreParameter;
      var created := db.Commit(PolicyCreate(db.store, policy.displayName, policy.mode));
      if created.Refused? {
        return Refused(created.code);
      }
      var id := created.value;
      if policy.rateLimitName.Some? {
        if policy.rateLimitName.value !in limits {
          return Refused(RateLimitReferenceMissing);
        }
        var linked := db.Commit(PolicySetRateLimit(db.store, id, limits[policy.rateLimitName.value]));
        if linked.Refused? {
          return Refused(linked.code);
        }
      }
      var unresolved := p.unresolved;
      ghost var before := db.store;
      for i := 0 to |policy.parameters|
        invariant RestoreParameters(before, id, policy.displayName, policy.parameters, p.unresolved)
               == RestoreParameters(db.store, id, policy.displayName, policy.parameters[i..], unresolved)
      {
        assert policy.parameters[i..][1..] == policy.parameters[i + 1..];
        var a := RestoreBackupRoutingParameter(policy.displayName, id, policy.parameters[i], unresolved);
        if a.Refused? {
          return Refused(a.code);
        }
        unresolved := a.value;
      }
      r := Accepted(Progress(p.count + 1, p.ids[policy.displayName := id], unresolved));
    }

    /** `restore_backup_indexer_instance_links` */
    method RestoreBackupIndexerInstanceLinks(id: Uuid, item: InstanceItem, limits: Ids) returns (r: Answer<()>)
      modifies db
      ensures Meets(RestoreLinks(old(db.store), id, item, limits), db.store, r)
    {
      if item.rateLimitName.Some? {
        if item.rateLimitName.value !in limits {
          return Refused(RateLimitReferenceMissing);
        }
        r := db.Commit(InstanceSetRateLimit(db.store, id, limits[item.rateLimitName.value]));
        if r.Refused? {
          return;
        }
      }
      if item.mediaKeys != [] {
        r := db.Commit(InstanceSetMediaDomains(db.store, id, item.mediaKeys));
        if r.Refused? {
          return;
        }
      }
      if item.tagKeys != [] {
        r := db.Commit(InstanceSetTags(db.store, id, item.tagKeys));
        if r.Refused? {
          return;
        }
      }
      r := Accepted(());
    }

    /** `restore_backup_indexer_instance_fields` */
    method RestoreBackupIndexerInstanceFields(id: Uuid, item: InstanceItem, unresolved: seq<Unresolved>)
      returns (r: Answer<seq<Unresolved>>)
      modifies db
      ensures Meets(RestoreFields(old(db.store), id, item.displayName, item.fields, unresolved), db.store, r)
    {
      var open := unresolved;
      for i := 0 to |item.fields|
        invariant RestoreFields(old(db.store), id, item.displayName, item.fields, unresolved)
               == RestoreFields(db.store, id, item.displayName, item.fields[i..], open)
      {
        assert item.fields[i..][1..] == item.fields[i + 1..];
        var field := item.fields[i];
        if field.secretId.None? {
          var a := db.Commit(FieldSetValue(db.store, id, field.name, field.value));
          if a.Refused? {
            return Refused(a.code);
          }
        } else {
          var a := db.Commit(FieldBindSecret(db.store, id, field.name, field.secretId.value));
          if a.Refused? && a.code == SecretNotFound {
            open := open + [Unresolved(IndexerInstanceEntity, item.displayName, field.name, field.secretId.value)];
          } else if a.Refused? {
            return Refused(a.code);
          }
        }
      }
      r := Accepted(open);
    }

    /** Creation and update of one instance. */
    method CreateBackupIndexerInstance(item: InstanceItem, policies: Ids) returns (r: Answer<Uuid>)
      modifies db
      ensures Meets(CreateInstance(old(db.store), item, policies), db.store, r)
    {
      if item.routingName.Some? && item.routingName.value !in policies {
        return Refused(RoutingPolicyReferenceMissing);
      }
      var routingId := ResolvePolicy(policies, item.routingName);
      var c := item.columns;
      r := db.Commit(InstanceCreate(db.store, c.upstreamSlug, item.displayName, c.priority, c.trustTierKey, routingId));
      if r.Accepted? {
        var updated := db.Commit(InstanceUpdate(db.store, r.value, PatchOf(c, routingId)));
        if updated.Refused? {
          r := Refused(updated.code);
        }
      }
    }

    /** The body of the loop over instances. */
    method RestoreOneInstance(item: InstanceItem, limits: Ids, policies: Ids, unresolved: seq<Unresolved>)
      returns (r: Answer<seq<Unresolved>>)
      modifies db
      ensures Meets(RestoreInstance(old(db.store), item, limits, policies, unresolved), db.store, r)
    {
      hide CreateInstance, RestoreLinks, RestoreFields;
      var created := CreateBackupIndexerInstance(item, policies);
      if created.Refused? {
        return Refused(created.code);
      }
      var linked := RestoreBackupIndexerInstanceLinks(created.value, item, limits);
      if linked.Refused? {
        return Refused(linked.code);
      }
      r := RestoreBackupIndexerInstanceFields(created.value, item, unresolved);
      if r.Accepted? && item.rssEnabled.Some? {
        var subscribed := db.Commit(RssSet(db.store, created.value, item.rssEnabled.value, item.rssInterval));
        if subscribed.Refused? {
          r := Refused(subscribed.code);
        }
      }
    }

    method RestoreBackupIndexerInstances(items: seq<InstanceItem>, limits: Ids, policies: Ids)
      returns (r: Answer<Instances>)
      modifies db
      ensures Meets(RestoreInstances(old(db.store), items, limits, policies, Instances(0, [])), db.store, r)
    {
      hide RestoreInstance;
      var acc := Instances(0, []);
      for i := 0 to |items|
        invariant RestoreInstances(old(db.store), items, limits, policies, Instances(0, []))
               == RestoreInstances(db.store, items[i..], limits, policies, acc)
      {
        assert items[i..][1..] == items[i + 1..];
        var a := RestoreOneInstance(items[i], limits, policies, acc.unresolved);
        if a.Refused? {
          return Refused(a.code);
        }
        acc := Instances(acc.count + 1, a.value);
      }
      r := Accepted(acc);
    }

    /** `indexer_backup_restore` */
    method IndexerBackupRestore(snapshot: Snapshot) returns (r: Answer<Response>, ghost system: Ids)
      modifies db
      ensures SystemIdsAre(old(db.store), system)
      ensures Meets(RestoreSnapshot(old(db.store), snapshot, system), db.store, r)
    {
      ghost var start := db.store;
      var tags := RestoreBackupTags(snapshot.tags);
      SameSystem(start, snapshot.tags, 0);
      if tags.Refused? {
        system := AnySystem(start);
        r := Refused(tags.code);
        return;
      }
      var limits;
      limits, system := RestoreBackupRateLimits(snapshot.rateLimits);
      SystemStays(RestoreTags(start, snapshot.tags, 0).st, start, system);
      hide SystemIdsAre, RestoreTags, RestoreRateLimits, RestorePolicies, RestoreInstances;
      if limits.Refused? {
        r := Refused(limits.code);
        return;
      }
      var policies := RestoreBackupRoutingPolicies(snapshot.routing, limits.value.ids);
      if policies.Refused? {
        r := Refused(policies.code);
        return;
      }
      var instances := RestoreBackupIndexerInstances(snapshot.instances, limits.value.ids, policies.value.ids);
      if instances.Refused? {
        r := Refused(instances.code);
        return;
      }
      r := Accepted(Response(tags.value, limits.value.count, policies.value.count, instances.value.count,
                             policies.value.unresolved + instances.value.unresolved));
    }

    /** Restoring tags leaves the rate limits alone. */
    lemma {:induction false} SameSystem(st: Store, tags: seq<TagItem>, count: nat)
      ensures RestoreTags(st, tags, count).st.rateLimits == st.rateLimits
      decreases |tags|
    {
      if tags != [] && TagCreate(st, tags[0].key, tags[0].displayName).Ok? {
        SameSystem(TagCreate(st, tags[0].key, tags[0].displayName).st, tags[1..], count + 1);
      }
    }

    /** Every store has a table of its system limits. */
    lemma AnySystem(st: Store) returns (system: Ids)
      ensures SystemIdsAre(st, system)
    {
      var names := set id | id in st.rateLimits && st.rateLimits[id].isSystem :: st.rateLimits[id].displayName;
      forall n | n in names ensures exists id :: IsSystemId(st, n, id) {
        var id :| id in st.rateLimits && st.rateLimits[id].isSystem && st.rateLimits[id].displayName == n;
        assert IsSystemId(st, n, id);
      }
      system := map n | n in names :: var id :| IsSystemId(st, n, id); id;
    }

    lemma SystemStays(st: Store, other: Store, system: Ids)
      requires SystemIdsAre(st, system) && st.rateLimits == other.rateLimits
      ensures SystemIdsAre(other, system)
    {
      forall n, id | IsSystemId(other, n, id) ensures n in system {
        assert IsSystemId(st, n, id);
      }
      forall n | n in system ensures IsSystemId(other, n, system[n]) {
        assert IsSystemId(st, n, system[n]);
      }
    }
  }
}
