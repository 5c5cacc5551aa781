/** What a restore does to the store, phase by phase: the specification of the service methods. */
module Restore {
  import opened Basics
  import opened IndexerRecords
  import opened IndexerStore
  import opened StoreOperations

  /** A restore is not one transaction: a failure keeps what was written before it. */
  datatype Outcome<+T> = Done(st: Store, value: T) | Failed(st: Store, code: ErrorCode)

  datatype EntityType = RoutingPolicyEntity | IndexerInstanceEntity

  datatype Unresolved = Unresolved(entityType: EntityType, displayName: string, key: string, secretId: Uuid)

  type Ids = map<string, Uuid>

  datatype Created = Created(count: nat, ids: Ids)

  datatype Response = Response(
    createdTags: nat, createdRateLimits: nat, createdPolicies: nat, createdInstances: nat,
    unresolved: seq<Unresolved>)

  // ----- Tags -----

  function RestoreTags(st: Store, tags: seq<TagItem>, count: nat): Outcome<nat>
    decreases |tags|
  {
    if tags == [] then Done(st, count) else
      match TagCreate(st, tags[0].key, tags[0].displayName)
      case Err(c) => Failed(st, c)
      case Ok(st', _) => RestoreTags(st', tags[1..], count + 1)
  }

  // ----- Rate limits -----

  predicate IsSystemId(st: Store, name: string, id: Uuid) {
    id in st.rateLimits && st.rateLimits[id].isSystem && st.rateLimits[id].displayName == name
  }

  /** `existing_system_policy_ids`: one entry for every system limit of the store. */
  ghost predicate SystemIdsAre(st: Store, system: Ids) {
    && (forall n :: n in system ==> IsSystemId(st, n, system[n]))
    && (forall n, id :: IsSystemId(st, n, id) ==> n in system)
  }

  function RestoreRateLimits(st: Store, system: Ids, items: seq<RateLimitItem>, made: Created): Outcome<Created>
    decreases |items|
  {
    if items == [] then Done(st, made) else
      var item := items[0];
      if item.isSystem then
        if item.displayName !in system then Failed(st, RateLimitReferenceMissing)
        else RestoreRateLimits(st, system, items[1..],
            made.(ids := made.ids[item.displayName := system[item.displayName]]))
      else
        match RateLimitCreate(st, item.displayName, item.requestsPerMinute, item.burst, item.concurrentRequests)
        case Err(c) => Failed(st, c)
        case Ok(st', id) =>
          RestoreRateLimits(st', system, items[1..], Created(made.count + 1, made.ids[item.displayName := id]))
  }

  // ----- Routing policies -----

  function RestoreParameter(st: Store, id: Uuid, name: string, item: ParameterItem, unresolved: seq<Unresolved>)
    : Outcome<seq<Unresolved>>
  {
    var set_ := if item.value.Present() then PolicySetParam(st, id, item.key, item.value) else Ok(st, ());
    match set_
    case Err(c) => Failed(st, c)
    case Ok(st1, _) =>
      if item.secretId.None? then Done(st1, unresolved) else
        match PolicyBindSecret(st1, id, item.key, item.secretId.value)
        case Ok(st2, _) => Done(st2, unresolved)
        case Err(c) =>
          if c == SecretNotFound
          then Done(st1, unresolved + [Unresolved(RoutingPolicyEntity, name, item.key, item.secretId.value)])
          else Failed(st1, c)
  }

  function RestoreParameters(st: Store, id: Uuid, name: string, items: seq<ParameterItem>, unresolved: seq<Unresolved>)
    : Outcome<seq<Unresolved>>
    decreases |items|
  {
    if items == [] then Done(st, unresolved) else
      match RestoreParameter(st, id, name, items[0], unresolved)
      case Failed(s, c) => Failed(s, c)
      case Done(st', u) => RestoreParameters(st', id, name, items[1..], u)
  }

  /** Resolves the name by `lookup_backup_reference`; an absent name needs no lookup. */
  function LinkPolicy(st: Store, id: Uuid, rateLimitName: Option<string>, limits: Ids): Outcome<()> {
    if rateLimitName.None? then Done(st, ())
    else if rateLimitName.value !in limits then Failed(st, RateLimitReferenceMissing)
    else
      match PolicySetRateLimit(st, id, limits[rateLimitName.value])
      case Err(c) => Failed(st, c)
      case Ok(st', _) => Done(st', ())
  }

  datatype Progress = Progress(count: nat, ids: Ids, unresolved: seq<Unresolved>)

  function RestorePolicy(st: Store, item: RoutingItem, limits: Ids, p: Progress): Outcome<Progress> {
    match PolicyCreate(st, item.displayName, item.mode)
    case Err(c) => Failed(st, c)
    case Ok(st1, id) =>
      match LinkPolicy(st1, id, item.rateLimitName, limits)
      case Failed(s, c) => Failed(s, c)
      case Done(st2, _) =>
        match RestoreParameters(st2, id, item.displayName, item.parameters, p.unresolved)
        case Failed(s, c) => Failed(s, c)
        case Done(st3, u) => Done(st3, Progress(p.count + 1, p.ids[item.displayName := id], u))
  }

  function RestorePolicies(st: Store, items: seq<RoutingItem>, limits: Ids, p: Progress): Outcome<Progress>
    decreases |items|
  {
    if items == [] then Done(st, p) else
      match RestorePolicy(st, items[0], limits, p)
      case Failed(s, c) => Failed(s, c)
      case Done(st', p') => RestorePolicies(st', items[1..], limits, p')
  }

  // ----- Indexer instances -----

  function LinkInstance(st: Store, id: Uuid, rateLimitName: Option<string>, limits: Ids): Outcome<()> {
    if rateLimitName.None? then Done(st, ())
    else if rateLimitName.value !in limits then Failed(st, RateLimitReferenceMissing)
    else
      match InstanceSetRateLimit(st, id, limits[rateLimitName.value])
      case Err(c) => Failed(st, c)
      case Ok(st', _) => Done(st', ())
  }

  function LinkMedia(st: Store, id: Uuid, keys: seq<string>): Outcome<()> {
    if keys == [] then Done(st, ()) else
      match InstanceSetMediaDomains(st, id, keys)
      case Err(c) => Failed(st, c)
      case Ok(st', _) => Done(st', ())
  }

  function LinkTags(st: Store, id: Uuid, keys: seq<string>): Outcome<()> {
    if keys == [] then Done(st, ()) else
      match InstanceSetTags(st, id, keys)
      case Err(c) => Failed(st, c)
      case Ok(st', _) => Done(st', ())
  }

  /** `restore_backup_indexer_instance_links` */
  function RestoreLinks(st: Store, id: Uuid, item: InstanceItem, limits: Ids): Outcome<()> {
    match LinkInstance(st, id, item.rateLimitName, limits)
    case Failed(s, c) => Failed(s, c)
    case Done(st1, _) =>
      match LinkMedia(st1, id, item.mediaKeys)
      case Failed(s, c) => Failed(s, c)
      case Done(st2, _) => LinkTags(st2, id, item.tagKeys)
  }

  function RestoreField(st: Store, id: Uuid, name: string, field: FieldItem, unresolved: seq<Unresolved>)
    : Outcome<seq<Unresolved>>
  {
    if field.secretId.None? then
      match FieldSetValue(st, id, field.name, field.value)
      case Err(c) => Failed(st, c)
      case Ok(st', _) => Done(st', unresolved)
    else
      match FieldBindSecret(st, id, field.name, field.secretId.value)
      case Ok(st', _) => Done(st', unresolved)
      case Err(c) =>
        if c == SecretNotFound
        then Done(st, unresolved + [Unresolved(IndexerInstanceEntity, name, field.name, field.secretId.value)])
        else Failed(st, c)
  }

  /** `restore_backup_indexer_instance_fields` */
  function RestoreFields(st: Store, id: Uuid, name: string, fields: seq<FieldItem>, unresolved: seq<Unresolved>)
    : Outcome<seq<Unresolved>>
    decreases |fields|
  {
    if fields == [] then Done(st, unresolved) else
      match RestoreField(st, id, name, fields[0], unresolved)
      case Failed(s, c) => Failed(s, c)
      case Done(st', u) => RestoreFields(st', id, name, fields[1..], u)
  }

  function RestoreRss(st: Store, id: Uuid, item: InstanceItem): Outcome<()> {
    if item.rssEnabled.None? then Done(st, ()) else
      match RssSet(st, id, item.rssEnabled.value, item.rssInterval)
      case Err(c) => Failed(st, c)
      case Ok(st', _) => Done(st', ())
  }

  function FlagsOf(c: InstanceColumns): Flags {
    Flags(c.instanceStatus == "enabled", c.rssStatus == "enabled",
          c.automaticSearchStatus == "enabled", c.interactiveSearchStatus == "enabled")
  }

  /** The update that follows the creation; the display name is not sent again. */
  function PatchOf(c: InstanceColumns, routingId: Option<Uuid>): InstancePatch {
    var f := FlagsOf(c);
    InstancePatch(None, Some(c.priority), c.trustTierKey, routingId, Some(f.isEnabled), Some(f.enableRss),
                  Some(f.enableAutomaticSearch), Some(f.enableInteractiveSearch))
  }

  function ResolvePolicy(policies: Ids, name: Option<string>): Option<Uuid>
    requires name.Some? ==> name.value in policies
  {
    if name.Some? then Some(policies[name.value]) else None
  }

  function CreateInstance(st: Store, item: InstanceItem, policies: Ids): Outcome<Uuid> {
    if item.routingName.Some? && item.routingName.value !in policies then Failed(st, RoutingPolicyReferenceMissing) else
      var routingId := ResolvePolicy(policies, item.routingName);
      var c := item.columns;
      match InstanceCreate(st, c.upstreamSlug, item.displayName, c.priority, c.trustTierKey, routingId)
      case Err(code) => Failed(st, code)
      case Ok(st1, id) =>
        match InstanceUpdate(st1, id, PatchOf(c, routingId))
        case Err(code) => Failed(st1, code)
        case Ok(st2, _) => Done(st2, id)
  }

  function RestoreInstance(st: Store, item: InstanceItem, limits: Ids, policies: Ids, unresolved: seq<Unresolved>)
    : Outcome<seq<Unresolved>>
  {
    match CreateInstance(st, item, policies)
    case Failed(s, c) => Failed(s, c)
    case Done(st1, id) =>
      match RestoreLinks(st1, id, item, limits)
      case Failed(s, c) => Failed(s, c)
      case Done(st2, _) =>
        match RestoreFields(st2, id, item.displayName, item.fields, unresolved)
        case Failed(s, c) => Failed(s, c)
        case Done(st3, u) =>
          match RestoreRss(st3, id, item)
          case Failed(s, c) => Failed(s, c)
          case Done(st4, _) => Done(st4, u)
  }

  datatype Instances = Instances(count: nat, unresolved: seq<Unresolved>)

  function RestoreInstances(st: Store, items: seq<InstanceItem>, limits: Ids, policies: Ids, acc: Instances)
    : Outcome<Instances>
    decreases |items|
  {
    if items == [] then Done(st, acc) else
      match RestoreInstance(st, items[0], limits, policies, acc.unresolved)
      case Failed(s, c) => Failed(s, c)
      case Done(st', u) => RestoreInstances(st', items[1..], limits, policies, Instances(acc.count + 1, u))
  }

  // ----- The whole restore -----

  /** `indexer_backup_restore`; `system` is the system limits listed when the second phase starts. */
  function RestoreSnapshot(st: Store, snap: Snapshot, system: Ids): Outcome<Response> {
    match RestoreTags(st, snap.tags, 0)
    case Failed(s, c) => Failed(s, c)
    case Done(st1, tagCount) =>
      match RestoreRateLimits(st1, system, snap.rateLimits, Created(0, map[]))
      case Failed(s, c) => Failed(s, c)
      case Done(st2, limits) =>
        match RestorePolicies(st2, snap.routing, limits.ids, Progress(0, map[], []))
        case Failed(s, c) => Failed(s, c)
        case Done(st3, policies) =>
          match RestoreInstances(st3, snap.instances, limits.ids, policies.ids, Instances(0, []))
          case Failed(s, c) => Failed(s, c)
          case Done(st4, instances) =>
            Done(st4, Response(tagCount, limits.count, policies.count, instances.count,
                               policies.unresolved + instances.unresolved))
  }
}
