/** The abstract store behind the stored procedures: live entities with public ids, and the
    documents an export of that store must contain. */
module IndexerStore {
  import opened Basics
  import opened Ordering
  import opened IndexerRecords
  import opened RoutingExport = RoutingExport
  import I = InstanceExport

  datatype RateLimit = RateLimit(
    displayName: string, requestsPerMinute: int, burst: int, concurrentRequests: int, isSystem: bool)

  datatype Parameter = Parameter(value: RoutingValue, secretId: Option<Uuid>)

  datatype Policy = Policy(
    displayName: string, mode: string, rateLimitId: Option<Uuid>, parameters: map<string, Parameter>)

  /** A binding is stored under the secret type the field had when it was made: `secretId` is the one
      under the current type, `older` those left behind under other types. */
  datatype Field = Field(fieldType: string, value: FieldValue, secretId: Option<Uuid>, older: map<string, Uuid>)

  datatype Rss = Rss(isEnabled: bool, intervalSeconds: int)

  datatype Instance = Instance(
    displayName: string, upstreamSlug: string,
    isEnabled: bool, enableRss: bool, enableAutomaticSearch: bool, enableInteractiveSearch: bool,
    priority: int, trustTierKey: Option<string>, limits: Limits,
    routingId: Option<Uuid>, rateLimitId: Option<Uuid>, rss: Option<Rss>,
    mediaKeys: set<string>, tagKeys: set<string>, fields: map<string, Field>)

  /** An indexer definition: the type of each field, and whether new instances are refused. */
  datatype Definition = Definition(types: map<string, string>, deprecated: bool)

  /** Definitions by slug, media domains and trust tiers. */
  datatype Reference = Reference(
    definitions: map<string, Definition>, mediaDomains: set<string>, trustTiers: set<string>)

  /** Live entities by public id; `secrets` holds the type of every secret that is not revoked. The keys
      of deleted tags and the names of deleted rate limits stay taken. */
  datatype Store = Store(
    reference: Reference,
    tags: map<string, string>, deletedTags: set<string>,
    rateLimits: map<Uuid, RateLimit>, deletedLimits: map<Uuid, string>,
    policies: map<Uuid, Policy>, instances: map<Uuid, Instance>,
    secrets: map<Uuid, string>, nextId: Uuid)

  // ----- Uniqueness of names -----

  ghost predicate UniqueRateLimitNames(st: Store) {
    forall a, b ::
      a in st.rateLimits && b in st.rateLimits && st.rateLimits[a].displayName == st.rateLimits[b].displayName ==>
        a == b
  }

  ghost predicate UniquePolicyNames(st: Store) {
    forall a, b ::
      a in st.policies && b in st.policies && st.policies[a].displayName == st.policies[b].displayName ==> a == b
  }

  ghost predicate UniqueInstanceNames(st: Store) {
    forall a, b ::
      a in st.instances && b in st.instances && st.instances[a].displayName == st.instances[b].displayName ==> a == b
  }

  // ----- Bindings -----

  /** No field has a binding left under another type. */
  ghost predicate NothingOlder(fields: map<string, Field>) {
    forall f :: f in fields ==> fields[f].older == map[]
  }

  ghost predicate SinglyBound(st: Store) {
    forall id :: id in st.instances ==> NothingOlder(st.instances[id].fields)
  }

  /** Bindings are left under other types only by binding the field again. */
  predicate BoundNow(f: Field) { f.older != map[] ==> f.secretId.Some? }

  ghost predicate AllBoundNow(st: Store) {
    forall id, f :: id in st.instances && f in st.instances[id].fields ==> BoundNow(st.instances[id].fields[f])
  }

  // ----- Columns as the queries return them -----

  function StatusText(enabled: bool): string {
    if enabled then "enabled" else "disabled"
  }

  function ColumnsOf(inst: Instance): InstanceColumns {
    InstanceColumns(
      inst.upstreamSlug, StatusText(inst.isEnabled), StatusText(inst.enableRss),
      StatusText(inst.enableAutomaticSearch), StatusText(inst.enableInteractiveSearch),
      inst.priority, inst.trustTierKey, inst.limits)
  }

  function RateLimitNameIn(st: Store, id: Option<Uuid>): Option<string> {
    if id.Some? && id.value in st.rateLimits then Some(st.rateLimits[id.value].displayName) else None
  }

  function PolicyNameIn(st: Store, id: Option<Uuid>): Option<string> {
    if id.Some? && id.value in st.policies then Some(st.policies[id.value].displayName) else None
  }

  /** The join drops a secret that has been revoked. */
  function Live(secrets: map<Uuid, string>, id: Option<Uuid>): Option<Uuid> {
    if id.Some? && id.value in secrets then id else None
  }

  function LiveSecret(st: Store, id: Option<Uuid>): Option<Uuid> {
    Live(st.secrets, id)
  }

  function SecretTypeIn(st: Store, id: Option<Uuid>): Option<string> {
    if id.Some? && id.value in st.secrets then Some(st.secrets[id.value]) else None
  }

  // ----- The documents of the store -----

  function ParameterOf(st: Store, key: string, p: Parameter): ParameterItem {
    ParameterItem(key, p.value, LiveSecret(st, p.secretId))
  }

  function ParameterSet(st: Store, p: Policy): set<ParameterItem> {
    set k | k in p.parameters :: ParameterOf(st, k, p.parameters[k])
  }

  function PolicyItem(st: Store, p: Policy): RoutingItem {
    RoutingItem(p.displayName, p.mode, RateLimitNameIn(st, p.rateLimitId), SortedParameters(ParameterSet(st, p)))
  }

  function FieldItemOf(st: Store, name: string, f: Field): FieldItem {
    FieldItem(name, f.fieldType, f.value, LiveSecret(st, f.secretId))
  }

  function FieldItems(st: Store, inst: Instance): map<string, FieldItem> {
    map f | f in inst.fields :: FieldItemOf(st, f, inst.fields[f])
  }

  function RssEnabledOf(inst: Instance): Option<bool> {
    if inst.rss.Some? then Some(inst.rss.value.isEnabled) else None
  }

  function RssIntervalOf(inst: Instance): Option<int> {
    if inst.rss.Some? then Some(inst.rss.value.intervalSeconds) else None
  }

  function BareInstanceItem(st: Store, inst: Instance): InstanceItem {
    InstanceItem(inst.displayName, ColumnsOf(inst), PolicyNameIn(st, inst.routingId),
                 RateLimitNameIn(st, inst.rateLimitId), RssEnabledOf(inst), RssIntervalOf(inst), [], [], [])
  }

  function InstanceItemIn(st: Store, inst: Instance): InstanceItem {
    I.Filled(BareInstanceItem(st, inst), inst.mediaKeys, inst.tagKeys * st.tags.Keys, FieldItems(st, inst))
  }

  function RateLimitItemOf(r: RateLimit): RateLimitItem {
    RateLimitItem(r.displayName, r.requestsPerMinute, r.burst, r.concurrentRequests, r.isSystem)
  }

  // ----- Exports of the store -----

  ghost predicate TagsListed(st: Store, tags: seq<TagItem>) {
    && AscendingBy(tags, TagBefore)
    && forall t :: t in tags <==> t.key in st.tags && st.tags[t.key] == t.displayName
  }

  ghost predicate RateLimitsListed(st: Store, limits: seq<RateLimitItem>) {
    && AscendingBy(limits, RateLimitBefore)
    && forall r :: r in limits <==> exists id :: id in st.rateLimits && RateLimitItemOf(st.rateLimits[id]) == r
  }

  ghost predicate PoliciesListed(st: Store, items: seq<RoutingItem>) {
    && AscendingBy(items, RoutingBefore)
    && forall p :: p in items <==> exists id :: id in st.policies && PolicyItem(st, st.policies[id]) == p
  }

  ghost predicate InstancesListed(st: Store, items: seq<InstanceItem>) {
    && AscendingBy(items, InstanceBefore)
    && forall i :: i in items <==> exists id :: id in st.instances && InstanceItemIn(st, st.instances[id]) == i
  }

  /** Some parameter or field of the store is bound to this live secret. */
  ghost predicate Referenced(st: Store, s: SecretRef) {
    && s.id in st.secrets && st.secrets[s.id] == s.secretType
    && ((exists id, k ::
           id in st.policies && k in st.policies[id].parameters && st.policies[id].parameters[k].secretId == Some(s.id))
        || (exists id, f ::
              id in st.instances && f in st.instances[id].fields && st.instances[id].fields[f].secretId == Some(s.id)))
  }

  ghost predicate SecretsListed(st: Store, secrets: seq<SecretRef>) {
    && AscendingBy(secrets, SecretBefore)
    && forall s :: s in secrets <==> Referenced(st, s)
  }

  /** `snap` is what exporting `st` must produce. */
  ghost predicate IsExport(st: Store, snap: Snapshot) {
    && TagsListed(st, snap.tags)
    && RateLimitsListed(st, snap.rateLimits)
    && PoliciesListed(st, snap.routing)
    && InstancesListed(st, snap.instances)
    && SecretsListed(st, snap.secrets)
  }

  // ----- Row lists that the queries may return for the store -----

  ghost predicate RoutingRowOf(st: Store, r: RoutingRow) {
    && r.id in st.policies
    && var p := st.policies[r.id];
    && r.displayName == p.displayName && r.mode == p.mode
    && r.rateLimitName == RateLimitNameIn(st, p.rateLimitId)
    && r.rateLimitId == (if r.rateLimitName.Some? then p.rateLimitId else None)
    && (r.paramKey.Some? ==>
          && r.paramKey.value in p.parameters
          && r.value == p.parameters[r.paramKey.value].value
          && r.secretId == LiveSecret(st, p.parameters[r.paramKey.value].secretId)
          && r.secretType == SecretTypeIn(st, p.parameters[r.paramKey.value].secretId))
  }

  /** Every policy and every parameter has a row, and every row describes one. */
  ghost predicate RoutingRowsOf(st: Store, rows: seq<RoutingRow>) {
    && (forall r :: r in rows ==> RoutingRowOf(st, r))
    && (forall id :: id in st.policies ==> exists r :: r in rows && r.id == id)
    && (forall id, k :: id in st.policies && k in st.policies[id].parameters ==>
        exists r :: r in rows && r.id == id && r.paramKey == Some(k))
  }

  ghost predicate InstanceRowOf(st: Store, r: InstanceRow) {
    && r.id in st.instances
    && var inst := st.instances[r.id];
    && r.displayName == inst.displayName && r.columns == ColumnsOf(inst)
    && r.routingName == PolicyNameIn(st, inst.routingId)
    && r.routingId == (if r.routingName.Some? then inst.routingId else None)
    && r.rateLimitName == RateLimitNameIn(st, inst.rateLimitId)
    && r.rateLimitId == (if r.rateLimitName.Some? then inst.rateLimitId else None)
    && r.rssEnabled == RssEnabledOf(inst) && r.rssInterval == RssIntervalOf(inst)
    && (r.mediaKey.Some? ==> r.mediaKey.value in inst.mediaKeys)
    && (r.tagKey.Some? ==> r.tagKey.value in inst.tagKeys * st.tags.Keys)
    && (r.fieldName.Some? ==>
          && r.fieldName.value in inst.fields
          && r.fieldType == Some(inst.fields[r.fieldName.value].fieldType)
          && r.value == inst.fields[r.fieldName.value].value
          && r.secretId == LiveSecret(st, inst.fields[r.fieldName.value].secretId)
          && r.secretType == SecretTypeIn(st, inst.fields[r.fieldName.value].secretId))
  }

  /** Every instance, media key, live tag and field has a row, and every row describes one of each. */
  ghost predicate InstanceRowsOf(st: Store, rows: seq<InstanceRow>) {
    && (forall r :: r in rows ==> InstanceRowOf(st, r))
    && (forall id :: id in st.instances ==> exists r :: r in rows && r.id == id)
    && (forall id, k :: id in st.instances && k in st.instances[id].mediaKeys ==>
        exists r :: r in rows && r.id == id && r.mediaKey == Some(k))
    && (forall id, k :: id in st.instances && k in st.instances[id].tagKeys * st.tags.Keys ==>
        exists r :: r in rows && r.id == id && r.tagKey == Some(k))
    && (forall id, f :: id in st.instances && f in st.instances[id].fields ==>
        exists r :: r in rows && r.id == id && r.fieldName == Some(f))
  }
}
