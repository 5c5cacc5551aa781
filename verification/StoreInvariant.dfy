/** What every write procedure keeps true of the store. */
module StoreInvariant {
  import opened Basics
  import opened IndexerRecords
  import opened IndexerStore
  import opened StoreOperations

  predicate ParameterOk(mode: string, key: string, p: Parameter) {
    if KindOf(key) == Secret then p.value == NO_ROUTING_VALUE && SecretAllowed(mode, key)
    else p.secretId.None? && ParamAllowed(mode, key) && ParamError(key, p.value).None?
  }

  ghost predicate PolicyOk(p: Policy) {
    && SupportedMode(p.mode)
    && (forall k :: k in p.parameters ==> ParameterOk(p.mode, k, p.parameters[k]))
    && (forall k :: k in DefaultParameters(p.mode) ==> k in p.parameters)
  }

  /** A row of a secret type carries no value, any other exactly one value and no binding. The definition
      may since have another type for the field, or none. */
  predicate FieldOk(f: Field) {
    if SecretType(f.fieldType) then f.value == NO_FIELD_VALUE && f.fieldType !in f.older && BoundNow(f)
    else f.secretId.None? && f.older == map[] && ValueError(f.fieldType, f.value).None?
  }

  ghost predicate InstanceOk(reference: Reference, inst: Instance) {
    && inst.upstreamSlug in reference.definitions && 0 <= inst.priority <= 100
    && (inst.trustTierKey.Some? ==> inst.trustTierKey.value in reference.trustTiers)
    && inst.mediaKeys <= reference.mediaDomains
    && inst.rss.Some? && IntervalInRange(inst.rss.value.intervalSeconds)
    && (inst.rss.value.isEnabled ==> inst.isEnabled && inst.enableRss)
    && (forall f :: f in inst.fields ==> FieldOk(inst.fields[f]))
  }

  predicate LimitOk(r: RateLimit) {
    r.isSystem || LimitsInRange(r.requestsPerMinute, r.burst, r.concurrentRequests)
  }

  /** Ids in use are below the next one, and a deleted limit is not live. */
  ghost predicate IdsOk(st: Store) {
    && (forall id :: id in st.rateLimits ==> id < st.nextId)
    && (forall id :: id in st.deletedLimits ==> id < st.nextId && id !in st.rateLimits)
    && (forall id :: id in st.policies ==> id < st.nextId)
    && (forall id :: id in st.instances ==> id < st.nextId)
    && (forall id :: id in st.secrets ==> id < st.nextId)
  }

  predicate LimitLive(st: Store, id: Option<Uuid>) { id.Some? ==> id.value in st.rateLimits }

  predicate PolicyLive(st: Store, id: Option<Uuid>) { id.Some? ==> id.value in st.policies }

  /** Every reference is to something that is live. */
  ghost predicate LinksLive(st: Store) {
    && (forall id :: id in st.policies ==> LimitLive(st, st.policies[id].rateLimitId))
    && (forall id :: id in st.instances ==> LimitLive(st, st.instances[id].rateLimitId))
    && (forall id :: id in st.instances ==> PolicyLive(st, st.instances[id].routingId))
  }

  ghost predicate AllLimitsOk(st: Store) { forall id :: id in st.rateLimits ==> LimitOk(st.rateLimits[id]) }

  ghost predicate AllPoliciesOk(st: Store) { forall id :: id in st.policies ==> PolicyOk(st.policies[id]) }

  ghost predicate AllInstancesOk(st: Store) {
    forall id :: id in st.instances ==> InstanceOk(st.reference, st.instances[id])
  }

  ghost predicate StoreOk(st: Store) {
    && IdsOk(st) && LinksLive(st)
    && UniqueRateLimitNames(st) && UniquePolicyNames(st) && UniqueInstanceNames(st)
    && AllLimitsOk(st) && AllPoliciesOk(st) && AllInstancesOk(st)
  }

  // ----- The procedures -----

  datatype Call =
    | CreateTag(key: string, displayName: string)
    | UpdateTag(key: string, displayName: string)
    | DeleteTag(key: string)
    | CreateRateLimit(name: string, rpm: int, burst: int, concurrent: int)
    | UpdateRateLimit(id: Uuid, newName: Option<string>, newRpm: Option<int>, newBurst: Option<int>,
                      newConcurrent: Option<int>)
    | DeleteRateLimit(id: Uuid)
    | CreatePolicy(name: string, mode: string)
    | SetPolicyRateLimit(id: Uuid, rateLimitId: Uuid)
    | ClearPolicyRateLimit(id: Uuid)
    | SetParam(id: Uuid, key: string, value: RoutingValue)
    | BindParam(id: Uuid, key: string, secretId: Uuid)
    | CreateInstance(slug: string, name: string, priority: int, tier: Option<string>, routingId: Option<Uuid>)
    | UpdateInstance(id: Uuid, patch: InstancePatch)
    | SetInstanceRateLimit(id: Uuid, rateLimitId: Uuid)
    | ClearInstanceRateLimit(id: Uuid)
    | SetMediaDomains(id: Uuid, keys: seq<string>)
    | SetTags(id: Uuid, keys: seq<string>)
    | SetField(id: Uuid, name: string, fieldValue: FieldValue)
    | BindField(id: Uuid, name: string, secretId: Uuid)
    | SetRss(id: Uuid, isEnabled: bool, interval: Option<int>)
    | DisableRss(id: Uuid)
    | CreateSecret(secretType: string)
    | RevokeSecret(secretId: Uuid)
    | ImportDefinition(slug: string, deprecated: bool)
    | AddDefinitionField(slug: string, name: string, fieldType: string)

  /** The store after one call; a refused call leaves it alone. */
  function Perform(st: Store, call: Call): Store {
    match call
    case CreateTag(k, n) => Settled(st, TagCreate(st, k, n))
    case UpdateTag(k, n) => Settled(st, TagUpdate(st, k, n))
    case DeleteTag(k) => Settled(st, TagDelete(st, k))
    case CreateRateLimit(n, r, b, c) => Settled(st, RateLimitCreate(st, n, r, b, c))
    case UpdateRateLimit(id, n, r, b, c) => Settled(st, RateLimitUpdate(st, id, n, r, b, c))
    case DeleteRateLimit(id) => Settled(st, RateLimitDelete(st, id))
    case CreatePolicy(n, m) => Settled(st, PolicyCreate(st, n, m))
    case SetPolicyRateLimit(id, r) => Settled(st, PolicySetRateLimit(st, id, r))
    case ClearPolicyRateLimit(id) => Settled(st, PolicyClearRateLimit(st, id))
    case SetParam(id, k, v) => Settled(st, PolicySetParam(st, id, k, v))
    case BindParam(id, k, s) => Settled(st, PolicyBindSecret(st, id, k, s))
    case CreateInstance(s, n, p, t, r) => Settled(st, InstanceCreate(st, s, n, p, t, r))
    case UpdateInstance(id, p) => Settled(st, InstanceUpdate(st, id, p))
    case SetInstanceRateLimit(id, r) => Settled(st, InstanceSetRateLimit(st, id, r))
    case ClearInstanceRateLimit(id) => Settled(st, InstanceClearRateLimit(st, id))
    case SetMediaDomains(id, k) => Settled(st, InstanceSetMediaDomains(st, id, k))
    case SetTags(id, k) => Settled(st, InstanceSetTags(st, id, k))
    case SetField(id, n, v) => Settled(st, FieldSetValue(st, id, n, v))
    case BindField(id, n, s) => Settled(st, FieldBindSecret(st, id, n, s))
    case SetRss(id, e, i) => Settled(st, RssSet(st, id, e, i))
    case DisableRss(id) => Settled(st, RssDisable(st, id))
    case CreateSecret(t) => Settled(st, SecretCreate(st, t))
    case RevokeSecret(s) => Settled(st, SecretRevoke(st, s))
    case ImportDefinition(s, d) => Settled(st, DefinitionImport(st, s, d))
    case AddDefinitionField(s, n, t) => Settled(st, DefinitionAddField(st, s, n, t))
  }

  // ----- Replacing one entity -----

  lemma PolicyReplaced(st: Store, id: Uuid, p: Policy)
    requires StoreOk(st) && id in st.policies && PolicyOk(p) && p.displayName == st.policies[id].displayName
    requires LimitLive(st, p.rateLimitId)
    ensures StoreOk(st.(policies := st.policies[id := p]))
  {
    hide PolicyOk, InstanceOk, LimitOk;
  }

  lemma InstanceReplaced(st: Store, id: Uuid, inst: Instance)
    requires StoreOk(st) && id in st.instances && InstanceOk(st.reference, inst)
    requires !InstanceNamedElsewhere(st, id, inst.displayName)
    requires LimitLive(st, inst.rateLimitId) && PolicyLive(st, inst.routingId)
    ensures StoreOk(st.(instances := st.instances[id := inst]))
  {
    var st' := st.(instances := st.instances[id := inst]);
    hide PolicyOk, InstanceOk, LimitOk;
    assert LinksLive(st');
    NamesStayUnique(st, id, inst);
    hide LinksLive, UniqueInstanceNames, LimitLive, PolicyLive, InstanceNamedElsewhere;
  }

  lemma NamesStayUnique(st: Store, id: Uuid, inst: Instance)
    requires UniqueInstanceNames(st) && !InstanceNamedElsewhere(st, id, inst.displayName)
    ensures UniqueInstanceNames(st.(instances := st.instances[id := inst]))
  {
  }

  /** The instance under its own name, with other content. */
  lemma SameNameReplaced(st: Store, id: Uuid, inst: Instance)
    requires StoreOk(st) && id in st.instances && InstanceOk(st.reference, inst)
    requires inst.displayName == st.instances[id].displayName && inst.routingId == st.instances[id].routingId
    requires LimitLive(st, inst.rateLimitId)
    ensures StoreOk(st.(instances := st.instances[id := inst]))
  {
    assert PolicyLive(st, st.instances[id].routingId);
    assert !InstanceNamedElsewhere(st, id, inst.displayName);
    hide StoreOk, InstanceOk, InstanceNamedElsewhere;
    InstanceReplaced(st, id, inst);
  }

  lemma StoreBound(st: Store)
    requires StoreOk(st)
    ensures AllBoundNow(st)
  {
    forall id, f | id in st.instances && f in st.instances[id].fields ensures BoundNow(st.instances[id].fields[f]) {
      Held(st, id);
      assert FieldOk(st.instances[id].fields[f]);
    }
  }

  lemma Held(st: Store, id: Uuid)
    requires StoreOk(st)
    ensures id in st.instances ==>
        InstanceOk(st.reference, st.instances[id]) && LimitLive(st, st.instances[id].rateLimitId)
    ensures id in st.policies ==> PolicyOk(st.policies[id]) && LimitLive(st, st.policies[id].rateLimitId)
  {
    hide PolicyOk, InstanceOk;
  }

  // ----- Tags, rate limits, secrets and definitions -----

  /** Tags and secrets play no part in the invariant beyond the bound on secret ids. */
  lemma Untouched(st: Store, other: Store)
    requires StoreOk(st) && st.nextId <= other.nextId
    requires other == st.(tags := other.tags, deletedTags := other.deletedTags, secrets := other.secrets,
                          nextId := other.nextId)
    requires forall id :: id in other.secrets ==> id < other.nextId
    ensures StoreOk(other)
  {
    hide PolicyOk, InstanceOk, LimitOk, LinksLive, LimitLive, PolicyLive;
    LinksStay(st, other);
  }

  /** Tags play no part in the invariant. */
  lemma TagsUntouched(st: Store, tags: map<string, string>, deletedTags: set<string>)
    requires StoreOk(st)
    ensures StoreOk(st.(tags := tags, deletedTags := deletedTags))
  {
    SecretIdsBelow(st);
    hide StoreOk;
    Untouched(st, st.(tags := tags, deletedTags := deletedTags));
  }

  lemma TagCallKept(st: Store, call: Call)
    requires StoreOk(st) && (call.CreateTag? || call.UpdateTag? || call.DeleteTag?)
    ensures StoreOk(Perform(st, call))
  {
    hide StoreOk;
    TagsUntouched(st, st.tags, st.deletedTags);
    match call
    case CreateTag(k, n) => TagsUntouched(st, st.tags[k := n], st.deletedTags);
    case UpdateTag(k, n) => TagsUntouched(st, st.tags[k := n], st.deletedTags);
    case DeleteTag(k) => TagsUntouched(st, st.tags - {k}, st.deletedTags + {k});
  }

  lemma SecretIdsBelow(st: Store)
    requires StoreOk(st)
    ensures forall id :: id in st.secrets ==> id < st.nextId
  {
  }

  lemma CreateSecretKept(st: Store, secretType: string)
    requires StoreOk(st)
    ensures StoreOk(SecretCreate(st, secretType).st)
  {
    SecretIdsBelow(st);
    hide StoreOk;
    Untouched(st, SecretCreate(st, secretType).st);
  }

  lemma RevokeSecretKept(st: Store, id: Uuid)
    requires StoreOk(st) && SecretRevoke(st, id).Ok?
    ensures StoreOk(SecretRevoke(st, id).st)
  {
    SecretIdsBelow(st);
    hide StoreOk;
    Untouched(st, SecretRevoke(st, id).st);
  }

  lemma SecretCallKept(st: Store, call: Call)
    requires StoreOk(st) && (call.CreateSecret? || call.RevokeSecret?)
    ensures StoreOk(Perform(st, call))
  {
    hide StoreOk, SecretRevoke;
    match call
    case CreateSecret(t) => CreateSecretKept(st, t);
    case RevokeSecret(s) => if SecretRevoke(st, s).Ok? { RevokeSecretKept(st, s); }
  }

  lemma CreateLimitKept(st: Store, name: string, rpm: int, burst: int, concurrent: int)
    requires StoreOk(st)
    ensures StoreOk(Settled(st, RateLimitCreate(st, name, rpm, burst, concurrent)))
  {
    hide PolicyOk, InstanceOk, StoreOk, LimitsInRange, RateLimitNamed;
    if RateLimitCreate(st, name, rpm, burst, concurrent).Ok? {
      LimitAdded(st, RateLimit(name, rpm, burst, concurrent, false));
    }
  }

  lemma LimitAdded(st: Store, r: RateLimit)
    requires StoreOk(st) && LimitOk(r) && !RateLimitNamed(st, r.displayName)
    ensures StoreOk(st.(rateLimits := st.rateLimits[st.nextId := r], nextId := st.nextId + 1))
  {
    var st' := st.(rateLimits := st.rateLimits[st.nextId := r], nextId := st.nextId + 1);
    hide PolicyOk, InstanceOk, LimitOk, UniqueRateLimitNames, RateLimitNamed, LinksLive;
    AddedLimitUnique(st, r);
    LinksStay(st, st');
  }

  lemma AddedLimitUnique(st: Store, r: RateLimit)
    requires UniqueRateLimitNames(st) && !RateLimitNamed(st, r.displayName)
    ensures UniqueRateLimitNames(st.(rateLimits := st.rateLimits[st.nextId := r], nextId := st.nextId + 1))
  {
  }

  /** More rate limits and policies leave the references of the old ones live. */
  lemma LinksStay(st: Store, other: Store)
    requires LinksLive(st) && other.instances == st.instances && st.rateLimits.Keys <= other.rateLimits.Keys
    requires other.policies == st.policies
    ensures LinksLive(other)
  {
    assert forall i :: LimitLive(st, i) ==> LimitLive(other, i);
    assert forall i :: PolicyLive(st, i) ==> PolicyLive(other, i);
    hide LimitLive, PolicyLive;
  }

  ghost predicate LimitNameFree(st: Store, id: Uuid, name: string) {
    forall other :: other in st.rateLimits && other != id ==> st.rateLimits[other].displayName != name
  }

  lemma LimitReplaced(st: Store, id: Uuid, r: RateLimit)
    requires StoreOk(st) && id in st.rateLimits && LimitOk(r) && LimitNameFree(st, id, r.displayName)
    ensures StoreOk(st.(rateLimits := st.rateLimits[id := r]))
  {
    var st' := st.(rateLimits := st.rateLimits[id := r]);
    hide PolicyOk, InstanceOk, LimitOk;
    assert UniqueRateLimitNames(st');
    hide LinksLive, LimitLive, PolicyLive, UniqueRateLimitNames, LimitNameFree;
    LinksStay(st, st');
  }

  lemma DeletedRenamed(st: Store, id: Uuid, name: string)
    requires StoreOk(st) && id in st.deletedLimits
    ensures StoreOk(st.(deletedLimits := st.deletedLimits[id := name]))
  {
    var st' := st.(deletedLimits := st.deletedLimits[id := name]);
    hide PolicyOk, InstanceOk, LimitOk;
    assert forall i :: LimitLive(st', i) == LimitLive(st, i) && PolicyLive(st', i) == PolicyLive(st, i);
    assert LinksLive(st');
    hide LinksLive, LimitLive, PolicyLive;
  }

  lemma UpdateLimitKept(st: Store, id: Uuid, name: Option<string>, rpm: Option<int>, burst: Option<int>,
                        concurrent: Option<int>)
    requires StoreOk(st) && RateLimitUpdate(st, id, name, rpm, burst, concurrent).Ok?
    ensures StoreOk(RateLimitUpdate(st, id, name, rpm, burst, concurrent).st)
  {
    var st' := RateLimitUpdate(st, id, name, rpm, burst, concurrent).st;
    if id in st.deletedLimits {
      hide StoreOk;
      DeletedRenamed(st, id, name.Or(Some(st.deletedLimits[id])).value);
    } else {
      assert LimitOk(st.rateLimits[id]) && LimitNameFree(st, id, st'.rateLimits[id].displayName);
      hide StoreOk, LimitNameFree;
      LimitReplaced(st, id, st'.rateLimits[id]);
    }
  }

  lemma DeleteLimitKept(st: Store, id: Uuid)
    requires StoreOk(st) && RateLimitDelete(st, id).Ok?
    ensures StoreOk(RateLimitDelete(st, id).st)
  {
    hide StoreOk, LimitInUse;
    if id !in st.deletedLimits { LimitRemoved(st, id); }
  }

  function WithoutLimit(st: Store, id: Uuid): Store
    requires id in st.rateLimits
  {
    st.(rateLimits := st.rateLimits - {id}, deletedLimits := st.deletedLimits[id := st.rateLimits[id].displayName])
  }

  lemma LimitRemoved(st: Store, id: Uuid)
    requires StoreOk(st) && id in st.rateLimits && !LimitInUse(st, id)
    ensures StoreOk(WithoutLimit(st, id))
  {
    hide IdsOk, LinksLive, UniqueRateLimitNames, AllLimitsOk, LimitInUse, AllPoliciesOk, AllInstancesOk,
      UniquePolicyNames, UniqueInstanceNames, WithoutLimit;
    UnusedLimit(st, id);
    FewerLimits(st, id);
    RestStays(st, id);
  }

  /** A limit in nobody's use can go without leaving a reference behind. */
  lemma UnusedLimit(st: Store, id: Uuid)
    requires LinksLive(st) && id in st.rateLimits && !LimitInUse(st, id)
    ensures LinksLive(WithoutLimit(st, id))
  {
  }

  lemma FewerLimits(st: Store, id: Uuid)
    requires UniqueRateLimitNames(st) && AllLimitsOk(st) && IdsOk(st) && id in st.rateLimits
    ensures var other := WithoutLimit(st, id); UniqueRateLimitNames(other) && AllLimitsOk(other) && IdsOk(other)
  {
    hide LimitOk;
  }

  lemma RestStays(st: Store, id: Uuid)
    requires id in st.rateLimits && AllPoliciesOk(st) && AllInstancesOk(st)
    requires UniquePolicyNames(st) && UniqueInstanceNames(st)
    ensures var other := WithoutLimit(st, id);
      && AllPoliciesOk(other) && AllInstancesOk(other) && UniquePolicyNames(other) && UniqueInstanceNames(other)
  {
    hide PolicyOk, InstanceOk;
  }

  lemma ReferenceReplaced(st: Store, reference: Reference)
    requires StoreOk(st) && forall id :: id in st.instances ==> InstanceOk(reference, st.instances[id])
    ensures StoreOk(st.(reference := reference))
  {
    var st' := st.(reference := reference);
    hide PolicyOk, InstanceOk, LimitOk;
    assert forall i :: LimitLive(st', i) == LimitLive(st, i) && PolicyLive(st', i) == PolicyLive(st, i);
    assert LinksLive(st');
    hide LinksLive, LimitLive, PolicyLive;
  }

  lemma DefinitionKept(st: Store, slug: string, d: Definition)
    requires StoreOk(st)
    ensures StoreOk(st.(reference := st.reference.(definitions := st.reference.definitions[slug := d])))
  {
    var reference := st.reference.(definitions := st.reference.definitions[slug := d]);
    forall id | id in st.instances ensures InstanceOk(reference, st.instances[id]) {
      Held(st, id);
      hide StoreOk, FieldOk;
    }
    hide StoreOk, InstanceOk;
    ReferenceReplaced(st, reference);
  }

  /** Importing a definition leaves every instance with the fields it has. */
  lemma DefinitionCallKept(st: Store, call: Call)
    requires StoreOk(st) && (call.ImportDefinition? || call.AddDefinitionField?)
    ensures StoreOk(Perform(st, call))
  {
    hide StoreOk;
    match call
    case ImportDefinition(slug, deprecated) => DefinitionKept(st, slug, Definition(map[], deprecated));
    case AddDefinitionField(slug, name, fieldType) =>
      if DefinitionAddField(st, slug, name, fieldType).Ok? {
        var d := st.reference.definitions[slug];
        DefinitionKept(st, slug, d.(types := d.types[name := fieldType]));
      }
  }

  // ----- Routing policies -----

  lemma SetRowOk(st: Store, id: Uuid, key: string, v: RoutingValue)
    requires PolicySetParam(st, id, key, v).Ok? && PolicyOk(st.policies[id])
    ensures var p := st.policies[id];
      ParameterOk(p.mode, key, WithValue(ParameterAt(p.parameters, key), key, v))
  {
    var p := st.policies[id];
    assert key in p.parameters ==> ParameterOk(p.mode, key, p.parameters[key]);
    hide PolicyOk;
  }

  lemma RowReplaced(p: Policy, key: string, row: Parameter)
    requires PolicyOk(p) && ParameterOk(p.mode, key, row)
    ensures PolicyOk(p.(parameters := p.parameters[key := row]))
  {
    hide ParameterOk;
  }

  lemma ParamKept(st: Store, id: Uuid, key: string, v: RoutingValue)
    requires StoreOk(st) && PolicySetParam(st, id, key, v).Ok?
    ensures StoreOk(PolicySetParam(st, id, key, v).st)
  {
    var p := st.policies[id];
    Held(st, id);
    var row := WithValue(ParameterAt(p.parameters, key), key, v);
    SetRowOk(st, id, key, v);
    RowReplaced(p, key, row);
    hide StoreOk, PolicyOk, ParameterOk;
    PolicyReplaced(st, id, p.(parameters := p.parameters[key := row]));
  }

  lemma BindKept(st: Store, id: Uuid, key: string, secretId: Uuid)
    requires StoreOk(st) && PolicyBindSecret(st, id, key, secretId).Ok?
    ensures StoreOk(PolicyBindSecret(st, id, key, secretId).st)
  {
    var p := st.policies[id];
    Held(st, id);
    var row := ParameterAt(p.parameters, key).(secretId := Some(secretId));
    assert ParameterOk(p.mode, key, row);
    RowReplaced(p, key, row);
    hide StoreOk, PolicyOk, ParameterOk;
    PolicyReplaced(st, id, p.(parameters := p.parameters[key := row]));
  }

  lemma NewPolicyOk(name: string, mode: string)
    requires SupportedMode(mode)
    ensures PolicyOk(Policy(name, mode, None, DefaultParameters(mode)))
  {
  }

  lemma PolicyAdded(st: Store, p: Policy)
    requires StoreOk(st) && PolicyOk(p) && !PolicyNamed(st, p.displayName) && LimitLive(st, p.rateLimitId)
    ensures StoreOk(st.(policies := st.policies[st.nextId := p], nextId := st.nextId + 1))
  {
    hide PolicyOk, InstanceOk, LimitOk;
    var st' := st.(policies := st.policies[st.nextId := p], nextId := st.nextId + 1);
    assert LinksLive(st');
    assert UniquePolicyNames(st');
    hide LinksLive, UniquePolicyNames, LimitLive, PolicyLive, PolicyNamed;
  }

  lemma CreatePolicyKept(st: Store, name: string, mode: string)
    requires StoreOk(st)
    ensures StoreOk(Settled(st, PolicyCreate(st, name, mode)))
  {
    hide StoreOk, PolicyOk, DefaultParameters, SupportedMode, PolicyNamed;
    if PolicyCreate(st, name, mode).Ok? {
      NewPolicyOk(name, mode);
      PolicyAdded(st, Policy(name, mode, None, DefaultParameters(mode)));
    }
  }

  lemma PolicyLinkKept(st: Store, id: Uuid, p: Policy)
    requires StoreOk(st) && id in st.policies && p == st.policies[id].(rateLimitId := p.rateLimitId)
    requires LimitLive(st, p.rateLimitId)
    ensures StoreOk(st.(policies := st.policies[id := p]))
  {
    Held(st, id);
    hide StoreOk;
    assert PolicyOk(p);
    PolicyReplaced(st, id, p);
  }

  // ----- Instances -----

  lemma CreateInstanceKept(st: Store, slug: string, name: string, priority: int, tier: Option<string>,
      routingId: Option<Uuid>)
    requires StoreOk(st) && InstanceCreate(st, slug, name, priority, tier, routingId).Ok?
    ensures StoreOk(InstanceCreate(st, slug, name, priority, tier, routingId).st)
  {
    var inst := Instance(name, slug, true, true, true, true, priority, tier, DEFAULT_LIMITS,
                         routingId, None, Some(DEFAULT_RSS), {}, {}, map[]);
    assert InstanceOk(st.reference, inst) && PolicyLive(st, inst.routingId);
    hide InstanceOk, PolicyOk;
    InstanceAdded(st, inst);
  }

  lemma InstanceAdded(st: Store, inst: Instance)
    requires StoreOk(st) && InstanceOk(st.reference, inst) && !InstanceNamed(st, inst.displayName)
    requires LimitLive(st, inst.rateLimitId) && PolicyLive(st, inst.routingId)
    ensures StoreOk(st.(instances := st.instances[st.nextId := inst], nextId := st.nextId + 1))
  {
    hide InstanceOk, PolicyOk, LimitOk, LinksLive, UniqueInstanceNames, LimitLive, PolicyLive, InstanceNamed;
    AddedLinksLive(st, inst);
    AddedNameUnique(st, inst);
  }

  lemma AddedLinksLive(st: Store, inst: Instance)
    requires LinksLive(st) && LimitLive(st, inst.rateLimitId) && PolicyLive(st, inst.routingId)
    ensures LinksLive(st.(instances := st.instances[st.nextId := inst], nextId := st.nextId + 1))
  {
  }

  lemma AddedNameUnique(st: Store, inst: Instance)
    requires UniqueInstanceNames(st) && !InstanceNamed(st, inst.displayName)
    ensures UniqueInstanceNames(st.(instances := st.instances[st.nextId := inst], nextId := st.nextId + 1))
  {
  }

  lemma UpdateKept(st: Store, id: Uuid, p: InstancePatch)
    requires StoreOk(st) && InstanceUpdate(st, id, p).Ok?
    ensures StoreOk(InstanceUpdate(st, id, p).st)
  {
    Held(st, id);
    var inst := InstanceUpdate(st, id, p).st.instances[id];
    assert InstanceOk(st.reference, inst);
    assert PolicyLive(st, st.instances[id].routingId);
    assert p.displayName.None? ==> !InstanceNamedElsewhere(st, id, st.instances[id].displayName);
    hide StoreOk, InstanceOk, InstanceNamedElsewhere;
    InstanceReplaced(st, id, inst);
  }

  lemma FieldKept(st: Store, id: Uuid, name: string, f: Field)
    requires StoreOk(st) && id in st.instances && FieldOk(f)
    ensures StoreOk(st.(instances := st.instances[id :=
        st.instances[id].(fields := st.instances[id].fields[name := f])]))
  {
    var inst := st.instances[id];
    Held(st, id);
    var next := inst.(fields := inst.fields[name := f]);
    assert InstanceOk(st.reference, next) by { hide FieldOk; }
    hide StoreOk, InstanceOk;
    SameNameReplaced(st, id, next);
  }

  lemma SetFieldKept(st: Store, id: Uuid, name: string, v: FieldValue)
    requires StoreOk(st) && FieldSetValue(st, id, name, v).Ok?
    ensures StoreOk(FieldSetValue(st, id, name, v).st)
  {
    Held(st, id);
    var inst := st.instances[id];
    var f := FieldSetValue(st, id, name, v).st.instances[id].fields[name];
    assert name in inst.fields ==> FieldOk(inst.fields[name]);
    assert FieldOk(f);
    hide StoreOk, FieldOk;
    FieldKept(st, id, name, f);
  }

  lemma BindFieldKept(st: Store, id: Uuid, name: string, secretId: Uuid)
    requires StoreOk(st) && FieldBindSecret(st, id, name, secretId).Ok?
    ensures StoreOk(FieldBindSecret(st, id, name, secretId).st)
  {
    var f := FieldBindSecret(st, id, name, secretId).st.instances[id].fields[name];
    assert FieldOk(f);
    hide StoreOk, FieldOk;
    FieldKept(st, id, name, f);
  }

  lemma LinkKept(st: Store, id: Uuid, inst: Instance)
    requires StoreOk(st) && id in st.instances && LimitLive(st, inst.rateLimitId)
    requires var was := st.instances[id];
      inst == was.(rateLimitId := inst.rateLimitId, mediaKeys := inst.mediaKeys, tagKeys := inst.tagKeys,
        rss := inst.rss)
    requires inst.mediaKeys <= st.reference.mediaDomains && inst.rss.Some?
    requires IntervalInRange(inst.rss.value.intervalSeconds)
    requires inst.rss.value.isEnabled ==> inst.isEnabled && inst.enableRss
    ensures StoreOk(st.(instances := st.instances[id := inst]))
  {
    Held(st, id);
    hide StoreOk, FieldOk;
    SameNameReplaced(st, id, inst);
  }

  lemma LinkCallKept(st: Store, call: Call)
    requires StoreOk(st) && (call.SetInstanceRateLimit? || call.ClearInstanceRateLimit? || call.SetMediaDomains?)
    ensures StoreOk(Perform(st, call))
  {
    Held(st, call.id);
    hide StoreOk, FieldOk, PolicyOk;
    match call
    case SetInstanceRateLimit(id, r) =>
      if InstanceSetRateLimit(st, id, r).Ok? { LinkKept(st, id, st.instances[id].(rateLimitId := Some(r))); }
    case ClearInstanceRateLimit(id) =>
      if InstanceClearRateLimit(st, id).Ok? { LinkKept(st, id, st.instances[id].(rateLimitId := None)); }
    case SetMediaDomains(id, k) =>
      if InstanceSetMediaDomains(st, id, k).Ok? { LinkKept(st, id, st.instances[id].(mediaKeys := Elements(k))); }
  }

  lemma SetTagsKept(st: Store, id: Uuid, keys: seq<string>)
    requires StoreOk(st) && InstanceSetTags(st, id, keys).Ok?
    ensures StoreOk(InstanceSetTags(st, id, keys).st)
  {
    Held(st, id);
    hide StoreOk, FieldOk, PolicyOk;
    LinkKept(st, id, st.instances[id].(tagKeys := Elements(keys)));
  }

  lemma SetRssKept(st: Store, id: Uuid, isEnabled: bool, interval: Option<int>)
    requires StoreOk(st) && RssSet(st, id, isEnabled, interval).Ok?
    ensures StoreOk(RssSet(st, id, isEnabled, interval).st)
  {
    Held(st, id);
    hide StoreOk, FieldOk, PolicyOk;
    LinkKept(st, id, RssSet(st, id, isEnabled, interval).st.instances[id]);
  }

  lemma DisableRssKept(st: Store, id: Uuid)
    requires StoreOk(st) && RssDisable(st, id).Ok?
    ensures StoreOk(RssDisable(st, id).st)
  {
    Held(st, id);
    hide StoreOk, FieldOk, PolicyOk;
    LinkKept(st, id, RssDisable(st, id).st.instances[id]);
  }

  lemma TagRssCallKept(st: Store, call: Call)
    requires StoreOk(st) && (call.SetTags? || call.SetRss? || call.DisableRss?)
    ensures StoreOk(Perform(st, call))
  {
    hide StoreOk, InstanceSetTags, RssSet, RssDisable;
    match call
    case SetTags(id, k) => if InstanceSetTags(st, id, k).Ok? { SetTagsKept(st, id, k); }
    case SetRss(id, e, i) => if RssSet(st, id, e, i).Ok? { SetRssKept(st, id, e, i); }
    case DisableRss(id) => if RssDisable(st, id).Ok? { DisableRssKept(st, id); }
  }

  // ----- All of them -----

  lemma PolicyCallKept(st: Store, call: Call)
    requires StoreOk(st)
    requires call.CreatePolicy? || call.SetPolicyRateLimit? || call.ClearPolicyRateLimit? || call.SetParam?
        || call.BindParam?
    ensures StoreOk(Perform(st, call))
  {
    hide StoreOk;
    match call
    case CreatePolicy(n, m) => CreatePolicyKept(st, n, m);
    case SetPolicyRateLimit(id, r) =>
      if PolicySetRateLimit(st, id, r).Ok? { PolicyLinkKept(st, id, st.policies[id].(rateLimitId := Some(r))); }
    case ClearPolicyRateLimit(id) =>
      if PolicyClearRateLimit(st, id).Ok? { PolicyLinkKept(st, id, st.policies[id].(rateLimitId := None)); }
    case SetParam(id, k, v) => if PolicySetParam(st, id, k, v).Ok? { ParamKept(st, id, k, v); }
    case BindParam(id, k, s) => if PolicyBindSecret(st, id, k, s).Ok? { BindKept(st, id, k, s); }
  }

  /** Every procedure keeps the store invariant, accepted or refused. */
  lemma CallKeepsStore(st: Store, call: Call)
    requires StoreOk(st)
    ensures StoreOk(Perform(st, call))
  {
    hide StoreOk, RateLimitCreate, RateLimitUpdate, RateLimitDelete, PolicyCreate, PolicySetRateLimit,
      PolicyClearRateLimit, PolicySetParam, PolicyBindSecret, InstanceCreate, InstanceUpdate, InstanceSetRateLimit,
      InstanceClearRateLimit, InstanceSetMediaDomains, InstanceSetTags, FieldSetValue, FieldBindSecret, RssSet,
      RssDisable, TagCreate, TagUpdate, TagDelete, SecretCreate, SecretRevoke, DefinitionImport,
      DefinitionAddField;
    match call
    case CreateTag(_, _) => TagCallKept(st, call);
    case UpdateTag(_, _) => TagCallKept(st, call);
    case DeleteTag(_) => TagCallKept(st, call);
    case CreateRateLimit(n, r, b, c) => CreateLimitKept(st, n, r, b, c);
    case UpdateRateLimit(id, n, r, b, c) =>
      if RateLimitUpdate(st, id, n, r, b, c).Ok? {
        UpdateLimitKept(st, id, n, r, b, c);
      }
    case DeleteRateLimit(id) => if RateLimitDelete(st, id).Ok? { DeleteLimitKept(st, id); }
    case CreateInstance(s, n, p, t, r) =>
      if InstanceCreate(st, s, n, p, t, r).Ok? {
        CreateInstanceKept(st, s, n, p, t, r);
      }
    case UpdateInstance(id, p) => if InstanceUpdate(st, id, p).Ok? { UpdateKept(st, id, p); }
    case SetInstanceRateLimit(_, _) => LinkCallKept(st, call);
    case ClearInstanceRateLimit(_) => LinkCallKept(st, call);
    case SetMediaDomains(_, _) => LinkCallKept(st, call);
    case SetTags(_, _) => TagRssCallKept(st, call);
    case SetRss(_, _, _) => TagRssCallKept(st, call);
    case DisableRss(_) => TagRssCallKept(st, call);
    case SetField(id, n, v) => if FieldSetValue(st, id, n, v).Ok? { SetFieldKept(st, id, n, v); }
    case BindField(id, n, s) => if FieldBindSecret(st, id, n, s).Ok? { BindFieldKept(st, id, n, s); }
    case CreateSecret(_) => SecretCallKept(st, call);
    case RevokeSecret(_) => SecretCallKept(st, call);
    case ImportDefinition(_, _) => DefinitionCallKept(st, call);
    case AddDefinitionField(_, _, _) => DefinitionCallKept(st, call);
    case _ => PolicyCallKept(st, call);
  }

  function PerformAll(st: Store, calls: seq<Call>): Store
    decreases |calls|
  {
    if calls == [] then st else PerformAll(Perform(st, calls[0]), calls[1..])
  }

  /** So the invariant holds after any run of calls. */
  lemma {:induction false} RunKeepsStore(st: Store, calls: seq<Call>)
    requires StoreOk(st)
    ensures StoreOk(PerformAll(st, calls))
    decreases |calls|
  {
    hide StoreOk, Perform;
    if calls != [] {
      CallKeepsStore(st, calls[0]);
      RunKeepsStore(Perform(st, calls[0]), calls[1..]);
    }
  }
}
