/** What the calls leave alone. */
module CallEffects {
  import opened Basics
  import opened IndexerStore
  import opened StoreOperations
  import opened StoreInvariant

  /** As an instance is created: default limits, no fields, of a definition in use. */
  predicate AsCreated(reference: Reference, inst: Instance) {
    && inst.limits == DEFAULT_LIMITS && inst.fields == map[]
    && inst.upstreamSlug in reference.definitions && !reference.definitions[inst.upstreamSlug].deprecated
  }

  /** The instance is one of `st`, with the definition, limits and fields it had there, or a new one. */
  predicate SameShell(st: Store, id: Uuid, inst: Instance) {
    || (id in st.instances && inst.upstreamSlug == st.instances[id].upstreamSlug
        && inst.limits == st.instances[id].limits && inst.fields == st.instances[id].fields)
    || AsCreated(st.reference, inst)
  }

  ghost predicate ShellsKept(st: Store, other: Store) {
    && other.reference == st.reference && other.secrets == st.secrets
    && forall id :: id in other.instances ==> SameShell(st, id, other.instances[id])
  }

  lemma AllKept(st: Store, other: Store)
    requires other.reference == st.reference && other.secrets == st.secrets && other.instances == st.instances
    ensures ShellsKept(st, other)
  {
    hide AsCreated;
  }

  lemma OneKept(st: Store, id: Uuid, inst: Instance)
    requires id in st.instances && inst.upstreamSlug == st.instances[id].upstreamSlug
    requires inst.limits == st.instances[id].limits && inst.fields == st.instances[id].fields
    ensures ShellsKept(st, st.(instances := st.instances[id := inst]))
  {
    hide AsCreated;
  }

  // ----- Tags, rate limits and policies -----

  predicate TagCall(call: Call) { call.CreateTag? || call.UpdateTag? || call.DeleteTag? }

  lemma TagCallKeeps(st: Store, call: Call)
    requires TagCall(call)
    ensures ShellsKept(st, Perform(st, call))
  {
    hide ShellsKept;
    AllKept(st, Perform(st, call));
  }

  predicate LimitCall(call: Call) { call.CreateRateLimit? || call.UpdateRateLimit? || call.DeleteRateLimit? }

  lemma LimitCallKeeps(st: Store, call: Call)
    requires LimitCall(call)
    ensures ShellsKept(st, Perform(st, call))
  {
    hide ShellsKept, UpdateInRange, LimitsInRange, RateLimitNamed, LimitNamedElsewhere, LimitInUse;
    match call
    case CreateRateLimit(n, r, b, c) => AllKept(st, Settled(st, RateLimitCreate(st, n, r, b, c)));
    case UpdateRateLimit(id, n, r, b, c) => AllKept(st, Settled(st, RateLimitUpdate(st, id, n, r, b, c)));
    case DeleteRateLimit(id) => AllKept(st, Settled(st, RateLimitDelete(st, id)));
  }

  predicate PolicyCall(call: Call) {
    call.CreatePolicy? || call.SetPolicyRateLimit? || call.ClearPolicyRateLimit? || call.SetParam? || call.BindParam?
  }

  lemma PolicyCallKeeps(st: Store, call: Call)
    requires PolicyCall(call)
    ensures ShellsKept(st, Perform(st, call))
  {
    hide ShellsKept, ParamError, ParamAllowed, SecretAllowed, DefaultParameters, WithValue, ParameterAt,
      PolicyNamed, SupportedMode;
    match call
    case CreatePolicy(n, m) => AllKept(st, Settled(st, PolicyCreate(st, n, m)));
    case SetPolicyRateLimit(id, r) => AllKept(st, Settled(st, PolicySetRateLimit(st, id, r)));
    case ClearPolicyRateLimit(id) => AllKept(st, Settled(st, PolicyClearRateLimit(st, id)));
    case SetParam(id, k, v) => AllKept(st, Settled(st, PolicySetParam(st, id, k, v)));
    case BindParam(id, k, s) => AllKept(st, Settled(st, PolicyBindSecret(st, id, k, s)));
  }

  // ----- Instances -----

  lemma CreatedKept(st: Store, slug: string, name: string, priority: int, tier: Option<string>, routingId: Option<Uuid>)
    requires InstanceCreate(st, slug, name, priority, tier, routingId).Ok?
    ensures ShellsKept(st, InstanceCreate(st, slug, name, priority, tier, routingId).st)
  {
    var other := InstanceCreate(st, slug, name, priority, tier, routingId).st;
    assert AsCreated(st.reference, other.instances[st.nextId]);
    hide AsCreated, InstanceNamed;
  }

  lemma UpdatedKept(st: Store, id: Uuid, patch: InstancePatch)
    requires InstanceUpdate(st, id, patch).Ok?
    ensures ShellsKept(st, InstanceUpdate(st, id, patch).st)
  {
    hide ShellsKept, RssAfterUpdate, InstanceNamedElsewhere, PatchedFlags;
    OneKept(st, id, InstanceUpdate(st, id, patch).st.instances[id]);
  }

  /** The calls on one instance that neither update it nor set its fields. */
  predicate LinkCall(call: Call) {
    call.SetInstanceRateLimit? || call.ClearInstanceRateLimit? || call.SetMediaDomains? || call.SetTags?
    || call.SetRss? || call.DisableRss?
  }

  /** The call changed nothing, or one instance's links. */
  predicate OneRelinked(st: Store, other: Store, id: Uuid) {
    || other == st
    || (&& id in st.instances && id in other.instances
        && other == st.(instances := st.instances[id := other.instances[id]])
        && var was, now := st.instances[id], other.instances[id];
        now.upstreamSlug == was.upstreamSlug && now.limits == was.limits && now.fields == was.fields)
  }

  lemma LinkCallShape(st: Store, call: Call)
    requires LinkCall(call)
    ensures OneRelinked(st, Perform(st, call), call.id)
  {
    hide OneRelinked, InstanceSetRateLimit, InstanceClearRateLimit, InstanceSetMediaDomains, InstanceSetTags, RssSet,
      RssDisable;
    match call
    case SetInstanceRateLimit(id, r) => LimitRelinked(st, id, r);
    case ClearInstanceRateLimit(id) => LimitCleared(st, id);
    case SetMediaDomains(id, k) => MediaRelinked(st, id, k);
    case SetTags(id, k) => TagsRelinked(st, id, k);
    case SetRss(id, e, i) => RssReset(st, id, e, i);
    case DisableRss(id) => RssDisabled(st, id);
  }

  lemma LimitRelinked(st: Store, id: Uuid, r: Uuid)
    ensures OneRelinked(st, Settled(st, InstanceSetRateLimit(st, id, r)), id)
  {
  }

  lemma LimitCleared(st: Store, id: Uuid)
    ensures OneRelinked(st, Settled(st, InstanceClearRateLimit(st, id)), id)
  {
  }

  lemma MediaRelinked(st: Store, id: Uuid, keys: seq<string>)
    ensures OneRelinked(st, Settled(st, InstanceSetMediaDomains(st, id, keys)), id)
  {
    hide Elements;
  }

  lemma TagsRelinked(st: Store, id: Uuid, keys: seq<string>)
    ensures OneRelinked(st, Settled(st, InstanceSetTags(st, id, keys)), id)
  {
    hide Elements;
  }

  lemma RssReset(st: Store, id: Uuid, isEnabled: bool, interval: Option<int>)
    ensures OneRelinked(st, Settled(st, RssSet(st, id, isEnabled, interval)), id)
  {
    hide IntervalInRange;
  }

  lemma RssDisabled(st: Store, id: Uuid)
    ensures OneRelinked(st, Settled(st, RssDisable(st, id)), id)
  {
  }

  lemma LinkCallKeeps(st: Store, call: Call)
    requires LinkCall(call)
    ensures ShellsKept(st, Perform(st, call))
  {
    LinkCallShape(st, call);
    AllKept(st, st);
    hide ShellsKept, Perform;
    var other := Perform(st, call);
    if other != st { OneKept(st, call.id, other.instances[call.id]); }
  }

  predicate FieldCall(call: Call) { call.SetField? || call.BindField? }

  predicate SecretOrDefinitionCall(call: Call) {
    call.CreateSecret? || call.RevokeSecret? || call.ImportDefinition? || call.AddDefinitionField?
  }

  /** Apart from the field, secret and definition calls, no call touches the fields of an instance. */
  lemma CallKeepsShells(st: Store, call: Call)
    requires !FieldCall(call) && !SecretOrDefinitionCall(call)
    ensures ShellsKept(st, Perform(st, call))
  {
    AllKept(st, st);
    hide ShellsKept, InstanceCreate, InstanceUpdate, InstanceSetRateLimit, InstanceClearRateLimit,
      InstanceSetMediaDomains, InstanceSetTags, RssSet, RssDisable, TagCreate, TagUpdate, TagDelete,
      RateLimitCreate, RateLimitUpdate, RateLimitDelete, PolicyCreate, PolicySetRateLimit, PolicyClearRateLimit,
      PolicySetParam, PolicyBindSecret;
    if TagCall(call) { TagCallKeeps(st, call); }
    else if LimitCall(call) { LimitCallKeeps(st, call); }
    else if PolicyCall(call) { PolicyCallKeeps(st, call); }
    else if LinkCall(call) { LinkCallKeeps(st, call); }
    else {
      match call
      case CreateInstance(s, n, p, t, r) => if InstanceCreate(st, s, n, p, t, r).Ok? { CreatedKept(st, s, n, p, t, r); }
      case UpdateInstance(id, p) => if InstanceUpdate(st, id, p).Ok? { UpdatedKept(st, id, p); }
    }
  }

  /** Secret and definition calls touch no instance. */
  lemma SecretsKeepInstances(st: Store, call: Call)
    requires SecretOrDefinitionCall(call)
    ensures Perform(st, call).instances == st.instances
  {
  }

  /** A field call replaces one field of one instance. */
  lemma FieldCallShape(st: Store, call: Call)
    requires FieldCall(call)
    ensures var other := Perform(st, call);
      || other == st
      || (&& call.id in st.instances && call.id in other.instances && call.name in other.instances[call.id].fields
          && var was, now := st.instances[call.id], other.instances[call.id];
          && now == was.(fields := was.fields[call.name := now.fields[call.name]])
          && other == st.(instances := st.instances[call.id := now]))
  {
    hide ValueError, TypesIn, SecretType, OlderBindings;
  }

  // ----- Timeouts and parallelism -----

  /** Timeouts and parallelism are those an instance is created with. */
  ghost predicate LimitsDefault(st: Store) {
    forall id :: id in st.instances ==> st.instances[id].limits == DEFAULT_LIMITS
  }

  lemma CallKeepsLimits(st: Store, call: Call)
    requires LimitsDefault(st)
    ensures LimitsDefault(Perform(st, call))
  {
    hide Perform;
    if FieldCall(call) { FieldCallShape(st, call); }
    else if SecretOrDefinitionCall(call) { SecretsKeepInstances(st, call); }
    else { CallKeepsShells(st, call); }
  }

  /** No procedure writes the timeouts and the parallelism of an instance. */
  lemma {:induction false} RunKeepsLimits(st: Store, calls: seq<Call>)
    requires LimitsDefault(st)
    ensures LimitsDefault(PerformAll(st, calls))
    decreases |calls|
  {
    hide Perform, LimitsDefault;
    if calls != [] {
      CallKeepsLimits(st, calls[0]);
      RunKeepsLimits(Perform(st, calls[0]), calls[1..]);
    }
  }
}
