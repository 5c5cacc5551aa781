/** The write procedures on everything a backup holds, as total functions on the abstract store.
    A procedure that raises leaves the store as it was. */
module StoreOperations {
  import opened Basics
  import opened IndexerRecords
  import opened IndexerStore

  datatype ErrorCode =
    | TagKeyAlreadyExists | DisplayNameAlreadyExists
    | RateLimitReferenceMissing | RoutingPolicyReferenceMissing
    | UnsupportedRoutingMode | InvalidRoutingMode | RoutingPolicyNotFound | RateLimitPolicyNotFound
    | ParamNotAllowed | ParamRequiresSecret | ParamValueInvalid | ParamValueOutOfRange
    | DefinitionNotFound | TrustTierNotFound | IndexerNotFound | UnknownKey
    | DefinitionDeprecated | DefinitionFieldExists
    | FieldNotFound | FieldRequiresSecret | FieldNotSecret | FieldTypeMismatch | ValueCountInvalid | ValueTypeMismatch
    | LimitOutOfRange | PriorityOutOfRange | IntervalOutOfRange
    | RssEnableIndexerDisabled | SecretNotFound
    | TagDeleted | PolicyIsSystem | PolicyInUse | PolicyDeleted

  /** The outcome of one procedure call. */
  datatype Reply<+T> = Ok(st: Store, value: T) | Err(code: ErrorCode)

  /** The store after the call: a refused call leaves it alone. */
  function Settled<T>(st: Store, r: Reply<T>): Store {
    if r.Ok? then r.st else st
  }

  const DEFAULT_LIMITS := Limits(5000, 15000, 2)
  const DEFAULT_RSS := Rss(true, 900)

  // ----- Tags and rate limits -----

  function TagCreate(st: Store, key: string, displayName: string): Reply<()> {
    if key in st.tags || key in st.deletedTags then Err(TagKeyAlreadyExists)
    else Ok(st.(tags := st.tags[key := displayName]), ())
  }

  function TagUpdate(st: Store, key: string, displayName: string): Reply<()> {
    if key in st.tags then Ok(st.(tags := st.tags[key := displayName]), ())
    else if key in st.deletedTags then Err(TagDeleted) else Err(UnknownKey)
  }

  /** Instances keep their links to a deleted tag; the export no longer joins them. */
  function TagDelete(st: Store, key: string): Reply<()> {
    if key in st.tags then Ok(st.(tags := st.tags - {key}, deletedTags := st.deletedTags + {key}), ())
    else if key in st.deletedTags then Ok(st, ()) else Err(UnknownKey)
  }

  predicate RateLimitNamed(st: Store, name: string) {
    || (exists id :: id in st.rateLimits && st.rateLimits[id].displayName == name)
    || (exists id :: id in st.deletedLimits && st.deletedLimits[id] == name)
  }

  predicate LimitNamedElsewhere(st: Store, id: Uuid, name: string) {
    || (exists other :: other in st.rateLimits && other != id && st.rateLimits[other].displayName == name)
    || (exists other :: other in st.deletedLimits && other != id && st.deletedLimits[other] == name)
  }

  predicate LimitsInRange(rpm: int, burst: int, concurrent: int) {
    1 <= rpm <= 6000 && 0 <= burst <= 6000 && 1 <= concurrent <= 64
  }

  function RateLimitCreate(st: Store, name: string, rpm: int, burst: int, concurrent: int): Reply<Uuid> {
    if !LimitsInRange(rpm, burst, concurrent) then Err(LimitOutOfRange)
    else if RateLimitNamed(st, name) then Err(DisplayNameAlreadyExists)
    else Ok(st.(rateLimits := st.rateLimits[st.nextId := RateLimit(name, rpm, burst, concurrent, false)],
                nextId := st.nextId + 1), st.nextId)
  }

  /** Only the values that are given are checked. */
  predicate UpdateInRange(rpm: Option<int>, burst: Option<int>, concurrent: Option<int>) {
    LimitsInRange(rpm.Or(Some(1)).value, burst.Or(Some(0)).value, concurrent.Or(Some(1)).value)
  }

  /** A deleted limit can still be renamed. */
  function RateLimitUpdate(st: Store, id: Uuid, name: Option<string>, rpm: Option<int>, burst: Option<int>,
                           concurrent: Option<int>): Reply<()>
  {
    if id in st.deletedLimits then
      if name.Some? && LimitNamedElsewhere(st, id, name.value) then Err(DisplayNameAlreadyExists)
      else if !UpdateInRange(rpm, burst, concurrent) then Err(LimitOutOfRange)
      else Ok(st.(deletedLimits := st.deletedLimits[id := name.Or(Some(st.deletedLimits[id])).value]), ())
    else if id !in st.rateLimits then Err(RateLimitPolicyNotFound)
    else if st.rateLimits[id].isSystem then Err(PolicyIsSystem)
    else if name.Some? && LimitNamedElsewhere(st, id, name.value) then Err(DisplayNameAlreadyExists)
    else if !UpdateInRange(rpm, burst, concurrent) then Err(LimitOutOfRange)
    else
      var r := st.rateLimits[id];
      Ok(st.(rateLimits := st.rateLimits[id := r.(
        displayName := name.Or(Some(r.displayName)).value, requestsPerMinute := rpm.Or(Some(r.requestsPerMinute)).value,
        burst := burst.Or(Some(r.burst)).value,
        concurrentRequests := concurrent.Or(Some(r.concurrentRequests)).value)]), ())
  }

  predicate LimitInUse(st: Store, id: Uuid) {
    || (exists p :: p in st.policies && st.policies[p].rateLimitId == Some(id))
    || (exists i :: i in st.instances && st.instances[i].rateLimitId == Some(id))
  }

  function RateLimitDelete(st: Store, id: Uuid): Reply<()> {
    if id in st.deletedLimits then Ok(st, ())
    else if id !in st.rateLimits then Err(RateLimitPolicyNotFound)
    else if st.rateLimits[id].isSystem then Err(PolicyIsSystem)
    else if LimitInUse(st, id) then Err(PolicyInUse)
    else Ok(st.(rateLimits := st.rateLimits - {id},
                deletedLimits := st.deletedLimits[id := st.rateLimits[id].displayName]), ())
  }

  // ----- Routing policies -----

  datatype ParamKind = Secret | Flag | Number | Text

  function KindOf(key: string): ParamKind {
    if key == "http_proxy_auth" || key == "socks_proxy_auth" then Secret
    else if key == "verify_tls" || key == "proxy_use_tls" then Flag
    else if key == "proxy_port" || key == "socks_port" || key == "fs_timeout_ms"
        || key == "fs_session_ttl_seconds" then Number
    else Text
  }

  predicate InRange(key: string, n: int) {
    if key == "fs_timeout_ms" then 1000 <= n <= 300000
    else if key == "fs_session_ttl_seconds" then 60 <= n <= 86400
    else 1 <= n <= 65535
  }

  predicate SupportedMode(mode: string) {
    mode == "direct" || mode == "http_proxy" || mode == "socks_proxy" || mode == "flaresolverr"
  }

  predicate ParamAllowed(mode: string, key: string) {
    if mode == "direct" then key == "verify_tls"
    else if mode == "http_proxy" then
      key in {"verify_tls", "proxy_host", "proxy_port", "proxy_username", "proxy_use_tls", "http_proxy_auth"}
    else if mode == "socks_proxy" then
      key in {"verify_tls", "socks_host", "socks_port", "socks_username", "socks_proxy_auth"}
    else if mode == "flaresolverr" then
      key in {"verify_tls", "fs_url", "fs_timeout_ms", "fs_session_ttl_seconds", "fs_user_agent"}
    else false
  }

  predicate SecretAllowed(mode: string, key: string) {
    (mode == "http_proxy" && key == "http_proxy_auth") || (mode == "socks_proxy" && key == "socks_proxy_auth")
  }

  const NO_PARAMETER := Parameter(NO_ROUTING_VALUE, None)
  const VERIFY_TLS := Parameter(RoutingValue(None, None, Some(true)), None)

  /** The parameters `routing_policy_create` inserts with the policy. */
  function DefaultParameters(mode: string): map<string, Parameter> {
    if mode == "http_proxy" then map["verify_tls" := VERIFY_TLS, "http_proxy_auth" := NO_PARAMETER]
    else if mode == "socks_proxy" then map["verify_tls" := VERIFY_TLS, "socks_proxy_auth" := NO_PARAMETER]
    else map["verify_tls" := VERIFY_TLS]
  }

  predicate PolicyNamed(st: Store, name: string) {
    exists id :: id in st.policies && st.policies[id].displayName == name
  }

  function PolicyCreate(st: Store, name: string, mode: string): Reply<Uuid> {
    if mode == "vpn_route" || mode == "tor" then Err(UnsupportedRoutingMode)
    else if !SupportedMode(mode) then Err(InvalidRoutingMode)
    else if PolicyNamed(st, name) then Err(DisplayNameAlreadyExists)
    else Ok(st.(policies := st.policies[st.nextId := Policy(name, mode, None, DefaultParameters(mode))],
                nextId := st.nextId + 1), st.nextId)
  }

  function PolicySetRateLimit(st: Store, id: Uuid, rateLimitId: Uuid): Reply<()> {
    if id !in st.policies then Err(RoutingPolicyNotFound)
    else if rateLimitId !in st.rateLimits then
      Err(if rateLimitId in st.deletedLimits then PolicyDeleted else RateLimitPolicyNotFound)
    else Ok(st.(policies := st.policies[id := st.policies[id].(rateLimitId := Some(rateLimitId))]), ())
  }

  function PolicyClearRateLimit(st: Store, id: Uuid): Reply<()> {
    if id !in st.policies then Err(RoutingPolicyNotFound)
    else Ok(st.(policies := st.policies[id := st.policies[id].(rateLimitId := None)]), ())
  }

  /** Why the value is refused under the key, if it is. */
  function ParamError(key: string, v: RoutingValue): Option<ErrorCode> {
    match KindOf(key)
    case Secret => if v.Present() then Some(ParamRequiresSecret) else None
    case Flag => if v.flag.None? || v.plain.Some? || v.number.Some? then Some(ParamValueInvalid) else None
    case Text => if v.plain.None? || v.number.Some? || v.flag.Some? then Some(ParamValueInvalid) else None
    case Number =>
      if v.number.None? || v.plain.Some? || v.flag.Some? then Some(ParamValueInvalid)
      else if !InRange(key, v.number.value) then Some(ParamValueOutOfRange) else None
  }

  function ParameterAt(parameters: map<string, Parameter>, key: string): Parameter {
    if key in parameters then parameters[key] else NO_PARAMETER
  }

  /** The row after an upsert of the column that the key's kind uses. */
  function WithValue(p: Parameter, key: string, v: RoutingValue): Parameter {
    match KindOf(key)
    case Secret => p
    case Flag => p.(value := p.value.(flag := v.flag))
    case Number => p.(value := p.value.(number := v.number))
    case Text => p.(value := p.value.(plain := v.plain))
  }

  function PolicySetParam(st: Store, id: Uuid, key: string, v: RoutingValue): Reply<()> {
    if id !in st.policies then Err(RoutingPolicyNotFound) else
      var p := st.policies[id];
      if !ParamAllowed(p.mode, key) then Err(ParamNotAllowed)
      else if ParamError(key, v).Some? then Err(ParamError(key, v).value)
      else Ok(st.(policies := st.policies[id :=
          p.(parameters := p.parameters[key := WithValue(ParameterAt(p.parameters, key), key, v)])]), ())
  }

  function PolicyBindSecret(st: Store, id: Uuid, key: string, secretId: Uuid): Reply<()> {
    if id !in st.policies then Err(RoutingPolicyNotFound) else
      var p := st.policies[id];
      if !SecretAllowed(p.mode, key) then Err(ParamNotAllowed)
      else if secretId !in st.secrets then Err(SecretNotFound)
      else Ok(st.(policies := st.policies[id :=
          p.(parameters := p.parameters[key := ParameterAt(p.parameters, key).(secretId := Some(secretId))])]), ())
  }

  // ----- Indexer instances -----

  predicate InstanceNamed(st: Store, name: string) {
    exists id :: id in st.instances && st.instances[id].displayName == name
  }

  function InstanceCreate(st: Store, slug: string, name: string, priority: int, tier: Option<string>,
      routingId: Option<Uuid>)
    : Reply<Uuid>
  {
    if slug !in st.reference.definitions then Err(DefinitionNotFound)
    else if st.reference.definitions[slug].deprecated then Err(DefinitionDeprecated)
    else if InstanceNamed(st, name) then Err(DisplayNameAlreadyExists)
    else if !(0 <= priority <= 100) then Err(PriorityOutOfRange)
    else if routingId.Some? && routingId.value !in st.policies then Err(RoutingPolicyNotFound)
    else if tier.Some? && tier.value !in st.reference.trustTiers then Err(TrustTierNotFound)
    else
      var inst := Instance(name, slug, true, true, true, true, priority, tier, DEFAULT_LIMITS,
                           routingId, None, Some(DEFAULT_RSS), {}, {}, map[]);
      Ok(st.(instances := st.instances[st.nextId := inst], nextId := st.nextId + 1), st.nextId)
  }

  datatype Flags = Flags(isEnabled: bool, enableRss: bool, enableAutomaticSearch: bool, enableInteractiveSearch: bool)

  /** The parts of an instance an update may name; what is absent stays. */
  datatype InstancePatch = InstancePatch(
    displayName: Option<string>, priority: Option<int>, tier: Option<string>, routingId: Option<Uuid>,
    isEnabled: Option<bool>, enableRss: Option<bool>, enableAutomaticSearch: Option<bool>,
    enableInteractiveSearch: Option<bool>)

  function PatchedFlags(inst: Instance, p: InstancePatch): Flags {
    Flags(p.isEnabled.Or(Some(inst.isEnabled)).value, p.enableRss.Or(Some(inst.enableRss)).value,
          p.enableAutomaticSearch.Or(Some(inst.enableAutomaticSearch)).value,
          p.enableInteractiveSearch.Or(Some(inst.enableInteractiveSearch)).value)
  }

  predicate InstanceNamedElsewhere(st: Store, id: Uuid, name: string) {
    exists other :: other in st.instances && other != id && st.instances[other].displayName == name
  }

  /** Disabling the instance or its RSS turns the subscription off; a missing row is created. */
  function RssAfterUpdate(rss: Option<Rss>, flags: Flags): Option<Rss> {
    if flags.isEnabled && flags.enableRss then
      if rss.Some? then rss else Some(DEFAULT_RSS)
    else
      if rss.Some? then Some(rss.value.(isEnabled := false)) else Some(Rss(false, 900))
  }

  function InstanceUpdate(st: Store, id: Uuid, p: InstancePatch): Reply<()> {
    if id !in st.instances then Err(IndexerNotFound)
    else if p.displayName.Some? && InstanceNamedElsewhere(st, id, p.displayName.value) then
      Err(DisplayNameAlreadyExists)
    else if p.priority.Some? && !(0 <= p.priority.value <= 100) then Err(PriorityOutOfRange)
    else if p.tier.Some? && p.tier.value !in st.reference.trustTiers then Err(UnknownKey)
    else if p.routingId.Some? && p.routingId.value !in st.policies then Err(RoutingPolicyNotFound)
    else
      var inst := st.instances[id];
      var flags := PatchedFlags(inst, p);
      Ok(st.(instances := st.instances[id := inst.(
        displayName := p.displayName.Or(Some(inst.displayName)).value,
        priority := p.priority.Or(Some(inst.priority)).value,
        trustTierKey := p.tier.Or(inst.trustTierKey), routingId := p.routingId.Or(inst.routingId),
        isEnabled := flags.isEnabled, enableRss := flags.enableRss,
        enableAutomaticSearch := flags.enableAutomaticSearch, enableInteractiveSearch := flags.enableInteractiveSearch,
        rss := RssAfterUpdate(inst.rss, flags))]), ())
  }

  function InstanceSetRateLimit(st: Store, id: Uuid, rateLimitId: Uuid): Reply<()> {
    if id !in st.instances then Err(IndexerNotFound)
    else if rateLimitId !in st.rateLimits then
      Err(if rateLimitId in st.deletedLimits then PolicyDeleted else RateLimitPolicyNotFound)
    else Ok(st.(instances := st.instances[id := st.instances[id].(rateLimitId := Some(rateLimitId))]), ())
  }

  function InstanceClearRateLimit(st: Store, id: Uuid): Reply<()> {
    if id !in st.instances then Err(IndexerNotFound)
    else Ok(st.(instances := st.instances[id := st.instances[id].(rateLimitId := None)]), ())
  }

  function Elements(s: seq<string>): set<string> {
    set k | k in s
  }

  function InstanceSetMediaDomains(st: Store, id: Uuid, keys: seq<string>): Reply<()> {
    if id !in st.instances then Err(IndexerNotFound)
    else if !(Elements(keys) <= st.reference.mediaDomains) then Err(UnknownKey)
    else Ok(st.(instances := st.instances[id := st.instances[id].(mediaKeys := Elements(keys))]), ())
  }

  function InstanceSetTags(st: Store, id: Uuid, keys: seq<string>): Reply<()> {
    if id !in st.instances then Err(IndexerNotFound)
    else if !(Elements(keys) <= st.tags.Keys) then Err(UnknownKey)
    else Ok(st.(instances := st.instances[id := st.instances[id].(tagKeys := Elements(keys))]), ())
  }

  predicate SecretType(fieldType: string) {
    fieldType in {"password", "api_key", "cookie", "token", "header_value"}
  }

  function Count<T>(o: Option<T>): nat {
    if o.Some? then 1 else 0
  }

  function ValueCount(v: FieldValue): nat {
    Count(v.plain) + Count(v.number) + Count(v.decimal) + Count(v.flag)
  }

  predicate ValueMatches(fieldType: string, v: FieldValue) {
    if fieldType == "string" || fieldType == "select_single" then v.plain.Some?
    else if fieldType == "number_int" then v.number.Some?
    else if fieldType == "number_decimal" then v.decimal.Some?
    else if fieldType == "bool" then v.flag.Some?
    else true
  }

  /** Why the value is refused for the type, if it is. */
  function ValueError(fieldType: string, v: FieldValue): Option<ErrorCode> {
    if SecretType(fieldType) then Some(FieldRequiresSecret)
    else if ValueCount(v) != 1 then Some(ValueCountInvalid)
    else if !ValueMatches(fieldType, v) then Some(ValueTypeMismatch)
    else None
  }

  function TypesIn(reference: Reference, slug: string): map<string, string> {
    if slug in reference.definitions then reference.definitions[slug].types else map[]
  }

  /** The type the instance's definition now gives the field. */
  function FieldTypeOf(st: Store, inst: Instance, name: string): Option<string> {
    var types := TypesIn(st.reference, inst.upstreamSlug);
    if name in types then Some(types[name]) else None
  }

  /** A value replaces a value, never one stored under another type. */
  function FieldSetValue(st: Store, id: Uuid, name: string, v: FieldValue): Reply<()> {
    if id !in st.instances then Err(IndexerNotFound) else
      var inst := st.instances[id];
      var fieldType := FieldTypeOf(st, inst, name);
      if fieldType.None? then Err(FieldNotFound)
      else if ValueError(fieldType.value, v).Some? then Err(ValueError(fieldType.value, v).value)
      else if name in inst.fields && inst.fields[name].fieldType != fieldType.value then Err(FieldTypeMismatch)
      else
        var f := if name in inst.fields then inst.fields[name].(value := v) else Field(fieldType.value, v, None, map[]);
        Ok(st.(instances := st.instances[id := inst.(fields := inst.fields[name := f])]), ())
  }

  /** The bindings a row keeps when it is bound anew under `fieldType`: all but the one of that name. */
  function OlderBindings(inst: Instance, name: string, fieldType: string): map<string, Uuid> {
    if name !in inst.fields then map[] else
      var f := inst.fields[name];
      (if f.secretId.Some? then f.older[f.fieldType := f.secretId.value] else f.older) - {fieldType}
  }

  function FieldBindSecret(st: Store, id: Uuid, name: string, secretId: Uuid): Reply<()> {
    if id !in st.instances then Err(IndexerNotFound) else
      var inst := st.instances[id];
      var fieldType := FieldTypeOf(st, inst, name);
      if fieldType.None? then Err(FieldNotFound)
      else if !SecretType(fieldType.value) then Err(FieldNotSecret)
      else if secretId !in st.secrets then Err(SecretNotFound)
      else
        var f := Field(fieldType.value, NO_FIELD_VALUE, Some(secretId), OlderBindings(inst, name, fieldType.value));
        Ok(st.(instances := st.instances[id := inst.(fields := inst.fields[name := f])]), ())
  }

  predicate IntervalInRange(seconds: int) { 300 <= seconds <= 86400 }

  function RssSet(st: Store, id: Uuid, isEnabled: bool, interval: Option<int>): Reply<()> {
    if id !in st.instances then Err(IndexerNotFound) else
      var inst := st.instances[id];
      if isEnabled && !(inst.isEnabled && inst.enableRss) then Err(RssEnableIndexerDisabled)
      else if interval.Some? && !IntervalInRange(interval.value) then Err(IntervalOutOfRange)
      else
        var known := if inst.rss.Some? then inst.rss.value.intervalSeconds else 900;
        Ok(st.(instances := st.instances[id :=
            inst.(rss := Some(Rss(isEnabled, if interval.Some? then interval.value else known)))]), ())
  }

  function RssDisable(st: Store, id: Uuid): Reply<()> {
    if id !in st.instances then Err(IndexerNotFound) else
      var inst := st.instances[id];
      var known := if inst.rss.Some? then inst.rss.value.intervalSeconds else 900;
      Ok(st.(instances := st.instances[id := inst.(rss := Some(Rss(false, known)))]), ())
  }

  // ----- Secrets and definitions -----

  function SecretCreate(st: Store, secretType: string): Reply<Uuid> {
    Ok(st.(secrets := st.secrets[st.nextId := secretType], nextId := st.nextId + 1), st.nextId)
  }

  function SecretRevoke(st: Store, id: Uuid): Reply<()> {
    if id in st.secrets then Ok(st.(secrets := st.secrets - {id}), ()) else Err(SecretNotFound)
  }

  /** Importing a definition, again or for the first time, leaves it without fields. Instances keep the
      fields they have. */
  function DefinitionImport(st: Store, slug: string, deprecated: bool): Reply<()> {
    var definitions := st.reference.definitions[slug := Definition(map[], deprecated)];
    Ok(st.(reference := st.reference.(definitions := definitions)), ())
  }

  function DefinitionAddField(st: Store, slug: string, name: string, fieldType: string): Reply<()> {
    if slug !in st.reference.definitions then Err(DefinitionNotFound) else
      var d := st.reference.definitions[slug];
      if name in d.types then Err(DefinitionFieldExists)
      else
        Ok(st.(reference := st.reference.(definitions :=
          st.reference.definitions[slug := d.(types := d.types[name := fieldType])])), ())
  }
}
