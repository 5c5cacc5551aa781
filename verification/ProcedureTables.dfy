/** What the write procedures accept, key by key and type by type, and which refusal comes first. */
module ProcedureTables {
  import opened Basics
  import opened IndexerRecords
  import opened IndexerStore
  import opened StoreOperations
  import opened Restore
  import opened PolicyRestore
  import opened FieldRestore

  // ----- Routing policies -----

  predicate TextParameter(item: ParameterItem) {
    item.value.plain.Some? && item.value.number.None? && item.value.flag.None? && item.secretId.None?
  }

  predicate NumberParameter(item: ParameterItem, least: int, most: int) {
    && item.value.plain.None? && item.value.number.Some? && item.value.flag.None? && item.secretId.None?
    && least <= item.value.number.value <= most
  }

  predicate FlagParameter(item: ParameterItem) {
    item.value.plain.None? && item.value.number.None? && item.value.flag.Some? && item.secretId.None?
  }

  predicate SecretParameter(item: ParameterItem) {
    item.value.plain.None? && item.value.number.None? && item.value.flag.None?
  }

  predicate HttpParameter(item: ParameterItem) {
    || (item.key in {"proxy_host", "proxy_username"} && TextParameter(item))
    || (item.key == "proxy_port" && NumberParameter(item, 1, 65535))
    || (item.key == "proxy_use_tls" && FlagParameter(item))
    || (item.key == "http_proxy_auth" && SecretParameter(item))
  }

  predicate SocksParameter(item: ParameterItem) {
    || (item.key in {"socks_host", "socks_username"} && TextParameter(item))
    || (item.key == "socks_port" && NumberParameter(item, 1, 65535))
    || (item.key == "socks_proxy_auth" && SecretParameter(item))
  }

  predicate SolverParameter(item: ParameterItem) {
    || (item.key in {"fs_url", "fs_user_agent"} && TextParameter(item))
    || (item.key == "fs_timeout_ms" && NumberParameter(item, 1000, 300000))
    || (item.key == "fs_session_ttl_seconds" && NumberParameter(item, 60, 86400))
  }

  /** The parameters a policy of each mode can hold. */
  predicate ParameterShape(mode: string, item: ParameterItem) {
    && mode in {"direct", "http_proxy", "socks_proxy", "flaresolverr"}
    && if item.key == "verify_tls" then FlagParameter(item)
       else
         || (mode == "http_proxy" && HttpParameter(item))
         || (mode == "socks_proxy" && SocksParameter(item))
         || (mode == "flaresolverr" && SolverParameter(item))
  }

  lemma ParameterExactly(mode: string, item: ParameterItem)
    ensures ParameterItemOk(mode, item) <==> ParameterShape(mode, item)
  {
  }

  /** A restore recreates any parameter of its mode in a new policy, unless its secret is absent. */
  lemma ShapeRestores(st: Store, id: Uuid, name: string, item: ParameterItem, u: seq<Unresolved>)
    requires id in st.policies && st.policies[id].parameters == DefaultParameters(st.policies[id].mode)
    requires ParameterShape(st.policies[id].mode, item)
    ensures var r, p := RestoreParameter(st, id, name, item, u), st.policies[id];
      var bound := item.secretId.None? || item.secretId.value in st.secrets;
      && r.Done?
      && r.st == st.(policies := st.policies[id :=
           p.(parameters := p.parameters[item.key :=
             Parameter(item.value, if bound then item.secretId else None)])])
      && r.value == u + if bound then [] else [Unresolved(RoutingPolicyEntity, name, item.key, item.secretId.value)]
  {
    ParameterExactly(st.policies[id].mode, item);
    NewlyOpen(st.policies[id].mode, item);
    hide ParameterShape, ParameterItemOk, DefaultParameters, Open;
    ParameterRestored(st, id, name, item, u);
  }

  lemma NewlyOpen(mode: string, item: ParameterItem)
    requires ParameterShape(mode, item)
    ensures Open(DefaultParameters(mode), item)
  {
  }

  /** What is refused, and why; the order of the checks decides between several reasons. */
  lemma PolicyRefusals(st: Store, name: string, mode: string)
    ensures var r := PolicyCreate(st, name, mode);
      if mode in {"vpn_route", "tor"} then r == Err(UnsupportedRoutingMode)
      else if mode !in {"direct", "http_proxy", "socks_proxy", "flaresolverr"} then r == Err(InvalidRoutingMode)
      else if exists id :: id in st.policies && st.policies[id].displayName == name then
        r == Err(DisplayNameAlreadyExists)
      else r.Ok?
  {
  }

  /** The keys each mode knows. */
  predicate ModeHas(mode: string, key: string) {
    || (mode in {"direct", "http_proxy", "socks_proxy", "flaresolverr"} && key == "verify_tls")
    || (mode == "http_proxy" && key in
          {"proxy_host", "proxy_port", "proxy_username", "proxy_use_tls", "http_proxy_auth"})
    || (mode == "socks_proxy" && key in {"socks_host", "socks_port", "socks_username", "socks_proxy_auth"})
    || (mode == "flaresolverr" && key in {"fs_url", "fs_timeout_ms", "fs_session_ttl_seconds", "fs_user_agent"})
  }

  /** A value is stored exactly when a policy of the mode can hold it. */
  lemma ParameterAccepted(st: Store, id: Uuid, key: string, v: RoutingValue)
    requires id in st.policies
    ensures PolicySetParam(st, id, key, v).Ok? <==> ParameterShape(st.policies[id].mode, ParameterItem(key, v, None))
  {
    ParameterExactly(st.policies[id].mode, ParameterItem(key, v, None));
    hide ParameterShape, InRange;
  }

  /** A key of another mode is refused first; then a value for a secret, and a number out of range. */
  lemma ParameterRefusals(st: Store, id: Uuid, key: string, v: RoutingValue)
    requires id in st.policies
    ensures var mode, r := st.policies[id].mode, PolicySetParam(st, id, key, v);
      && (r == Err(ParamNotAllowed) <==> !ModeHas(mode, key))
      && (r == Err(ParamRequiresSecret) <==>
            ModeHas(mode, key) && key in {"http_proxy_auth", "socks_proxy_auth"} && v != RoutingValue(None, None, None))
      && (r == Err(ParamValueOutOfRange) <==>
            && ModeHas(mode, key) && key in {"proxy_port", "socks_port", "fs_timeout_ms", "fs_session_ttl_seconds"}
            && v.number.Some? && v.plain.None? && v.flag.None? && !InRange(key, v.number.value))
  {
    hide InRange, WithValue;
  }

  /** A secret is bound to the credentials of a proxy and to nothing else. */
  lemma BindRefusals(st: Store, id: Uuid, key: string, secretId: Uuid)
    requires id in st.policies
    ensures var mode, r := st.policies[id].mode, PolicyBindSecret(st, id, key, secretId);
      if (mode, key) !in {("http_proxy", "http_proxy_auth"), ("socks_proxy", "socks_proxy_auth")} then
        r == Err(ParamNotAllowed)
      else if secretId !in st.secrets then r == Err(SecretNotFound)
      else r.Ok? && r.st.policies[id].parameters[key].secretId == Some(secretId)
  {
  }

  // ----- Fields -----

  predicate OneOf(v: FieldValue) {
    || (v.plain.Some? && v.number.None? && v.decimal.None? && v.flag.None?)
    || (v.plain.None? && v.number.Some? && v.decimal.None? && v.flag.None?)
    || (v.plain.None? && v.number.None? && v.decimal.Some? && v.flag.None?)
    || (v.plain.None? && v.number.None? && v.decimal.None? && v.flag.Some?)
  }

  /** The value each type of field takes: none for secrets, the one of its kind for the types that have
      one, any single one for the others. */
  predicate FieldShape(fieldType: string, v: FieldValue, secretId: Option<Uuid>) {
    if fieldType in {"password", "api_key", "cookie", "token", "header_value"} then
      v == FieldValue(None, None, None, None)
    else
      && secretId.None? && OneOf(v)
      && (fieldType in {"string", "select_single"} ==> v.plain.Some?)
      && (fieldType == "number_int" ==> v.number.Some?)
      && (fieldType == "number_decimal" ==> v.decimal.Some?)
      && (fieldType == "bool" ==> v.flag.Some?)
  }

  lemma FieldExactly(f: FieldItem)
    ensures FieldItemOk(f) <==> FieldShape(f.fieldType, f.value, f.secretId)
  {
  }

  /** Which refusal a definition's types lead to. */
  lemma FieldRefusals(types: FieldTypes, f: FieldItem)
    ensures var r := FieldRefusal(types, f);
      var isSecret := f.name in types && types[f.name] in {"password", "api_key", "cookie", "token", "header_value"};
      && (f.name !in types <==> r == Some(FieldNotFound))
      && (f.name in types && f.secretId.Some? ==> r == if isSecret then None else Some(FieldNotSecret))
      && (isSecret && f.secretId.None? ==> r == Some(FieldRequiresSecret))
      && (f.name in types && !isSecret && f.secretId.None? ==>
            && (r == Some(ValueCountInvalid) <==> !OneOf(f.value))
            && (r == Some(ValueTypeMismatch) <==> OneOf(f.value) && !FieldShape(types[f.name], f.value, None))
            && (r.None? <==> FieldShape(types[f.name], f.value, None)))
  {
  }

  // ----- Ranges -----

  /** A rate limit is accepted within the ranges and under a name that no limit has, deleted ones included. */
  lemma LimitRefusals(st: Store, name: string, rpm: int, burst: int, concurrent: int)
    ensures var r := RateLimitCreate(st, name, rpm, burst, concurrent);
      if rpm < 1 || rpm > 6000 || burst < 0 || burst > 6000 || concurrent < 1 || concurrent > 64 then
        r == Err(LimitOutOfRange)
      else if (exists id :: id in st.rateLimits && st.rateLimits[id].displayName == name)
          || name in st.deletedLimits.Values then r == Err(DisplayNameAlreadyExists)
      else r.Ok? && r.st.rateLimits == st.rateLimits[r.value := RateLimit(name, rpm, burst, concurrent, false)]
  {
    assert name in st.deletedLimits.Values <==> exists id :: id in st.deletedLimits && st.deletedLimits[id] == name;
  }

  /** A subscription is set from five minutes to a day, and on only with the instance and its RSS. */
  lemma SubscriptionRefusals(st: Store, id: Uuid, isEnabled: bool, interval: Option<int>)
    requires id in st.instances
    ensures var r, inst := RssSet(st, id, isEnabled, interval), st.instances[id];
      if isEnabled && (!inst.isEnabled || !inst.enableRss) then r == Err(RssEnableIndexerDisabled)
      else if interval.Some? && (interval.value < 300 || interval.value > 86400) then r == Err(IntervalOutOfRange)
      else
        && r.Ok?
        && r.st.instances[id].rss == Some(Rss(isEnabled,
             if interval.Some? then interval.value
             else if inst.rss.Some? then inst.rss.value.intervalSeconds else 900))
  {
  }

  /** Why an instance is refused; the order of the checks decides between several reasons. */
  lemma InstanceRefusals(st: Store, slug: string, name: string, priority: int, tier: Option<string>,
                         routingId: Option<Uuid>)
    ensures var r := InstanceCreate(st, slug, name, priority, tier, routingId);
      if slug !in st.reference.definitions then r == Err(DefinitionNotFound)
      else if st.reference.definitions[slug].deprecated then r == Err(DefinitionDeprecated)
      else if exists id :: id in st.instances && st.instances[id].displayName == name then
        r == Err(DisplayNameAlreadyExists)
      else if priority < 0 || priority > 100 then r == Err(PriorityOutOfRange)
      else if routingId.Some? && routingId.value !in st.policies then r == Err(RoutingPolicyNotFound)
      else if tier.Some? && tier.value !in st.reference.trustTiers then r == Err(TrustTierNotFound)
      else r.Ok? && r.value == st.nextId && r.value in r.st.instances
  {
  }

  // ----- What an accepted call changes -----

  function Given<T>(value: Option<T>, otherwise: T): T { if value.Some? then value.value else otherwise }

  /** Nothing but this instance differs. */
  ghost predicate OnlyInstance(before: Store, after: Store, id: Uuid) {
    after == before.(instances := after.instances)
    && after.instances.Keys == before.instances.Keys
    && forall other :: other in before.instances && other != id ==> after.instances[other] == before.instances[other]
  }

  /** An update replaces what it is given, keeps the rest, and turns the subscription off with the instance or
      its RSS. */
  lemma UpdateEffects(st: Store, id: Uuid, p: InstancePatch)
    requires InstanceUpdate(st, id, p).Ok?
    ensures var after := InstanceUpdate(st, id, p).st;
      && id in st.instances && id in after.instances && OnlyInstance(st, after, id)
      && var a, b := st.instances[id], after.instances[id];
      && b == a.(
           displayName := Given(p.displayName, a.displayName), priority := Given(p.priority, a.priority),
           trustTierKey := if p.tier.Some? then p.tier else a.trustTierKey,
           routingId := if p.routingId.Some? then p.routingId else a.routingId,
           isEnabled := Given(p.isEnabled, a.isEnabled), enableRss := Given(p.enableRss, a.enableRss),
           enableAutomaticSearch := Given(p.enableAutomaticSearch, a.enableAutomaticSearch),
           enableInteractiveSearch := Given(p.enableInteractiveSearch, a.enableInteractiveSearch), rss := b.rss)
      && (b.isEnabled && b.enableRss ==> b.rss == if a.rss.Some? then a.rss else Some(Rss(true, 900)))
      && (!(b.isEnabled && b.enableRss) ==>
            b.rss == Some(Rss(false, if a.rss.Some? then a.rss.value.intervalSeconds else 900)))
  {
  }

  /** A value takes the place of the field's value; a new field takes its present type. */
  lemma SetValueEffects(st: Store, id: Uuid, name: string, v: FieldValue)
    requires FieldSetValue(st, id, name, v).Ok?
    ensures var after := FieldSetValue(st, id, name, v).st;
      && id in st.instances && id in after.instances && OnlyInstance(st, after, id)
      && var a, b := st.instances[id], after.instances[id];
      && name in b.fields && b == a.(fields := a.fields[name := b.fields[name]])
      && name in TypesIn(st.reference, a.upstreamSlug)
      && var fieldType := TypesIn(st.reference, a.upstreamSlug)[name];
      && FieldShape(fieldType, v, None) && b.fields[name].value == v && b.fields[name].fieldType == fieldType
      && (name !in a.fields ==> b.fields[name].secretId.None? && b.fields[name].older == map[])
      && (name in a.fields ==> b.fields[name] == a.fields[name].(value := v))
  {
  }

  /** A binding takes the field's present type and no value. The binding made under another type stays. */
  lemma BindEffects(st: Store, id: Uuid, name: string, secretId: Uuid)
    requires FieldBindSecret(st, id, name, secretId).Ok?
    ensures var after := FieldBindSecret(st, id, name, secretId).st;
      && id in st.instances && id in after.instances && OnlyInstance(st, after, id)
      && var a, b := st.instances[id], after.instances[id];
      && name in b.fields && b == a.(fields := a.fields[name := b.fields[name]])
      && name in TypesIn(st.reference, a.upstreamSlug) && secretId in st.secrets
      && var f, fieldType := b.fields[name], TypesIn(st.reference, a.upstreamSlug)[name];
      && fieldType in {"password", "api_key", "cookie", "token", "header_value"}
      && f.fieldType == fieldType && f.secretId == Some(secretId) && f.value == FieldValue(None, None, None, None)
      && (name in a.fields && a.fields[name].secretId.Some? && a.fields[name].fieldType != fieldType ==>
            a.fields[name].fieldType in f.older
            && f.older[a.fields[name].fieldType] == a.fields[name].secretId.value)
      && fieldType !in f.older
  {
  }

  /** A deleted limit or tag keeps its name taken and is live no more. */
  lemma DeleteEffects(st: Store, id: Uuid, key: string)
    ensures var r := RateLimitDelete(st, id);
      && (id in st.rateLimits && r.Ok? && id !in st.deletedLimits ==>
            && id !in r.st.rateLimits && !st.rateLimits[id].isSystem
            && r.st == st.(rateLimits := st.rateLimits - {id},
                           deletedLimits := st.deletedLimits[id := st.rateLimits[id].displayName])
            && (forall p :: p in st.policies ==> st.policies[p].rateLimitId != Some(id))
            && (forall i :: i in st.instances ==> st.instances[i].rateLimitId != Some(id)))
    ensures var r := TagDelete(st, key);
      key in st.tags ==>
        r == Ok(st.(tags := st.tags - {key}, deletedTags := st.deletedTags + {key}), ())
        && TagCreate(r.st, key, "again") == Err(TagKeyAlreadyExists)
  {
  }
}
