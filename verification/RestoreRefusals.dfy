/** A call that a procedure refuses stops the restore with the procedure's own error and leaves what was
    written before it. A missing secret alone is passed over. */
module RestoreRefusals {
  import opened Basics
  import opened IndexerRecords
  import opened IndexerStore
  import opened StoreOperations
  import opened Restore
  import opened DanglingReferences

  /** The limit behind `a` is refused: the limits of `a` stay. */
  lemma LimitRefused(st: Store, system: Ids, a: seq<RateLimitItem>, item: RateLimitItem, b: seq<RateLimitItem>,
                     made: Created)
    requires !item.isSystem && RestoreRateLimits(st, system, a, made).Done?
    requires var s := RestoreRateLimits(st, system, a, made).st;
      RateLimitCreate(s, item.displayName, item.requestsPerMinute, item.burst, item.concurrentRequests).Err?
    ensures var s := RestoreRateLimits(st, system, a, made).st;
      RestoreRateLimits(st, system, a + [item] + b, made) ==
        Failed(s, RateLimitCreate(s, item.displayName, item.requestsPerMinute, item.burst,
                                  item.concurrentRequests).code)
  {
    assert a + [item] + b == a + ([item] + b);
    LimitsJoin(st, system, a, [item] + b, made);
    hide RateLimitCreate;
  }

  /** The policy behind `a` is refused: the policies of `a` stay. */
  lemma PolicyRefused(st: Store, a: seq<RoutingItem>, item: RoutingItem, b: seq<RoutingItem>, limits: Ids, p: Progress)
    requires RestorePolicies(st, a, limits, p).Done?
    requires PolicyCreate(RestorePolicies(st, a, limits, p).st, item.displayName, item.mode).Err?
    ensures var s := RestorePolicies(st, a, limits, p).st;
      RestorePolicies(st, a + [item] + b, limits, p) ==
        Failed(s, PolicyCreate(s, item.displayName, item.mode).code)
  {
    assert a + [item] + b == a + ([item] + b);
    PoliciesJoin(st, a, [item] + b, limits, p);
    hide PolicyCreate, RestoreParameters, LinkPolicy;
  }

  lemma {:induction false} ParametersJoin(st: Store, id: Uuid, name: string, a: seq<ParameterItem>,
                                          b: seq<ParameterItem>, u: seq<Unresolved>)
    ensures RestoreParameters(st, id, name, a + b, u) ==
      match RestoreParameters(st, id, name, a, u)
      case Failed(s, c) => Failed(s, c)
      case Done(s, v) => RestoreParameters(s, id, name, b, v)
    decreases |a|
  {
    hide RestoreParameter;
    if a == [] {
      assert a + b == b;
    } else {
      assert (a + b)[1..] == a[1..] + b;
      match RestoreParameter(st, id, name, a[0], u)
      case Failed(_, _) =>
      case Done(st', u') => ParametersJoin(st', id, name, a[1..], b, u');
    }
  }

  /** A parameter's value is sent before its secret; the first call refused decides the error, and a secret
      that is not there is only reported. */
  lemma ParameterRefused(st: Store, id: Uuid, name: string, a: seq<ParameterItem>, item: ParameterItem,
                         b: seq<ParameterItem>, u: seq<Unresolved>)
    requires RestoreParameters(st, id, name, a, u).Done?
    ensures var (s, v) := (RestoreParameters(st, id, name, a, u).st, RestoreParameters(st, id, name, a, u).value);
      var r := RestoreParameters(st, id, name, a + [item] + b, u);
      var stored := if item.value == NO_ROUTING_VALUE then Ok(s, ()) else PolicySetParam(s, id, item.key, item.value);
      if stored.Err? then r == Failed(s, stored.code)
      else if item.secretId.None? then r == RestoreParameters(stored.st, id, name, b, v)
      else
        var bound := PolicyBindSecret(stored.st, id, item.key, item.secretId.value);
        if bound.Ok? then r == RestoreParameters(bound.st, id, name, b, v)
        else if bound.code != SecretNotFound then r == Failed(stored.st, bound.code)
        else
          r == RestoreParameters(stored.st, id, name, b,
                                 v + [Unresolved(RoutingPolicyEntity, name, item.key, item.secretId.value)])
  {
    assert a + [item] + b == a + ([item] + b) && ([item] + b)[1..] == b;
    ParametersJoin(st, id, name, a, [item] + b, u);
    hide PolicySetParam, PolicyBindSecret;
  }

  /** The instance behind `a` is refused at its creation: the instances of `a` stay. */
  lemma InstanceRefused(st: Store, a: seq<InstanceItem>, item: InstanceItem, b: seq<InstanceItem>, limits: Ids,
                        policies: Ids, acc: Instances, routingId: Option<Uuid>)
    requires RestoreInstances(st, a, limits, policies, acc).Done?
    requires routingId.Some? <==> item.routingName.Some?
    requires item.routingName.Some? ==>
      item.routingName.value in policies && routingId == Some(policies[item.routingName.value])
    requires var s, c := RestoreInstances(st, a, limits, policies, acc).st, item.columns;
      InstanceCreate(s, c.upstreamSlug, item.displayName, c.priority, c.trustTierKey, routingId).Err?
    ensures var s, c := RestoreInstances(st, a, limits, policies, acc).st, item.columns;
      RestoreInstances(st, a + [item] + b, limits, policies, acc) ==
        Failed(s, InstanceCreate(s, c.upstreamSlug, item.displayName, c.priority, c.trustTierKey, routingId).code)
  {
    hide InstanceCreate, RestoreInstances, InstanceUpdate, RestoreLinks, RestoreFields, RestoreRss;
    assert a + [item] + b == a + ([item] + b);
    InstancesJoin(st, a, [item] + b, limits, policies, acc);
    FirstFails(RestoreInstances(st, a, limits, policies, acc).st, [item] + b, limits, policies,
               RestoreInstances(st, a, limits, policies, acc).value);
  }

  function WithKeys(st: Store, id: Uuid, media: set<string>, tags: set<string>): Store
    requires id in st.instances
  {
    st.(instances := st.instances[id := st.instances[id].(mediaKeys := media, tagKeys := tags)])
  }

  /** An empty list is not sent; any other replaces what was there. */
  function Sent(keys: seq<string>, before: set<string>): set<string> {
    if keys == [] then before else set k | k in keys
  }

  lemma MediaSent(st: Store, id: Uuid, keys: seq<string>)
    requires id in st.instances
    ensures var r, inst := LinkMedia(st, id, keys), st.instances[id];
      if exists k :: k in keys && k !in st.reference.mediaDomains then r == Failed(st, UnknownKey)
      else r == Done(WithKeys(st, id, Sent(keys, inst.mediaKeys), inst.tagKeys), ())
  {
    assert st == WithKeys(st, id, st.instances[id].mediaKeys, st.instances[id].tagKeys);
    assert Elements(keys) == set k | k in keys;
  }

  lemma TagsSent(st: Store, id: Uuid, keys: seq<string>)
    requires id in st.instances
    ensures var r, inst := LinkTags(st, id, keys), st.instances[id];
      if exists k :: k in keys && k !in st.tags then r == Failed(st, UnknownKey)
      else r == Done(WithKeys(st, id, inst.mediaKeys, Sent(keys, inst.tagKeys)), ())
  {
    assert st == WithKeys(st, id, st.instances[id].mediaKeys, st.instances[id].tagKeys);
    assert Elements(keys) == set k | k in keys;
  }

  /** Media domains and tags are sent when there are any, in this order; an unknown key stops the restore. */
  lemma LinksRefused(st: Store, id: Uuid, item: InstanceItem, limits: Ids)
    requires id in st.instances && item.rateLimitName.None?
    ensures var r, inst := RestoreLinks(st, id, item, limits), st.instances[id];
      var media := Sent(item.mediaKeys, inst.mediaKeys);
      var tags := Sent(item.tagKeys, inst.tagKeys);
      if exists k :: k in item.mediaKeys && k !in st.reference.mediaDomains then r == Failed(st, UnknownKey)
      else if exists k :: k in item.tagKeys && k !in st.tags then
        r == Failed(WithKeys(st, id, media, inst.tagKeys), UnknownKey)
      else r == Done(WithKeys(st, id, media, tags), ())
  {
    hide LinkMedia, LinkTags, WithKeys;
    MediaSent(st, id, item.mediaKeys);
    var media := Sent(item.mediaKeys, st.instances[id].mediaKeys);
    var linked := WithKeys(st, id, media, st.instances[id].tagKeys);
    KeysSet(st, id, media, st.instances[id].tagKeys);
    if !exists k :: k in item.mediaKeys && k !in st.reference.mediaDomains {
      TagsSent(linked, id, item.tagKeys);
      var tags := Sent(item.tagKeys, st.instances[id].tagKeys);
      KeysTwice(st, id, media, st.instances[id].tagKeys, tags);
    }
  }

  lemma KeysSet(st: Store, id: Uuid, media: set<string>, tags: set<string>)
    requires id in st.instances
    ensures var s := WithKeys(st, id, media, tags);
      id in s.instances && s.instances[id].mediaKeys == media && s.instances[id].tagKeys == tags && s.tags == st.tags
  {
  }

  lemma KeysTwice(st: Store, id: Uuid, media: set<string>, before: set<string>, after: set<string>)
    requires id in st.instances && id in WithKeys(st, id, media, before).instances
    ensures WithKeys(WithKeys(st, id, media, before), id, media, after) == WithKeys(st, id, media, after)
  {
  }

  lemma {:induction false} FieldsJoin(st: Store, id: Uuid, name: string, a: seq<FieldItem>, b: seq<FieldItem>,
                                      u: seq<Unresolved>)
    ensures RestoreFields(st, id, name, a + b, u) ==
      match RestoreFields(st, id, name, a, u)
      case Failed(s, c) => Failed(s, c)
      case Done(s, v) => RestoreFields(s, id, name, b, v)
    decreases |a|
  {
    hide RestoreField;
    if a == [] {
      assert a + b == b;
    } else {
      assert (a + b)[1..] == a[1..] + b;
      match RestoreField(st, id, name, a[0], u)
      case Failed(_, _) =>
      case Done(st', u') => FieldsJoin(st', id, name, a[1..], b, u');
    }
  }

  /** A field without a secret is sent as a value, one with a secret is bound and nothing else; a secret that
      is not there is only reported, any other refusal stops the restore behind the fields of `a`. */
  lemma FieldStops(st: Store, id: Uuid, name: string, a: seq<FieldItem>, f: FieldItem, b: seq<FieldItem>,
                   u: seq<Unresolved>)
    requires RestoreFields(st, id, name, a, u).Done?
    ensures var (s, v) := (RestoreFields(st, id, name, a, u).st, RestoreFields(st, id, name, a, u).value);
      var r := RestoreFields(st, id, name, a + [f] + b, u);
      var sent :=
        if f.secretId.None? then FieldSetValue(s, id, f.name, f.value)
        else FieldBindSecret(s, id, f.name, f.secretId.value);
      if sent.Ok? then r == RestoreFields(sent.st, id, name, b, v)
      else if f.secretId.None? || sent.code != SecretNotFound then r == Failed(s, sent.code)
      else
        r == RestoreFields(s, id, name, b, v + [Unresolved(IndexerInstanceEntity, name, f.name, f.secretId.value)])
  {
    assert a + [f] + b == a + ([f] + b) && ([f] + b)[1..] == b;
    FieldsJoin(st, id, name, a, [f] + b, u);
    hide FieldSetValue, FieldBindSecret;
  }

  /** The subscription is sent last, when the document has one. */
  lemma SubscriptionRefused(st: Store, item: InstanceItem, limits: Ids, policies: Ids, u: seq<Unresolved>)
    requires CreateInstance(st, item, policies).Done?
    requires var made := CreateInstance(st, item, policies); RestoreLinks(made.st, made.value, item, limits).Done?
    requires var made := CreateInstance(st, item, policies);
      var linked := RestoreLinks(made.st, made.value, item, limits).st;
      RestoreFields(linked, made.value, item.displayName, item.fields, u).Done?
    ensures var made := CreateInstance(st, item, policies);
      var linked := RestoreLinks(made.st, made.value, item, limits).st;
      var filled := RestoreFields(linked, made.value, item.displayName, item.fields, u);
      var r := RestoreInstance(st, item, limits, policies, u);
      if item.rssEnabled.None? then r == filled
      else
        var sent := RssSet(filled.st, made.value, item.rssEnabled.value, item.rssInterval);
        r == if sent.Ok? then Done(sent.st, filled.value) else Failed(filled.st, sent.code)
  {
    hide CreateInstance, RestoreLinks, RestoreFields, RssSet;
  }
}
