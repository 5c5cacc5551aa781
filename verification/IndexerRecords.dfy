/** The flattened rows the export queries return and the documents built from them. */
module IndexerRecords {
  import opened Basics
  import opened Ordering

  // ----- Rows -----

  datatype RoutingValue = RoutingValue(plain: Option<string>, number: Option<int>, flag: Option<bool>) {
    predicate Present() { plain.Some? || number.Some? || flag.Some? }
  }

  const NO_ROUTING_VALUE := RoutingValue(None, None, None)

  datatype RoutingRow = RoutingRow(
    id: Uuid, displayName: string, mode: string,
    rateLimitId: Option<Uuid>, rateLimitName: Option<string>,
    paramKey: Option<string>, value: RoutingValue,
    secretId: Option<Uuid>, secretType: Option<string>)

  /** Instance columns that every joined row of the instance repeats. */
  datatype InstanceColumns = InstanceColumns(
    upstreamSlug: string,
    instanceStatus: string, rssStatus: string, automaticSearchStatus: string, interactiveSearchStatus: string,
    priority: int, trustTierKey: Option<string>, limits: Limits)

  /** Columns that are exported but never sent back by a restore. */
  datatype Limits = Limits(connectTimeoutMs: int, readTimeoutMs: int, maxParallelRequests: int)

  datatype FieldValue = FieldValue(
    plain: Option<string>, number: Option<int>, decimal: Option<string>, flag: Option<bool>)

  const NO_FIELD_VALUE := FieldValue(None, None, None, None)

  datatype InstanceRow = InstanceRow(
    id: Uuid, displayName: string, columns: InstanceColumns,
    routingId: Option<Uuid>, routingName: Option<string>,
    rateLimitId: Option<Uuid>, rateLimitName: Option<string>,
    rssEnabled: Option<bool>, rssInterval: Option<int>,
    mediaKey: Option<string>, tagKey: Option<string>,
    fieldName: Option<string>, fieldType: Option<string>, value: FieldValue,
    secretId: Option<Uuid>, secretType: Option<string>)

  // ----- Snapshot document -----

  datatype TagItem = TagItem(key: string, displayName: string)

  datatype RateLimitItem = RateLimitItem(
    displayName: string, requestsPerMinute: int, burst: int, concurrentRequests: int, isSystem: bool)

  datatype ParameterItem = ParameterItem(key: string, value: RoutingValue, secretId: Option<Uuid>)

  datatype RoutingItem = RoutingItem(
    displayName: string, mode: string, rateLimitName: Option<string>, parameters: seq<ParameterItem>)

  datatype FieldItem = FieldItem(name: string, fieldType: string, value: FieldValue, secretId: Option<Uuid>)

  datatype InstanceItem = InstanceItem(
    displayName: string, columns: InstanceColumns,
    routingName: Option<string>, rateLimitName: Option<string>,
    rssEnabled: Option<bool>, rssInterval: Option<int>,
    mediaKeys: seq<string>, tagKeys: seq<string>, fields: seq<FieldItem>)

  datatype SecretRef = SecretRef(id: Uuid, secretType: string)

  datatype Snapshot = Snapshot(
    tags: seq<TagItem>, rateLimits: seq<RateLimitItem>, routing: seq<RoutingItem>,
    instances: seq<InstanceItem>, secrets: seq<SecretRef>)

  // ----- Sort keys -----

  predicate TagBefore(a: TagItem, b: TagItem) { StrLess(a.key, b.key) }
  predicate RateLimitBefore(a: RateLimitItem, b: RateLimitItem) { StrLess(a.displayName, b.displayName) }
  predicate RoutingBefore(a: RoutingItem, b: RoutingItem) { StrLess(a.displayName, b.displayName) }
  predicate InstanceBefore(a: InstanceItem, b: InstanceItem) { StrLess(a.displayName, b.displayName) }
  predicate FieldBefore(a: FieldItem, b: FieldItem) { StrLess(a.name, b.name) }
  predicate SecretBefore(a: SecretRef, b: SecretRef) { a.id < b.id }

  lemma BeforeAsymmetric()
    ensures Asymmetric(FieldBefore) && Asymmetric(InstanceBefore) && Asymmetric(RoutingBefore)
    ensures Asymmetric(TagBefore) && Asymmetric(RateLimitBefore) && Asymmetric(SecretBefore)
  {
    StrAsymmetric();
  }

  /** `None` sorts before every present value, as in Rust. */
  predicate OptionLess<T(==)>(a: Option<T>, b: Option<T>, less: (T, T) -> bool) {
    b.Some? && (a.None? || less(a.value, b.value))
  }

  predicate IntLess(x: int, y: int) { x < y }
  predicate BoolLess(x: bool, y: bool) { !x && y }

  /** The tuple order `(param_key, secret_public_id, value_plain, value_int, value_bool)`. */
  predicate ParameterBefore(a: ParameterItem, b: ParameterItem) {
    if a.key != b.key then StrLess(a.key, b.key)
    else if a.secretId != b.secretId then OptionLess(a.secretId, b.secretId, NatLess)
    else if a.value.plain != b.value.plain then OptionLess(a.value.plain, b.value.plain, StrLess)
    else if a.value.number != b.value.number then OptionLess(a.value.number, b.value.number, IntLess)
    else OptionLess(a.value.flag, b.value.flag, BoolLess)
  }

  predicate AbsentFirst<T(==)>(a: Option<T>, b: Option<T>) { a.None? && b.Some? }

  /** Key first, then secret, then text, number and flag; what is absent comes before what is present. */
  lemma ParameterBeforeExactly(a: ParameterItem, b: ParameterItem)
    ensures var x, y := a.value, b.value;
      ParameterBefore(a, b) <==>
        || (a.key != b.key && StrLess(a.key, b.key))
        || (a.key == b.key && a.secretId != b.secretId
            && (AbsentFirst(a.secretId, b.secretId)
                || (a.secretId.Some? && b.secretId.Some? && a.secretId.value < b.secretId.value)))
        || (a.key == b.key && a.secretId == b.secretId && x.plain != y.plain
            && (AbsentFirst(x.plain, y.plain)
                || (x.plain.Some? && y.plain.Some? && StrLess(x.plain.value, y.plain.value))))
        || (a.key == b.key && a.secretId == b.secretId && x.plain == y.plain && x.number != y.number
            && (AbsentFirst(x.number, y.number)
                || (x.number.Some? && y.number.Some? && x.number.value < y.number.value)))
        || (a.key == b.key && a.secretId == b.secretId && x.plain == y.plain && x.number == y.number
            && (AbsentFirst(x.flag, y.flag) || (x.flag == Some(false) && y.flag == Some(true))))
  {
  }

  lemma ParameterOrder()
    ensures StrictOrder(ParameterBefore)
  {
    StrOrder();
    forall a, b, c | ParameterBefore(a, b) && ParameterBefore(b, c) ensures ParameterBefore(a, c) {
      ParameterTransitive(a, b, c);
    }
    forall a | true ensures !ParameterBefore(a, a) {}
    forall a, b | a != b ensures ParameterBefore(a, b) || ParameterBefore(b, a) {
      if a.key != b.key { StrLessConnected(a.key, b.key); }
    }
  }

  lemma ParameterTransitive(a: ParameterItem, b: ParameterItem, c: ParameterItem)
    requires ParameterBefore(a, b) && ParameterBefore(b, c)
    ensures ParameterBefore(a, c)
  {
    if a.key != b.key && b.key != c.key {
      StrLessTransitive(a.key, b.key, c.key);
      if a.key == c.key { StrLessIrreflexive(a.key); }
    } else if a.key == b.key == c.key {
      if a.secretId == b.secretId == c.secretId {
        OptionStrTransitive(a.value.plain, b.value.plain, c.value.plain);
      }
    }
  }

  lemma OptionStrTransitive(a: Option<string>, b: Option<string>, c: Option<string>)
    ensures OptionLess(a, b, StrLess) && OptionLess(b, c, StrLess) ==> OptionLess(a, c, StrLess) && a != c
  {
    if OptionLess(a, b, StrLess) && OptionLess(b, c, StrLess) && a.Some? {
      StrLessTransitive(a.value, b.value, c.value);
      StrLessIrreflexive(a.value);
    }
  }
}
