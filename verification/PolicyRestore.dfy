/** Restoring routing policies: what the created policies are, and which bindings stay open. */
module PolicyRestore {
  import opened Basics
  import opened Ordering
  import opened IndexerRecords
  import opened IndexerStore
  import opened StoreOperations
  import opened Restore
  import opened RoutingExport = RoutingExport

  // ----- Parameters that a valid policy exports -----

  predicate KeyBefore(a: ParameterItem, b: ParameterItem) { StrLess(a.key, b.key) }

  /** Parameters of the secret kind hold no value, the others exactly the value of their kind. */
  predicate ParameterItemOk(mode: string, item: ParameterItem) {
    if KindOf(item.key) == Secret then !item.value.Present() && SecretAllowed(mode, item.key)
    else item.secretId.None? && ParamAllowed(mode, item.key) && ParamError(item.key, item.value).None?
  }

  ghost predicate PolicyItemOk(item: RoutingItem) {
    && SupportedMode(item.mode)
    && AscendingBy(item.parameters, KeyBefore)
    && (forall p :: p in item.parameters ==> ParameterItemOk(item.mode, p))
    && (forall k :: k in DefaultParameters(item.mode) ==> exists p :: p in item.parameters && p.key == k)
  }

  type SecretTypes = map<Uuid, string>

  /** The row a parameter item leaves behind: a missing secret is left unbound. */
  function ParameterAfter(secrets: SecretTypes, item: ParameterItem): Parameter {
    Parameter(item.value, Live(secrets, item.secretId))
  }

  predicate Missing(secrets: SecretTypes, secretId: Option<Uuid>) {
    secretId.Some? && secretId.value !in secrets
  }

  function MissingParameter(secrets: SecretTypes, name: string, item: ParameterItem): seq<Unresolved> {
    if Missing(secrets, item.secretId)
    then [Unresolved(RoutingPolicyEntity, name, item.key, item.secretId.value)] else []
  }

  function MissingParameters(secrets: SecretTypes, name: string, items: seq<ParameterItem>): seq<Unresolved> {
    if items == [] then []
    else MissingParameter(secrets, name, items[0]) + MissingParameters(secrets, name, items[1..])
  }

  function Overlaid(secrets: SecretTypes, rows: map<string, Parameter>, items: seq<ParameterItem>)
    : map<string, Parameter>
    decreases |items|
  {
    if items == [] then rows
    else Overlaid(secrets, rows[items[0].key := ParameterAfter(secrets, items[0])], items[1..])
  }

  /** The row at the key can still be completed to the item: only columns of its kind are set. */
  predicate Open(parameters: map<string, Parameter>, item: ParameterItem) {
    match KindOf(item.key)
    case Secret => item.key in parameters && parameters[item.key] == NO_PARAMETER
    case Flag =>
      var row := ParameterAt(parameters, item.key);
      row.value.plain.None? && row.value.number.None? && row.secretId.None?
    case Number => ParameterAt(parameters, item.key) == NO_PARAMETER
    case Text => ParameterAt(parameters, item.key) == NO_PARAMETER
  }

  function WithPolicy(st: Store, id: Uuid, p: Policy): Store {
    st.(policies := st.policies[id := p])
  }

  lemma ParameterRestored(st: Store, id: Uuid, name: string, item: ParameterItem, u: seq<Unresolved>)
    requires id in st.policies
    requires ParameterItemOk(st.policies[id].mode, item) && Open(st.policies[id].parameters, item)
    ensures var p := st.policies[id];
      RestoreParameter(st, id, name, item, u)
        == Done(WithPolicy(st, id, p.(parameters := p.parameters[item.key := ParameterAfter(st.secrets, item)])),
                u + MissingParameter(st.secrets, name, item))
  {
    var p := st.policies[id];
    assert u + [] == u;
    if KindOf(item.key) == Secret {
      assert item.value == NO_ROUTING_VALUE;
      if Live(st.secrets, item.secretId).None? {
        assert p.parameters[item.key := ParameterAfter(st.secrets, item)] == p.parameters;
        assert WithPolicy(st, id, p) == st;
      } else {
        assert ParameterAt(p.parameters, item.key).(secretId := item.secretId) == ParameterAfter(st.secrets, item);
      }
    } else {
      assert WithValue(ParameterAt(p.parameters, item.key), item.key, item.value) == ParameterAfter(st.secrets, item);
    }
  }

  lemma OpenElsewhere(rows: map<string, Parameter>, key: string, row: Parameter, item: ParameterItem)
    requires Open(rows, item) && key != item.key
    ensures Open(rows[key := row], item)
  {
  }

  ghost predicate AllOpen(mode: string, parameters: map<string, Parameter>, items: seq<ParameterItem>) {
    && AscendingBy(items, KeyBefore)
    && forall i :: 0 <= i < |items| ==> ParameterItemOk(mode, items[i]) && Open(parameters, items[i])
  }

  lemma RestStaysOpen(mode: string, parameters: map<string, Parameter>, items: seq<ParameterItem>, row: Parameter)
    requires items != [] && AllOpen(mode, parameters, items)
    ensures AllOpen(mode, parameters[items[0].key := row], items[1..])
  {
    hide ParameterItemOk, Open;
    var rest := items[1..];
    forall i | 0 <= i < |rest|
      ensures Open(parameters[items[0].key := row], rest[i]) && ParameterItemOk(mode, rest[i])
    {
      assert KeyBefore(items[0], items[i + 1]);
      StrLessIrreflexive(items[0].key);
      OpenElsewhere(parameters, items[0].key, row, items[i + 1]);
    }
  }

  /** The policy once `head` has been restored. */
  function ParameterAdded(secrets: SecretTypes, p: Policy, head: ParameterItem): Policy {
    p.(parameters := p.parameters[head.key := ParameterAfter(secrets, head)])
  }

  function ParametersAdded(secrets: SecretTypes, p: Policy, items: seq<ParameterItem>): Policy {
    p.(parameters := Overlaid(secrets, p.parameters, items))
  }

  lemma ParametersStep(st: Store, id: Uuid, name: string, items: seq<ParameterItem>, u: seq<Unresolved>)
    requires items != [] && id in st.policies
    requires ParameterItemOk(st.policies[id].mode, items[0]) && Open(st.policies[id].parameters, items[0])
    ensures RestoreParameters(st, id, name, items, u)
         == RestoreParameters(WithPolicy(st, id, ParameterAdded(st.secrets, st.policies[id], items[0])), id, name,
                              items[1..], u + MissingParameter(st.secrets, name, items[0]))
  {
    ParameterRestored(st, id, name, items[0], u);
    hide ParameterItemOk, Open, RestoreParameter, MissingParameter, ParameterAfter;
  }

  lemma WithPolicyFacts(st: Store, id: Uuid, a: Policy, b: Policy)
    ensures id in WithPolicy(st, id, a).policies && WithPolicy(st, id, a).policies[id] == a
    ensures WithPolicy(WithPolicy(st, id, a), id, b) == WithPolicy(st, id, b)
    ensures WithPolicy(st, id, a).secrets == st.secrets
  {
  }

  lemma NothingRestored(st: Store, id: Uuid, name: string, u: seq<Unresolved>)
    requires id in st.policies
    ensures RestoreParameters(st, id, name, [], u)
         == Done(WithPolicy(st, id, ParametersAdded(st.secrets, st.policies[id], [])),
                 u + MissingParameters(st.secrets, name, []))
  {
    assert WithPolicy(st, id, st.policies[id]) == st && u + [] == u;
  }

  lemma AddedStep(secrets: SecretTypes, p: Policy, items: seq<ParameterItem>)
    requires items != []
    ensures ParametersAdded(secrets, ParameterAdded(secrets, p, items[0]), items[1..])
         == ParametersAdded(secrets, p, items)
  {
    hide ParameterAfter;
  }

  lemma MissingStep(secrets: SecretTypes, name: string, items: seq<ParameterItem>, u: seq<Unresolved>)
    requires items != []
    ensures (u + MissingParameter(secrets, name, items[0])) + MissingParameters(secrets, name, items[1..])
         == u + MissingParameters(secrets, name, items)
  {
    hide MissingParameter;
    Regrouped(u, MissingParameter(secrets, name, items[0]), MissingParameters(secrets, name, items[1..]));
  }

  lemma HeadOpen(mode: string, parameters: map<string, Parameter>, items: seq<ParameterItem>)
    requires items != [] && AllOpen(mode, parameters, items)
    ensures ParameterItemOk(mode, items[0]) && Open(parameters, items[0])
  {
    hide ParameterItemOk, Open, AscendingBy;
  }

  /** The parameters are restored one over the other. */
  lemma {:induction false} ParametersRestored(st: Store, id: Uuid, name: string, items: seq<ParameterItem>,
      u: seq<Unresolved>)
    requires id in st.policies && AllOpen(st.policies[id].mode, st.policies[id].parameters, items)
    ensures RestoreParameters(st, id, name, items, u)
         == Done(WithPolicy(st, id, ParametersAdded(st.secrets, st.policies[id], items)),
                 u + MissingParameters(st.secrets, name, items))
    decreases |items|
  {
    hide AllOpen, RestoreParameters, WithPolicy, ParameterAfter, MissingParameter, MissingParameters, ParametersAdded,
      ParameterItemOk, Open;
    var p := st.policies[id];
    if items == [] {
      NothingRestored(st, id, name, u);
    } else {
      var p1 := ParameterAdded(st.secrets, p, items[0]);
      HeadOpen(p.mode, p.parameters, items);
      RestStaysOpen(p.mode, p.parameters, items, ParameterAfter(st.secrets, items[0]));
      ParametersStep(st, id, name, items, u);
      AddedStep(st.secrets, p, items);
      MissingStep(st.secrets, name, items, u);
      WithPolicyFacts(st, id, p1, ParametersAdded(st.secrets, p, items));
      ParametersRestored(WithPolicy(st, id, p1), id, name, items[1..],
                         u + MissingParameter(st.secrets, name, items[0]));
    }
  }

  lemma {:induction false} OverlaidHolds(secrets: SecretTypes, rows: map<string, Parameter>, items: seq<ParameterItem>)
    requires AscendingBy(items, KeyBefore)
    ensures forall k :: k in Overlaid(secrets, rows, items) <==> k in rows || exists p :: p in items && p.key == k
    ensures forall p :: p in items ==> Overlaid(secrets, rows, items)[p.key] == ParameterAfter(secrets, p)
    decreases |items|
  {
    if items != [] {
      var head, rest := items[0], items[1..];
      assert items == [head] + rest;
      OverlaidHolds(secrets, rows[head.key := ParameterAfter(secrets, head)], rest);
      OverlaidKeeps(secrets, rows[head.key := ParameterAfter(secrets, head)], rest, head.key);
    }
  }

  lemma {:induction false} OverlaidKeeps(secrets: SecretTypes, rows: map<string, Parameter>,
      items: seq<ParameterItem>, key: string)
    requires key in rows && forall i :: 0 <= i < |items| ==> StrLess(key, items[i].key)
    ensures key in Overlaid(secrets, rows, items) && Overlaid(secrets, rows, items)[key] == rows[key]
    decreases |items|
  {
    if items != [] {
      StrLessIrreflexive(key);
      OverlaidKeeps(secrets, rows[items[0].key := ParameterAfter(secrets, items[0])], items[1..], key);
    }
  }

  // ----- The restored policy as a document -----

  function Blank(secrets: SecretTypes, item: ParameterItem): ParameterItem {
    item.(secretId := Live(secrets, item.secretId))
  }

  function Blanked(secrets: SecretTypes, items: seq<ParameterItem>): seq<ParameterItem> {
    seq(|items|, i requires 0 <= i < |items| => Blank(secrets, items[i]))
  }

  /** The policy a restore can rebuild: bindings to absent secrets are gone. */
  function PolicyAfter(secrets: SecretTypes, item: RoutingItem): RoutingItem {
    item.(parameters := Blanked(secrets, item.parameters))
  }

  ghost predicate RowsAre(secrets: SecretTypes, rows: map<string, Parameter>, items: seq<ParameterItem>) {
    && (forall k :: k in rows <==> exists q :: q in items && q.key == k)
    && (forall q :: q in items ==> rows[q.key] == ParameterAfter(secrets, q))
  }

  lemma RowListed(st: Store, p: Policy, items: seq<ParameterItem>, x: ParameterItem)
    requires RowsAre(st.secrets, p.parameters, items)
    ensures x in Blanked(st.secrets, items) <==> x in ParameterSet(st, p)
  {
    var listed := Blanked(st.secrets, items);
    if x in listed {
      var i :| 0 <= i < |listed| && listed[i] == x;
      assert items[i] in items;
      assert ParameterOf(st, items[i].key, p.parameters[items[i].key]) == x;
    }
    if x in ParameterSet(st, p) {
      var k :| k in p.parameters && ParameterOf(st, k, p.parameters[k]) == x;
      var q :| q in items && q.key == k;
      var i :| 0 <= i < |items| && items[i] == q;
      assert listed[i] == x;
    }
  }

  /** Rows that are those of the items list the items back. */
  lemma ParametersListed(st: Store, p: Policy, items: seq<ParameterItem>)
    requires AscendingBy(items, KeyBefore) && RowsAre(st.secrets, p.parameters, items)
    ensures SortedParameters(ParameterSet(st, p)) == Blanked(st.secrets, items)
  {
    hide SortedParameters, KeyBefore, ParameterBefore, Blanked, ParameterSet, RowsAre, AscendingBy;
    BlankedAscending(st.secrets, items);
    forall x ensures x in Blanked(st.secrets, items) <==> x in ParameterSet(st, p) { RowListed(st, p, items, x); }
    SortedParametersOf(Blanked(st.secrets, items), ParameterSet(st, p));
  }

  lemma BlankedAscending(secrets: SecretTypes, items: seq<ParameterItem>)
    requires AscendingBy(items, KeyBefore)
    ensures AscendingBy(Blanked(secrets, items), ParameterBefore)
  {
    var listed := Blanked(secrets, items);
    forall i, j | 0 <= i < j < |listed| ensures ParameterBefore(listed[i], listed[j]) {
      assert KeyBefore(items[i], items[j]);
      StrLessIrreflexive(items[i].key);
    }
  }

  lemma SortedParametersOf(r: seq<ParameterItem>, s: set<ParameterItem>)
    requires AscendingBy(r, ParameterBefore)
    requires forall x :: x in r <==> x in s
    ensures SortedParameters(s) == r
  {
    ParameterOrder();
    AscendingOfElements(r, s, ParameterBefore);
  }

  // ----- One policy -----

  /** Names resolve to rate limits of the store that bear them. */
  ghost predicate LimitsResolve(st: Store, limits: Ids) {
    forall n :: n in limits ==> limits[n] in st.rateLimits && st.rateLimits[limits[n]].displayName == n
  }

  ghost predicate LimitKnown(limits: Ids, name: Option<string>) {
    name.Some? ==> name.value in limits
  }

  function ResolveLimit(limits: Ids, name: Option<string>): Option<Uuid> {
    if name.Some? && name.value in limits then Some(limits[name.value]) else None
  }

  /** The policy that the restore of `item` creates. */
  function NewPolicy(secrets: SecretTypes, item: RoutingItem, limits: Ids): Policy {
    Policy(item.displayName, item.mode, ResolveLimit(limits, item.rateLimitName),
           Overlaid(secrets, DefaultParameters(item.mode), item.parameters))
  }

  lemma DefaultsOpen(item: RoutingItem, p: ParameterItem)
    requires PolicyItemOk(item) && p in item.parameters
    ensures Open(DefaultParameters(item.mode), p)
  {
  }

  /** The store with one more policy under the next id. */
  function WithNewPolicy(st: Store, p: Policy): Store {
    WithPolicy(st.(nextId := st.nextId + 1), st.nextId, p)
  }

  /** After creation, and after the link to its rate limit. */
  function CreatedPolicy(item: RoutingItem): Policy {
    Policy(item.displayName, item.mode, None, DefaultParameters(item.mode))
  }

  function LinkedPolicy(item: RoutingItem, limits: Ids): Policy {
    CreatedPolicy(item).(rateLimitId := ResolveLimit(limits, item.rateLimitName))
  }

  lemma PolicyInserted(st: Store, item: RoutingItem)
    requires SupportedMode(item.mode) && !PolicyNamed(st, item.displayName)
    ensures PolicyCreate(st, item.displayName, item.mode) == Ok(WithNewPolicy(st, CreatedPolicy(item)), st.nextId)
  {
    hide DefaultParameters, PolicyNamed;
  }

  lemma PolicyLinked(st: Store, item: RoutingItem, limits: Ids)
    requires LimitsResolve(st, limits) && LimitKnown(limits, item.rateLimitName)
    ensures LinkPolicy(WithNewPolicy(st, CreatedPolicy(item)), st.nextId, item.rateLimitName, limits)
         == Done(WithNewPolicy(st, LinkedPolicy(item, limits)), ())
  {
    hide DefaultParameters;
    WithPolicyFacts(st.(nextId := st.nextId + 1), st.nextId, CreatedPolicy(item), LinkedPolicy(item, limits));
  }

  lemma AllDefaultsOpen(item: RoutingItem)
    requires PolicyItemOk(item)
    ensures AllOpen(item.mode, DefaultParameters(item.mode), item.parameters)
  {
    forall i | 0 <= i < |item.parameters| ensures Open(DefaultParameters(item.mode), item.parameters[i]) {
      DefaultsOpen(item, item.parameters[i]);
    }
    hide DefaultParameters, Open, ParameterItemOk;
  }

  /** A policy is created, linked and given its parameters over the default ones. */
  lemma PolicyRestored(st: Store, item: RoutingItem, limits: Ids, p: Progress)
    requires PolicyItemOk(item) && !PolicyNamed(st, item.displayName)
    requires LimitsResolve(st, limits) && LimitKnown(limits, item.rateLimitName)
    ensures RestorePolicy(st, item, limits, p) == Done(
      WithNewPolicy(st, NewPolicy(st.secrets, item, limits)),
      Progress(p.count + 1, p.ids[item.displayName := st.nextId],
               p.unresolved + MissingParameters(st.secrets, item.displayName, item.parameters)))
  {
    assert SupportedMode(item.mode);
    assert NewPolicy(st.secrets, item, limits)
      == ParametersAdded(st.secrets, LinkedPolicy(item, limits), item.parameters);
    AllDefaultsOpen(item);
    assert LinkedPolicy(item, limits).mode == item.mode
      && LinkedPolicy(item, limits).parameters == DefaultParameters(item.mode);
    hide PolicyItemOk, DefaultParameters, Overlaid, MissingParameters, RestoreParameters, PolicyNamed,
      PolicyCreate, LinkPolicy, LimitsResolve, LimitKnown, AllOpen, ResolveLimit, SupportedMode, NewPolicy,
      LinkedPolicy, CreatedPolicy, ParametersAdded;
    var base := st.(nextId := st.nextId + 1);
    var linked := LinkedPolicy(item, limits);
    PolicyInserted(st, item);
    PolicyLinked(st, item, limits);
    WithPolicyFacts(base, st.nextId, linked, NewPolicy(st.secrets, item, limits));
    ParametersRestored(WithNewPolicy(st, linked), st.nextId, item.displayName, item.parameters, p.unresolved);
  }

  /** The created policy exports as the item it was restored from. */
  lemma NewPolicyItem(st: Store, item: RoutingItem, limits: Ids)
    requires PolicyItemOk(item) && LimitsResolve(st, limits) && LimitKnown(limits, item.rateLimitName)
    ensures PolicyItem(st, NewPolicy(st.secrets, item, limits)) == PolicyAfter(st.secrets, item)
  {
    hide Overlaid, SortedParameters, ParameterItemOk, ParameterAfter, Blanked, KeyBefore, ParameterSet;
    var p := NewPolicy(st.secrets, item, limits);
    OverlaidHolds(st.secrets, DefaultParameters(item.mode), item.parameters);
    ParametersListed(st, p, item.parameters);
  }

  // ----- The list of policies -----

  function MissingInPolicies(secrets: SecretTypes, items: seq<RoutingItem>): seq<Unresolved> {
    var n := |items|;
    if n == 0 then [] else
      MissingInPolicies(secrets, items[..n - 1])
      + MissingParameters(secrets, items[n - 1].displayName, items[n - 1].parameters)
  }

  /** `ids` names exactly the policies of the store. */
  ghost predicate PoliciesNamed(st: Store, ids: Ids) {
    && (forall n :: n in ids ==> ids[n] in st.policies && st.policies[ids[n]].displayName == n)
    && (forall id :: id in st.policies ==> st.policies[id].displayName in ids && ids[st.policies[id].displayName] == id)
  }

  /** What holds once the items of `made` have been restored. */
  ghost predicate PoliciesMade(st: Store, p: Progress, made: seq<RoutingItem>) {
    && PoliciesNamed(st, p.ids)
    && (forall n :: n in p.ids <==> exists item :: item in made && item.displayName == n)
    && (forall item :: item in made ==>
          PolicyItem(st, st.policies[p.ids[item.displayName]]) == PolicyAfter(st.secrets, item))
    && p.count == |made| && p.unresolved == MissingInPolicies(st.secrets, made)
  }

  ghost predicate PolicyIdsBelow(st: Store) {
    forall id :: id in st.policies ==> id < st.nextId
  }

  lemma PolicyMade(st: Store, item: RoutingItem, limits: Ids, p: Progress, made: seq<RoutingItem>)
    requires PoliciesMade(st, p, made) && PolicyIdsBelow(st)
    requires forall m :: m in made ==> m.displayName != item.displayName
    requires PolicyItemOk(item) && LimitsResolve(st, limits) && LimitKnown(limits, item.rateLimitName)
    ensures var r := RestorePolicy(st, item, limits, p);
      r.Done? && PoliciesMade(r.st, r.value, made + [item]) && PolicyIdsBelow(r.st)
      && r.st == st.(policies := r.st.policies, nextId := st.nextId + 1)
  {
    NotNamed(st, p, made, item.displayName);
    hide *;
    PolicyRestored(st, item, limits, p);
    NewPolicyNamed(st, item, limits);
    NewPolicyItem(st, item, limits);
    MadeExtended(st, p, made, item, NewPolicy(st.secrets, item, limits));
  }

  lemma NotNamed(st: Store, p: Progress, made: seq<RoutingItem>, name: string)
    requires PoliciesMade(st, p, made) && forall m :: m in made ==> m.displayName != name
    ensures !PolicyNamed(st, name)
  {
    hide PolicyItem, PolicyAfter, MissingInPolicies;
  }

  lemma MadeExtended(st: Store, p: Progress, made: seq<RoutingItem>, item: RoutingItem, created: Policy)
    requires PoliciesMade(st, p, made) && PolicyIdsBelow(st)
    requires forall m :: m in made ==> m.displayName != item.displayName
    requires created.displayName == item.displayName && PolicyItem(st, created) == PolicyAfter(st.secrets, item)
    ensures var st' := WithNewPolicy(st, created);
      PoliciesMade(st', Progress(p.count + 1, p.ids[item.displayName := st.nextId],
                                 p.unresolved + MissingParameters(st.secrets, item.displayName, item.parameters)),
                   made + [item])
      && PolicyIdsBelow(st') && st' == st.(policies := st'.policies, nextId := st.nextId + 1)
  {
    NamesRecorded(st, p, made, item);
    DocumentsExtended(st, p, made, item, created);
    MadeCounted(st, p, made);
    MissingExtended(st.secrets, made, item);
    hide *;
    NamedExtended(st, p.ids, created);
    PolicyAddedFacts(st, created);
    MadeFromParts(WithNewPolicy(st, created),
                  Progress(p.count + 1, p.ids[item.displayName := st.nextId],
                           p.unresolved + MissingParameters(st.secrets, item.displayName, item.parameters)),
                  made + [item]);
  }

  lemma PolicyAddedFacts(st: Store, created: Policy)
    ensures var st' := WithNewPolicy(st, created);
      st'.secrets == st.secrets && st' == st.(policies := st'.policies, nextId := st.nextId + 1)
  {
  }

  lemma MadeCounted(st: Store, p: Progress, made: seq<RoutingItem>)
    requires PoliciesMade(st, p, made)
    ensures PoliciesNamed(st, p.ids) && p.count == |made| && p.unresolved == MissingInPolicies(st.secrets, made)
  {
  }

  lemma MadeFromParts(st: Store, p: Progress, made: seq<RoutingItem>)
    requires PoliciesNamed(st, p.ids) && (forall n :: n in p.ids <==> exists m :: m in made && m.displayName == n)
    requires forall m :: m in made ==>
      m.displayName in p.ids && p.ids[m.displayName] in st.policies
      && PolicyItem(st, st.policies[p.ids[m.displayName]]) == PolicyAfter(st.secrets, m)
    requires p.count == |made| && p.unresolved == MissingInPolicies(st.secrets, made)
    ensures PoliciesMade(st, p, made)
  {
    hide PolicyItem, PolicyAfter, MissingInPolicies;
  }

  lemma NamesRecorded(st: Store, p: Progress, made: seq<RoutingItem>, item: RoutingItem)
    requires PoliciesMade(st, p, made) && forall m :: m in made ==> m.displayName != item.displayName
    ensures item.displayName !in p.ids
    ensures var ids := p.ids[item.displayName := st.nextId];
      forall n :: n in ids <==> exists m :: m in made + [item] && m.displayName == n
  {
    hide PolicyItem, PolicyAfter, MissingInPolicies, PoliciesNamed;
    MadeNames(p.ids, made, item, st.nextId);
  }

  lemma MissingExtended(secrets: SecretTypes, made: seq<RoutingItem>, item: RoutingItem)
    ensures MissingInPolicies(secrets, made + [item]) ==
            MissingInPolicies(secrets, made) + MissingParameters(secrets, item.displayName, item.parameters)
  {
    assert (made + [item])[..|made|] == made;
  }

  lemma MadeNames(ids: Ids, made: seq<RoutingItem>, item: RoutingItem, id: Uuid)
    requires forall n :: n in ids <==> exists m :: m in made && m.displayName == n
    ensures var ids' := ids[item.displayName := id];
      forall n :: n in ids' <==> exists m :: m in made + [item] && m.displayName == n
  {
    var ids' := ids[item.displayName := id];
    forall n ensures n in ids' <==> exists m :: m in made + [item] && m.displayName == n {
      if n == item.displayName {
        assert item in made + [item];
      } else if n in ids {
        var m :| m in made && m.displayName == n;
        assert m in made + [item];
      }
    }
  }

  lemma DocumentsExtended(st: Store, p: Progress, made: seq<RoutingItem>, item: RoutingItem, created: Policy)
    requires PoliciesMade(st, p, made) && PolicyIdsBelow(st)
    requires forall m :: m in made ==> m.displayName != item.displayName
    requires created.displayName == item.displayName && PolicyItem(st, created) == PolicyAfter(st.secrets, item)
    ensures var st' := WithNewPolicy(st, created);
      var ids := p.ids[item.displayName := st.nextId];
      forall m :: m in made + [item] ==>
        m.displayName in ids && ids[m.displayName] in st'.policies
        && PolicyItem(st', st'.policies[ids[m.displayName]]) == PolicyAfter(st'.secrets, m)
  {
    hide PolicyItem, PolicyAfter, MissingInPolicies;
    var st' := WithNewPolicy(st, created);
    forall m | m in made + [item]
      ensures var ids := p.ids[item.displayName := st.nextId];
        m.displayName in ids && ids[m.displayName] in st'.policies
        && PolicyItem(st', st'.policies[ids[m.displayName]]) == PolicyAfter(st'.secrets, m)
    {
      if m in made {
        assert p.ids[m.displayName] in st.policies && p.ids[m.displayName] != st.nextId;
        SameDocument(st, st', st.policies[p.ids[m.displayName]]);
      } else {
        SameDocument(st, st', created);
      }
    }
  }

  lemma NamedExtended(st: Store, ids: Ids, created: Policy)
    requires PoliciesNamed(st, ids) && PolicyIdsBelow(st) && created.displayName !in ids
    ensures var st' := WithNewPolicy(st, created);
      PoliciesNamed(st', ids[created.displayName := st.nextId]) && PolicyIdsBelow(st')
  {
  }

  lemma NewPolicyNamed(st: Store, item: RoutingItem, limits: Ids)
    ensures NewPolicy(st.secrets, item, limits).displayName == item.displayName
  {
  }

  /** A policy's document depends on the rate limits and secrets only. */
  lemma SameDocument(st: Store, other: Store, p: Policy)
    requires st.rateLimits == other.rateLimits && st.secrets == other.secrets
    ensures PolicyItem(st, p) == PolicyItem(other, p)
  {
    assert ParameterSet(st, p) == ParameterSet(other, p);
  }

  lemma {:induction false} PoliciesRestored(st: Store, items: seq<RoutingItem>, limits: Ids, p: Progress,
      made: seq<RoutingItem>)
    requires PoliciesMade(st, p, made) && PolicyIdsBelow(st)
    requires AscendingBy(made + items, RoutingBefore)
    requires LimitsResolve(st, limits)
    requires forall item :: item in items ==> PolicyItemOk(item) && LimitKnown(limits, item.rateLimitName)
    ensures var r := RestorePolicies(st, items, limits, p);
      r.Done? && PoliciesMade(r.st, r.value, made + items) && PolicyIdsBelow(r.st)
      && r.st == st.(policies := r.st.policies, nextId := st.nextId + |items|)
    decreases |items|
  {
    hide PoliciesMade, PolicyItemOk, RestorePolicy, LimitKnown;
    if items == [] {
      assert made + items == made;
    } else {
      var item, rest := items[0], items[1..];
      assert item in items;
      forall m | m in made ensures m.displayName != item.displayName {
        var i :| 0 <= i < |made| && made[i] == m;
        assert RoutingBefore((made + items)[i], (made + items)[|made|]);
        StrLessIrreflexive(item.displayName);
      }
      PolicyMade(st, item, limits, p, made);
      var r := RestorePolicy(st, item, limits, p);
      assert made + [item] + rest == made + items;
      PoliciesRestored(r.st, rest, limits, r.value, made + [item]);
    }
  }
}
