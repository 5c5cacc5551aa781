/** Backup export of routing policies: join rows folded by display name. */
module RoutingExport {
  import opened Basics
  import opened Ordering
  import opened RowFolds
  import opened Filling
  import opened IndexerRecords
  import opened SecretTable

  // ----- The columns the export reads -----

  function NameOf(): RoutingRow -> Option<string> {
    (r: RoutingRow) => Some(r.displayName)
  }

  function ModeFor(name: string): RoutingRow -> Option<string> {
    (r: RoutingRow) => if r.displayName == name then Some(r.mode) else None
  }

  function RateLimitNameFor(name: string): RoutingRow -> Option<string> {
    (r: RoutingRow) => if r.displayName == name then r.rateLimitName else None
  }

  function ParameterFor(name: string): RoutingRow -> Option<ParameterItem> {
    (r: RoutingRow) =>
      if r.displayName == name && r.paramKey.Some?
      then Some(ParameterItem(r.paramKey.value, r.value, r.secretId)) else None
  }

  /** The secret a row types: both secret columns and the key column are present. */
  function SecretOf(): RoutingRow -> Option<SecretRef> {
    (r: RoutingRow) =>
      if r.paramKey.Some? && r.secretId.Some? && r.secretType.Some?
      then Some(SecretRef(r.secretId.value, r.secretType.value)) else None
  }

  // ----- What the export means -----

  function RoutingNames(rows: seq<RoutingRow>): set<string> {
    Picks(rows, NameOf())
  }

  lemma HasMode(rows: seq<RoutingRow>, name: string)
    requires name in RoutingNames(rows)
    ensures FirstSome(rows, ModeFor(name)).Some?
  {
    var r := PickedFrom(rows, NameOf(), name);
    Seen(rows, ModeFor(name), r);
  }

  function Entry(rows: seq<RoutingRow>, name: string): RoutingItem
    requires name in RoutingNames(rows)
  {
    HasMode(rows, name);
    RoutingItem(name, FirstSome(rows, ModeFor(name)).value, FirstSome(rows, RateLimitNameFor(name)), [])
  }

  function SortedParameters(parameters: set<ParameterItem>): (r: seq<ParameterItem>)
    ensures AscendingBy(r, ParameterBefore)
    ensures forall p :: p in r <==> p in parameters
  {
    ParameterOrder();
    Ascending(parameters, ParameterBefore)
  }

  function ItemOf(rows: seq<RoutingRow>, name: string): RoutingItem
    requires name in RoutingNames(rows)
  {
    Entry(rows, name).(parameters := SortedParameters(Picks(rows, ParameterFor(name))))
  }

  function ItemMap(rows: seq<RoutingRow>): map<string, RoutingItem> {
    map n | n in RoutingNames(rows) :: ItemOf(rows, n)
  }

  function RoutingItems(rows: seq<RoutingRow>): seq<RoutingItem> {
    ByName(ItemMap(rows))
  }

  // ----- The accumulators of the loop -----

  function UpdateEntry(policies: map<string, RoutingItem>, row: RoutingRow): map<string, RoutingItem> {
    var entry :=
      if row.displayName in policies then policies[row.displayName]
      else RoutingItem(row.displayName, row.mode, row.rateLimitName, []);
    policies[row.displayName := entry.(rateLimitName := entry.rateLimitName.Or(row.rateLimitName))]
  }

  function InsertParameter(keys: map<string, set<ParameterItem>>, row: RoutingRow): map<string, set<ParameterItem>> {
    if row.paramKey.None? then keys
    else keys[row.displayName := ParametersOf(keys, row.displayName)
        + {ParameterItem(row.paramKey.value, row.value, row.secretId)}]
  }

  function ParametersOf(keys: map<string, set<ParameterItem>>, name: string): set<ParameterItem> {
    if name in keys then keys[name] else {}
  }

  // ----- One more row -----

  predicate EntriesAre(policies: map<string, RoutingItem>, rows: seq<RoutingRow>) {
    && policies.Keys == RoutingNames(rows)
    && forall n :: n in policies ==> policies[n] == Entry(rows, n)
  }

  ghost predicate ParametersAre(keys: map<string, set<ParameterItem>>, rows: seq<RoutingRow>) {
    forall n :: ParametersOf(keys, n) == Picks(rows, ParameterFor(n))
  }

  lemma Unnamed<T>(rows: seq<RoutingRow>, name: string, pick: RoutingRow -> Option<T>)
    requires name !in RoutingNames(rows)
    requires forall r: RoutingRow :: r.displayName != name ==> pick(r).None?
    ensures FirstSome(rows, pick).None?
  {
    forall r | r in rows ensures pick(r).None? {
      if r.displayName == name { Seen(rows, NameOf(), r); }
    }
    NothingPicked(rows, pick);
  }

  lemma EntriesSnoc(policies: map<string, RoutingItem>, rows: seq<RoutingRow>, row: RoutingRow)
    requires EntriesAre(policies, rows)
    ensures EntriesAre(UpdateEntry(policies, row), rows + [row])
  {
    Snoc(rows, row, NameOf());
    forall n | n in RoutingNames(rows + [row])
      ensures UpdateEntry(policies, row)[n] == Entry(rows + [row], n)
    {
      Snoc(rows, row, ModeFor(n));
      Snoc(rows, row, RateLimitNameFor(n));
      if n in RoutingNames(rows) {
        HasMode(rows, n);
      } else {
        Unnamed(rows, n, ModeFor(n));
        Unnamed(rows, n, RateLimitNameFor(n));
      }
    }
  }

  lemma ParametersSnoc(keys: map<string, set<ParameterItem>>, rows: seq<RoutingRow>, row: RoutingRow)
    requires ParametersAre(keys, rows)
    ensures ParametersAre(InsertParameter(keys, row), rows + [row])
  {
    var more := InsertParameter(keys, row);
    forall n ensures ParametersOf(more, n) == Picks(rows + [row], ParameterFor(n)) {
      Snoc(rows, row, ParameterFor(n));
      assert ParametersOf(keys, n) == Picks(rows, ParameterFor(n));
    }
  }

  lemma AssembledItems(rows: seq<RoutingRow>, entries: map<string, RoutingItem>, keys: map<string, set<ParameterItem>>,
                       policies: map<string, RoutingItem>)
    requires EntriesAre(entries, rows) && ParametersAre(keys, rows) && policies == AllParameters(entries, keys)
    ensures ByName(policies) == RoutingItems(rows)
  {
    hide SortedParameters, Picks, Entry;
    forall n | n in policies ensures policies[n] == ItemOf(rows, n) {
      assert ParametersOf(keys, n) == Picks(rows, ParameterFor(n));
    }
    assert policies == ItemMap(rows);
  }

  lemma NothingYet(refs: Secrets)
    ensures EntriesAre(map[], []) && ParametersAre(map[], []) && Collect(refs, [], SecretOf()) == refs
  {
  }

  lemma EntriesBare(entries: map<string, RoutingItem>, rows: seq<RoutingRow>)
    requires EntriesAre(entries, rows)
    ensures NoParameters(entries)
  {
  }

  // ----- The loop -----

  /** `build_backup_routing_policies` */
  method BuildBackupRoutingPolicies(rows: seq<RoutingRow>, refs: Secrets)
    returns (items: seq<RoutingItem>, refs': Secrets)
    ensures items == RoutingItems(rows)
    ensures refs' == Collect(refs, rows, SecretOf())
  {
    var policies: map<string, RoutingItem> := map[];
    var parameterKeys: map<string, set<ParameterItem>> := map[];
    refs' := refs;
    hide *;
    NothingYet(refs);
    assert rows[..0] == [];
    for i := 0 to |rows|
      invariant EntriesAre(policies, rows[..i])
      invariant ParametersAre(parameterKeys, rows[..i])
      invariant refs' == Collect(refs, rows[..i], SecretOf())
    {
      var row := rows[i];
      ghost var before := rows[..i];
      assert rows[..i + 1] == before + [row];
      EntriesSnoc(policies, before, row);
      ParametersSnoc(parameterKeys, before, row);
      CollectSnoc(refs, before, row, SecretOf());
      refs' := Insert(refs', SecretOf()(row));
      parameterKeys := InsertParameter(parameterKeys, row);
      policies := UpdateEntry(policies, row);
    }
    assert rows[..|rows|] == rows;
    EntriesBare(policies, rows);
    var complete := AssignParameters(policies, parameterKeys);
    AssembledItems(rows, policies, parameterKeys, complete);
    items := ByName(complete);
  }

  function WithParameters(item: RoutingItem, parameters: set<ParameterItem>): RoutingItem {
    item.(parameters := SortedParameters(parameters))
  }

  /** Every policy with the parameters given under its name. */
  function AllParameters(policies: map<string, RoutingItem>, keys: map<string, set<ParameterItem>>)
    : map<string, RoutingItem>
  {
    map n | n in policies :: WithParameters(policies[n], ParametersOf(keys, n))
  }

  predicate NoParameters(policies: map<string, RoutingItem>) {
    forall n :: n in policies ==> policies[n].parameters == []
  }

  lemma AbsentParameters(policies: map<string, RoutingItem>, keys: map<string, set<ParameterItem>>)
    requires NoParameters(policies)
    ensures RestAgrees(policies, AllParameters(policies, keys), keys.Keys)
  {
    assert SortedParameters({}) == [];
    hide SortedParameters;
  }

  lemma KeysEnumerated(keys: set<string>)
    ensures Enumerates(SortedNames(keys), keys)
  {
  }

  /** A policy takes the parameters given under its name. */
  function PutParameters(policies: map<string, RoutingItem>, keys: map<string, set<ParameterItem>>, name: string)
    : map<string, RoutingItem>
  {
    if name in policies && name in keys then policies[name := WithParameters(policies[name], keys[name])] else policies
  }

  lemma PutParametersStep(filled: map<string, RoutingItem>, policies: map<string, RoutingItem>,
                          keys: map<string, set<ParameterItem>>, order: seq<string>, i: nat)
    requires FilledUpTo(filled, policies, AllParameters(policies, keys), order, i) && i < |order|
    requires Enumerates(order, keys.Keys)
    ensures FilledUpTo(PutParameters(filled, keys, order[i]), policies, AllParameters(policies, keys), order, i + 1)
  {
    assert order[i] in order;
    FillStep(filled, policies, AllParameters(policies, keys), order, i);
    hide FilledUpTo, SortedParameters;
  }

  /** `for (display_name, key_set) in parameter_keys` */
  method AssignParameters(policies: map<string, RoutingItem>, keys: map<string, set<ParameterItem>>)
    returns (filled: map<string, RoutingItem>)
    requires NoParameters(policies)
    ensures filled == AllParameters(policies, keys)
  {
    AbsentParameters(policies, keys);
    hide *;
    var names := SortedNames(keys.Keys);
    KeysEnumerated(keys.Keys);
    FillStart(policies, AllParameters(policies, keys), names, keys.Keys);
    filled := policies;
    for i := 0 to |names|
      invariant FilledUpTo(filled, policies, AllParameters(policies, keys), names, i)
    {
      PutParametersStep(filled, policies, keys, names, i);
      filled := PutParameters(filled, keys, names[i]);
    }
    FillEnd(filled, policies, AllParameters(policies, keys), names, keys.Keys);
  }
}
