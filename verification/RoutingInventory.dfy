/** The routing-policy inventory: join rows folded by public id, counting parameters and secret bindings
    row by row, and sorted by display name. */
module RoutingInventory {
  import opened Basics
  import opened Ordering
  import opened RowFolds
  import opened IndexerRecords

  datatype RoutingListItem = RoutingListItem(
    id: Uuid, displayName: string, mode: string, rateLimitId: Option<Uuid>, rateLimitName: Option<string>,
    parameterCount: nat, secretBindingCount: nat)

  predicate InventoryBefore(a: RoutingListItem, b: RoutingListItem) { StrLess(a.displayName, b.displayName) }

  // ----- The columns the inventory reads -----

  function IdOf(): RoutingRow -> Option<Uuid> { (r: RoutingRow) => Some(r.id) }

  function NameAt(id: Uuid): RoutingRow -> Option<string> {
    (r: RoutingRow) => if r.id == id then Some(r.displayName) else None
  }

  function ModeAt(id: Uuid): RoutingRow -> Option<string> {
    (r: RoutingRow) => if r.id == id then Some(r.mode) else None
  }

  function RateLimitIdAt(id: Uuid): RoutingRow -> Option<Uuid> {
    (r: RoutingRow) => if r.id == id then r.rateLimitId else None
  }

  function RateLimitNameAt(id: Uuid): RoutingRow -> Option<string> {
    (r: RoutingRow) => if r.id == id then r.rateLimitName else None
  }

  function ParameterAt(id: Uuid): RoutingRow -> Option<ParameterItem> {
    (r: RoutingRow) =>
      if r.id == id && r.paramKey.Some? then Some(ParameterItem(r.paramKey.value, r.value, r.secretId)) else None
  }

  function SecretAt(id: Uuid): RoutingRow -> Option<Uuid> {
    (r: RoutingRow) => if r.id == id then r.secretId else None
  }

  // ----- What the inventory means -----

  function Ids(rows: seq<RoutingRow>): set<Uuid> { Picks(rows, IdOf()) }

  lemma HasRow(rows: seq<RoutingRow>, id: Uuid)
    requires id in Ids(rows)
    ensures FirstSome(rows, NameAt(id)).Some? && FirstSome(rows, ModeAt(id)).Some?
  {
    var r := PickedFrom(rows, IdOf(), id);
    Seen(rows, NameAt(id), r);
    Seen(rows, ModeAt(id), r);
  }

  function Entry(rows: seq<RoutingRow>, id: Uuid): RoutingListItem
    requires id in Ids(rows)
  {
    HasRow(rows, id);
    RoutingListItem(
      id, FirstSome(rows, NameAt(id)).value, FirstSome(rows, ModeAt(id)).value,
      FirstSome(rows, RateLimitIdAt(id)), FirstSome(rows, RateLimitNameAt(id)),
      Tally(rows, ParameterAt(id)), Tally(rows, SecretAt(id)))
  }

  function ItemMap(rows: seq<RoutingRow>): map<Uuid, RoutingListItem> {
    map id | id in Ids(rows) :: Entry(rows, id)
  }

  function InventoryItems(rows: seq<RoutingRow>): seq<RoutingListItem> {
    StableSort(ById(ItemMap(rows)), InventoryBefore)
  }

  // ----- The loop -----

  function Counted(entry: RoutingListItem, row: RoutingRow): RoutingListItem {
    entry.(
      parameterCount := entry.parameterCount + if row.paramKey.Some? then 1 else 0,
      secretBindingCount := entry.secretBindingCount + if row.secretId.Some? then 1 else 0,
      rateLimitId := entry.rateLimitId.Or(row.rateLimitId), rateLimitName := entry.rateLimitName.Or(row.rateLimitName))
  }

  function NewEntry(row: RoutingRow): RoutingListItem {
    RoutingListItem(row.id, row.displayName, row.mode, row.rateLimitId, row.rateLimitName, 0, 0)
  }

  lemma Unidentified<T>(rows: seq<RoutingRow>, id: Uuid, pick: RoutingRow -> Option<T>)
    requires id !in Ids(rows)
    requires forall r: RoutingRow :: r.id != id ==> pick(r).None?
    ensures FirstSome(rows, pick).None? && Tally(rows, pick) == 0
  {
    forall r | r in rows ensures pick(r).None? {
      if r.id == id { Seen(rows, IdOf(), r); }
    }
    NothingPicked(rows, pick);
    NothingTallied(rows, pick);
  }

  lemma {:induction false} NothingTallied<T>(rows: seq<RoutingRow>, pick: RoutingRow -> Option<T>)
    requires forall r :: r in rows ==> pick(r).None?
    ensures Tally(rows, pick) == 0
  {
    var n := |rows|;
    if n > 0 {
      assert rows[n - 1] in rows;
      NothingTallied(rows[..n - 1], pick);
    }
  }

  lemma EntrySnoc(rows: seq<RoutingRow>, row: RoutingRow, id: Uuid)
    requires id in Ids(rows + [row])
    ensures id != row.id ==> id in Ids(rows) && Entry(rows + [row], id) == Entry(rows, id)
    ensures id == row.id ==>
      Entry(rows + [row], id) == Counted(if id in Ids(rows) then Entry(rows, id) else NewEntry(row), row)
  {
    Snoc(rows, row, IdOf());
    Snoc(rows, row, NameAt(id));
    Snoc(rows, row, ModeAt(id));
    Snoc(rows, row, RateLimitIdAt(id));
    Snoc(rows, row, RateLimitNameAt(id));
    TallySnoc(rows, row, ParameterAt(id));
    TallySnoc(rows, row, SecretAt(id));
    hide Tally, Picks, FirstSome, LastSome;
    if id in Ids(rows) {
      HasRow(rows, id);
    } else {
      Unidentified(rows, id, NameAt(id));
      Unidentified(rows, id, ModeAt(id));
      Unidentified(rows, id, RateLimitIdAt(id));
      Unidentified(rows, id, RateLimitNameAt(id));
      Unidentified(rows, id, ParameterAt(id));
      Unidentified(rows, id, SecretAt(id));
    }
  }

  predicate EntriesAre(policies: map<Uuid, RoutingListItem>, rows: seq<RoutingRow>) {
    policies.Keys == Ids(rows) && forall id :: id in policies ==> policies[id] == Entry(rows, id)
  }

  lemma EntriesSnoc(policies: map<Uuid, RoutingListItem>, rows: seq<RoutingRow>, row: RoutingRow)
    requires EntriesAre(policies, rows)
    ensures EntriesAre(
      policies[row.id := Counted(if row.id in policies then policies[row.id] else NewEntry(row), row)], rows + [row])
  {
    hide Picks, Entry, Counted;
    Snoc(rows, row, IdOf());
    forall id | id in Ids(rows + [row])
      ensures id != row.id ==> id in Ids(rows) && Entry(rows + [row], id) == Entry(rows, id)
      ensures id == row.id ==>
        Entry(rows + [row], id) == Counted(if id in Ids(rows) then Entry(rows, id) else NewEntry(row), row)
    {
      EntrySnoc(rows, row, id);
    }
  }

  lemma NoEntries()
    ensures EntriesAre(map[], [])
  {
  }

  lemma EntriesAreAll(policies: map<Uuid, RoutingListItem>, rows: seq<RoutingRow>)
    requires EntriesAre(policies, rows)
    ensures policies == ItemMap(rows)
  {
    hide Entry;
  }

  /** `build_routing_policy_inventory` */
  method BuildRoutingPolicyInventory(rows: seq<RoutingRow>) returns (items: seq<RoutingListItem>)
    ensures items == InventoryItems(rows)
  {
    var policies: map<Uuid, RoutingListItem> := map[];
    hide EntriesAre, Ids, Entry, StableSort, ById;
    NoEntries();
    assert rows[..0] == [];
    for i := 0 to |rows|
      invariant EntriesAre(policies, rows[..i])
    {
      var row := rows[i];
      assert rows[..i + 1] == rows[..i] + [row];
      EntriesSnoc(policies, rows[..i], row);
      var entry := if row.id in policies then policies[row.id] else NewEntry(row);
      if row.paramKey.Some? { entry := entry.(parameterCount := entry.parameterCount + 1); }
      if row.secretId.Some? { entry := entry.(secretBindingCount := entry.secretBindingCount + 1); }
      if entry.rateLimitId.None? { entry := entry.(rateLimitId := row.rateLimitId); }
      if entry.rateLimitName.None? { entry := entry.(rateLimitName := row.rateLimitName); }
      policies := policies[row.id := entry];
    }
    assert rows[..|rows|] == rows;
    EntriesAreAll(policies, rows);
    items := StableSort(ById(policies), InventoryBefore);
  }
}
