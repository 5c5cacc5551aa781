/** Which row of a join decides each column, in the export and in the inventories, for any rows at all. */
module RowWinners {
  import opened Basics
  import opened Ordering
  import opened RowFolds
  import opened IndexerRecords
  import opened KeyedLists
  import opened SecretTable
  import S = SnapshotExport
  import E = InstanceExport
  import R = RoutingExport
  import I = InstanceInventory
  import V = RoutingInventory

  // ----- Columns -----

  datatype Column = Fixed | Named | RoutingId | RoutingName | LimitId | LimitName | RssEnabled | RssInterval

  datatype Cell =
    | FixedCell(columns: InstanceColumns) | IdCell(id: Uuid) | TextCell(text: string) | FlagCell(flag: bool)
    | NumberCell(number: int)

  function IdIn(id: Option<Uuid>): Option<Cell> { if id.Some? then Some(IdCell(id.value)) else None }
  function TextIn(text: Option<string>): Option<Cell> { if text.Some? then Some(TextCell(text.value)) else None }
  function FlagIn(flag: Option<bool>): Option<Cell> { if flag.Some? then Some(FlagCell(flag.value)) else None }
  function NumberIn(number: Option<int>): Option<Cell> {
    if number.Some? then Some(NumberCell(number.value)) else None
  }

  function RowCell(c: Column, r: InstanceRow): Option<Cell> {
    match c
    case Fixed => Some(FixedCell(r.columns))
    case Named => Some(TextCell(r.displayName))
    case RoutingId => IdIn(r.routingId)
    case RoutingName => TextIn(r.routingName)
    case LimitId => IdIn(r.rateLimitId)
    case LimitName => TextIn(r.rateLimitName)
    case RssEnabled => FlagIn(r.rssEnabled)
    case RssInterval => NumberIn(r.rssInterval)
  }

  /** The export has no ids. */
  function ExportCell(c: Column, item: InstanceItem): Option<Cell> {
    match c
    case Fixed => Some(FixedCell(item.columns))
    case Named => Some(TextCell(item.displayName))
    case RoutingId => None
    case RoutingName => TextIn(item.routingName)
    case LimitId => None
    case LimitName => TextIn(item.rateLimitName)
    case RssEnabled => FlagIn(item.rssEnabled)
    case RssInterval => NumberIn(item.rssInterval)
  }

  function InventoryCell(c: Column, item: I.InventoryItem): Option<Cell> {
    match c
    case Fixed => Some(FixedCell(item.columns))
    case Named => Some(TextCell(item.displayName))
    case RoutingId => IdIn(item.routingId)
    case RoutingName => TextIn(item.routingName)
    case LimitId => IdIn(item.rateLimitId)
    case LimitName => TextIn(item.rateLimitName)
    case RssEnabled => FlagIn(item.rssEnabled)
    case RssInterval => NumberIn(item.rssInterval)
  }

  /** The field as the row gives it. */
  function FieldGiven(r: InstanceRow): FieldItem
    requires r.fieldName.Some?
  {
    FieldItem(r.fieldName.value, if r.fieldType.Some? then r.fieldType.value else "", r.value, r.secretId)
  }

  // ----- The export of instances -----

  lemma ExportedItem(rows: seq<InstanceRow>, item: InstanceItem)
    requires item in E.InstanceItems(rows)
    ensures item.displayName in E.InstanceNames(rows) && item == E.ItemOf(rows, item.displayName)
  {
    hide E.ItemOf, E.InstanceNames, ByName;
    ByNameHolds(E.ItemMap(rows));
    var n :| n in E.ItemMap(rows) && E.ItemMap(rows)[n] == item;
    E.ItemNamed(rows, n);
  }

  lemma ScalarsOf(rows: seq<InstanceRow>, item: InstanceItem)
    requires item in E.InstanceItems(rows)
    ensures var name := item.displayName;
      && FirstSome(rows, E.ColumnsFor(name)) == Some(item.columns)
      && FirstSome(rows, E.RoutingNameFor(name)) == item.routingName
      && FirstSome(rows, E.RateLimitNameFor(name)) == item.rateLimitName
      && FirstSome(rows, E.RssEnabledFor(name)) == item.rssEnabled
      && FirstSome(rows, E.RssIntervalFor(name)) == item.rssInterval
  {
    hide E.InstanceItems, E.InstanceNames, FirstSome, E.FieldMap, SortedNames, ByName, Picks;
    ExportedItem(rows, item);
    E.HasColumns(rows, item.displayName);
  }

  lemma CollectionsOf(rows: seq<InstanceRow>, item: InstanceItem)
    requires item in E.InstanceItems(rows)
    ensures var name := item.displayName;
      && (forall k :: k in item.mediaKeys <==> k in Picks(rows, E.MediaFor(name)))
      && (forall k :: k in item.tagKeys <==> k in Picks(rows, E.TagFor(name)))
      && item.fields == ByName(E.FieldMap(rows, name))
  {
    hide E.InstanceItems, E.InstanceNames, FirstSome, E.FieldMap, E.Entry, ByName, Picks;
    ExportedItem(rows, item);
  }

  lemma FieldListed(fields: map<string, FieldItem>, f: string)
    requires f in fields
    ensures fields[f] in ByName(fields)
  {
    ByNameHolds(fields);
  }

  /** Each column holds the value of the first row of the name that has one, and none if no row has. */
  lemma ExportTakesFirst(front: seq<InstanceRow>, row: InstanceRow, back: seq<InstanceRow>, item: InstanceItem,
                         c: Column)
    requires item in E.InstanceItems(front + [row] + back) && item.displayName == row.displayName
    requires !c.RoutingId? && !c.LimitId? && RowCell(c, row).Some?
    requires forall r :: r in front && r.displayName == row.displayName ==> RowCell(c, r).None?
    ensures ExportCell(c, item) == RowCell(c, row)
  {
    hide FirstSome, E.InstanceItems, E.ItemOf, Picks;
    var name := row.displayName;
    ScalarsOf(front + [row] + back, item);
    match c
    case Fixed => FirstSomeAt(front, row, back, E.ColumnsFor(name));
    case Named =>
    case RoutingName => FirstSomeAt(front, row, back, E.RoutingNameFor(name));
    case LimitName => FirstSomeAt(front, row, back, E.RateLimitNameFor(name));
    case RssEnabled => FirstSomeAt(front, row, back, E.RssEnabledFor(name));
    case RssInterval => FirstSomeAt(front, row, back, E.RssIntervalFor(name));
  }

  lemma ExportTakesNone(rows: seq<InstanceRow>, item: InstanceItem, c: Column)
    requires item in E.InstanceItems(rows)
    requires forall r :: r in rows && r.displayName == item.displayName ==> RowCell(c, r).None?
    ensures ExportCell(c, item).None?
  {
    hide FirstSome, E.InstanceItems, E.ItemOf, Picks;
    var name := item.displayName;
    ScalarsOf(rows, item);
    match c
    case Fixed => var r := FirstFrom(rows, E.ColumnsFor(name));
    case Named => var r := FirstFrom(rows, E.ColumnsFor(name));
    case RoutingId =>
    case RoutingName => NothingPicked(rows, E.RoutingNameFor(name));
    case LimitId =>
    case LimitName => NothingPicked(rows, E.RateLimitNameFor(name));
    case RssEnabled => NothingPicked(rows, E.RssEnabledFor(name));
    case RssInterval => NothingPicked(rows, E.RssIntervalFor(name));
  }

  /** A field is that of the first row of the name that mentions it. */
  lemma ExportTakesFirstField(front: seq<InstanceRow>, row: InstanceRow, back: seq<InstanceRow>, item: InstanceItem)
    requires item in E.InstanceItems(front + [row] + back) && item.displayName == row.displayName
    requires row.fieldName.Some?
    requires forall r :: r in front && r.displayName == row.displayName ==> r.fieldName != row.fieldName
    ensures FieldGiven(row) in item.fields
  {
    hide FirstSome, E.InstanceItems, E.ItemOf, ByName, Picks;
    var rows, name, f := front + [row] + back, row.displayName, row.fieldName.value;
    CollectionsOf(rows, item);
    FirstSomeAt(front, row, back, E.FieldFor(name, f));
    Seen(rows, E.FieldNameFor(name), row);
    FieldListed(E.FieldMap(rows, name), f);
  }

  /** The keys and the fields of an item are exactly those that rows of its name mention. */
  lemma ExportMentions(rows: seq<InstanceRow>, item: InstanceItem, k: string)
    requires item in E.InstanceItems(rows)
    ensures k in item.mediaKeys <==> exists r :: r in rows && r.displayName == item.displayName && r.mediaKey == Some(k)
    ensures k in item.tagKeys <==> exists r :: r in rows && r.displayName == item.displayName && r.tagKey == Some(k)
    ensures (exists f :: f in item.fields && f.name == k) <==>
            (exists r :: r in rows && r.displayName == item.displayName && r.fieldName == Some(k))
  {
    hide E.InstanceItems, E.ItemOf, SortedNames, ByName, Picks, E.FieldMap;
    var name := item.displayName;
    CollectionsOf(rows, item);
    PicksExactly(rows, E.MediaFor(name), k);
    PicksExactly(rows, E.TagFor(name), k);
    PicksExactly(rows, E.FieldNameFor(name), k);
    MapNames(rows, name);
    NamedFields(E.FieldMap(rows, name), k);
    MentionsRead(rows, name, k);
  }

  lemma MentionsRead(rows: seq<InstanceRow>, name: string, k: string)
    ensures (exists r :: r in rows && E.MediaFor(name)(r) == Some(k)) <==>
            (exists r :: r in rows && r.displayName == name && r.mediaKey == Some(k))
    ensures (exists r :: r in rows && E.TagFor(name)(r) == Some(k)) <==>
            (exists r :: r in rows && r.displayName == name && r.tagKey == Some(k))
    ensures (exists r :: r in rows && E.FieldNameFor(name)(r) == Some(k)) <==>
            (exists r :: r in rows && r.displayName == name && r.fieldName == Some(k))
  {
  }

  lemma PicksExactly<R, T>(rows: seq<R>, pick: R -> Option<T>, v: T)
    ensures v in Picks(rows, pick) <==> exists r :: r in rows && pick(r) == Some(v)
  {
    if v in Picks(rows, pick) { var r := PickedFrom(rows, pick, v); }
    if r :| r in rows && pick(r) == Some(v) { Seen(rows, pick, r); }
  }

  lemma MapNames(rows: seq<InstanceRow>, name: string)
    ensures E.FieldMap(rows, name).Keys == Picks(rows, E.FieldNameFor(name))
    ensures forall f :: f in E.FieldMap(rows, name) ==> E.FieldMap(rows, name)[f].name == f
  {
    forall f | f in E.FieldMap(rows, name) ensures E.FieldMap(rows, name)[f].name == f {
      E.HasField(rows, name, f);
      var r := FirstFrom(rows, E.FieldFor(name, f));
    }
  }

  lemma NamedFields(fields: map<string, FieldItem>, k: string)
    requires forall f :: f in fields ==> fields[f].name == f
    ensures (exists f :: f in ByName(fields) && f.name == k) <==> k in fields
  {
    ByNameHolds(fields);
    hide ByName;
    if k in fields { assert fields[k] in ByName(fields); }
  }

  // ----- The inventory of instances -----

  lemma InventoriedItem(rows: seq<InstanceRow>, item: I.InventoryItem)
    requires item in I.InventoryItems(rows)
    ensures item.id in I.Ids(rows) && item == I.ItemOf(rows, item.id)
  {
    hide I.ItemOf, I.Ids, ById, StableSort;
    SortedElements(ById(I.ItemMap(rows)), I.InventoryBefore);
    ByIdHolds(I.ItemMap(rows));
    var id :| id in I.ItemMap(rows) && I.ItemMap(rows)[id] == item;
    ItemIdentified(rows, id);
  }

  lemma ItemIdentified(rows: seq<InstanceRow>, id: Uuid)
    requires id in I.Ids(rows)
    ensures I.ItemOf(rows, id).id == id
  {
  }

  lemma ListedScalars(rows: seq<InstanceRow>, item: I.InventoryItem)
    requires item in I.InventoryItems(rows)
    ensures var id := item.id;
      && FirstSome(rows, I.ColumnsAt(id)) == Some(item.columns)
      && FirstSome(rows, I.NameAt(id)) == Some(item.displayName)
      && FirstSome(rows, I.RoutingIdAt(id)) == item.routingId
      && FirstSome(rows, I.RoutingNameAt(id)) == item.routingName
      && FirstSome(rows, I.RateLimitIdAt(id)) == item.rateLimitId
      && FirstSome(rows, I.RateLimitNameAt(id)) == item.rateLimitName
      && FirstSome(rows, I.RssEnabledAt(id)) == item.rssEnabled
      && FirstSome(rows, I.RssIntervalAt(id)) == item.rssInterval
  {
    hide I.InventoryItems, I.Ids, FirstSome, I.FieldMap, SortedNames, ByName, Picks;
    InventoriedItem(rows, item);
    I.HasRow(rows, item.id);
  }

  lemma ListedCollections(rows: seq<InstanceRow>, item: I.InventoryItem)
    requires item in I.InventoryItems(rows)
    ensures var id := item.id;
      && (forall k :: k in item.mediaKeys <==> k in Picks(rows, I.MediaAt(id)))
      && (forall k :: k in item.tagKeys <==> k in Picks(rows, I.TagAt(id)))
      && item.fields == ByName(I.FieldMap(rows, id))
  {
    hide I.InventoryItems, I.Ids, FirstSome, I.FieldMap, I.Entry, ByName, Picks;
    InventoriedItem(rows, item);
  }

  /** Each column holds the value of the first row of the id that has one, and none if no row has. */
  lemma InventoryTakesFirst(front: seq<InstanceRow>, row: InstanceRow, back: seq<InstanceRow>, item: I.InventoryItem,
                            c: Column)
    requires item in I.InventoryItems(front + [row] + back) && item.id == row.id && RowCell(c, row).Some?
    requires forall r :: r in front && r.id == row.id ==> RowCell(c, r).None?
    ensures InventoryCell(c, item) == RowCell(c, row)
  {
    hide FirstSome, I.InventoryItems, I.ItemOf, Picks;
    var id := row.id;
    ListedScalars(front + [row] + back, item);
    match c
    case Fixed => FirstSomeAt(front, row, back, I.ColumnsAt(id));
    case Named => FirstSomeAt(front, row, back, I.NameAt(id));
    case RoutingId => FirstSomeAt(front, row, back, I.RoutingIdAt(id));
    case RoutingName => FirstSomeAt(front, row, back, I.RoutingNameAt(id));
    case LimitId => FirstSomeAt(front, row, back, I.RateLimitIdAt(id));
    case LimitName => FirstSomeAt(front, row, back, I.RateLimitNameAt(id));
    case RssEnabled => FirstSomeAt(front, row, back, I.RssEnabledAt(id));
    case RssInterval => FirstSomeAt(front, row, back, I.RssIntervalAt(id));
  }

  lemma InventoryTakesNone(rows: seq<InstanceRow>, item: I.InventoryItem, c: Column)
    requires item in I.InventoryItems(rows) && !c.Fixed? && !c.Named?
    requires forall r :: r in rows && r.id == item.id ==> RowCell(c, r).None?
    ensures InventoryCell(c, item).None?
  {
    hide FirstSome, I.InventoryItems, I.ItemOf, Picks;
    var id := item.id;
    ListedScalars(rows, item);
    match c
    case RoutingId => NothingPicked(rows, I.RoutingIdAt(id));
    case RoutingName => NothingPicked(rows, I.RoutingNameAt(id));
    case LimitId => NothingPicked(rows, I.RateLimitIdAt(id));
    case LimitName => NothingPicked(rows, I.RateLimitNameAt(id));
    case RssEnabled => NothingPicked(rows, I.RssEnabledAt(id));
    case RssInterval => NothingPicked(rows, I.RssIntervalAt(id));
  }

  /** A field is that of the last row of the id that mentions it. */
  lemma InventoryTakesLastField(front: seq<InstanceRow>, row: InstanceRow, back: seq<InstanceRow>,
                                item: I.InventoryItem)
    requires item in I.InventoryItems(front + [row] + back) && item.id == row.id && row.fieldName.Some?
    requires forall r :: r in back && r.id == row.id ==> r.fieldName != row.fieldName
    ensures FieldGiven(row) in item.fields
  {
    hide LastSome, I.InventoryItems, I.ItemOf, ByName, Picks;
    var rows, id, f := front + [row] + back, row.id, row.fieldName.value;
    ListedCollections(rows, item);
    LastSomeAt(front, row, back, I.FieldAt(id, f));
    Seen(rows, I.FieldNameAt(id), row);
    FieldListed(I.FieldMap(rows, id), f);
  }

  /** Whatever the rows, the list is sorted by name and, under one name, by id. */
  lemma InventoryInOrder(rows: seq<InstanceRow>, i: nat, j: nat)
    requires i < j < |I.InventoryItems(rows)|
    ensures var a, b := I.InventoryItems(rows)[i], I.InventoryItems(rows)[j];
      StrLess(a.displayName, b.displayName) || (a.displayName == b.displayName && a.id < b.id)
  {
    hide I.ItemOf, I.Ids, ById, StableSort, StrLess;
    forall id | id in I.ItemMap(rows) ensures I.ItemMap(rows)[id].id == id { ItemIdentified(rows, id); }
    var name, idOf := (item: I.InventoryItem) => item.displayName, (item: I.InventoryItem) => item.id;
    assert OrderedByName(I.InventoryBefore, name);
    SortedWithTies(I.ItemMap(rows), I.InventoryBefore, name, idOf);
    assert NameThenId(name, idOf)(I.InventoryItems(rows)[i], I.InventoryItems(rows)[j]);
  }

  // ----- Routing policies -----

  function PolicyCell(c: Column, r: RoutingRow): Option<Cell> {
    match c
    case Fixed => Some(TextCell(r.mode))
    case Named => Some(TextCell(r.displayName))
    case LimitId => IdIn(r.rateLimitId)
    case LimitName => TextIn(r.rateLimitName)
    case _ => None
  }

  function DocumentCell(c: Column, item: RoutingItem): Option<Cell> {
    match c
    case Fixed => Some(TextCell(item.mode))
    case Named => Some(TextCell(item.displayName))
    case LimitName => TextIn(item.rateLimitName)
    case _ => None
  }

  function ListingCell(c: Column, item: V.RoutingListItem): Option<Cell> {
    match c
    case Fixed => Some(TextCell(item.mode))
    case Named => Some(TextCell(item.displayName))
    case LimitId => IdIn(item.rateLimitId)
    case LimitName => TextIn(item.rateLimitName)
    case _ => None
  }

  lemma DocumentScalars(rows: seq<RoutingRow>, item: RoutingItem)
    requires item in R.RoutingItems(rows)
    ensures FirstSome(rows, R.ModeFor(item.displayName)) == Some(item.mode)
    ensures FirstSome(rows, R.RateLimitNameFor(item.displayName)) == item.rateLimitName
  {
    hide R.RoutingNames, ByName, FirstSome, R.SortedParameters, Picks;
    ByNameHolds(R.ItemMap(rows));
    var n :| n in R.ItemMap(rows) && R.ItemMap(rows)[n] == item;
    R.HasMode(rows, n);
  }

  /** The first row of a name decides the mode, the first one with a rate limit the rate limit. */
  lemma DocumentTakesFirst(front: seq<RoutingRow>, row: RoutingRow, back: seq<RoutingRow>, item: RoutingItem, c: Column)
    requires item in R.RoutingItems(front + [row] + back) && item.displayName == row.displayName
    requires !c.LimitId? && PolicyCell(c, row).Some?
    requires forall r :: r in front && r.displayName == row.displayName ==> PolicyCell(c, r).None?
    ensures DocumentCell(c, item) == PolicyCell(c, row)
  {
    hide R.RoutingItems, FirstSome;
    DocumentScalars(front + [row] + back, item);
    if c.Fixed? { FirstSomeAt(front, row, back, R.ModeFor(row.displayName)); }
    if c.LimitName? { FirstSomeAt(front, row, back, R.RateLimitNameFor(row.displayName)); }
  }

  lemma ListingScalars(rows: seq<RoutingRow>, item: V.RoutingListItem)
    requires item in V.InventoryItems(rows)
    ensures FirstSome(rows, V.NameAt(item.id)) == Some(item.displayName)
    ensures FirstSome(rows, V.ModeAt(item.id)) == Some(item.mode)
    ensures FirstSome(rows, V.RateLimitIdAt(item.id)) == item.rateLimitId
    ensures FirstSome(rows, V.RateLimitNameAt(item.id)) == item.rateLimitName
  {
    hide V.Ids, ById, StableSort, FirstSome, Tally, Picks;
    SortedElements(ById(V.ItemMap(rows)), V.InventoryBefore);
    ByIdHolds(V.ItemMap(rows));
    var id :| id in V.ItemMap(rows) && V.ItemMap(rows)[id] == item;
    V.HasRow(rows, id);
  }

  lemma ListingTakesFirst(front: seq<RoutingRow>, row: RoutingRow, back: seq<RoutingRow>, item: V.RoutingListItem,
                          c: Column)
    requires item in V.InventoryItems(front + [row] + back) && item.id == row.id && PolicyCell(c, row).Some?
    requires forall r :: r in front && r.id == row.id ==> PolicyCell(c, r).None?
    ensures ListingCell(c, item) == PolicyCell(c, row)
  {
    hide V.InventoryItems, FirstSome;
    ListingScalars(front + [row] + back, item);
    var id := row.id;
    match c
    case Fixed => FirstSomeAt(front, row, back, V.ModeAt(id));
    case Named => FirstSomeAt(front, row, back, V.NameAt(id));
    case LimitId => FirstSomeAt(front, row, back, V.RateLimitIdAt(id));
    case LimitName => FirstSomeAt(front, row, back, V.RateLimitNameAt(id));
  }

  lemma ListingInOrder(rows: seq<RoutingRow>, i: nat, j: nat)
    requires i < j < |V.InventoryItems(rows)|
    ensures var a, b := V.InventoryItems(rows)[i], V.InventoryItems(rows)[j];
      StrLess(a.displayName, b.displayName) || (a.displayName == b.displayName && a.id < b.id)
  {
    hide V.Ids, ById, StableSort, StrLess, Tally, FirstSome;
    var name, idOf := (item: V.RoutingListItem) => item.displayName, (item: V.RoutingListItem) => item.id;
    assert OrderedByName(V.InventoryBefore, name);
    SortedWithTies(V.ItemMap(rows), V.InventoryBefore, name, idOf);
    assert NameThenId(name, idOf)(V.InventoryItems(rows)[i], V.InventoryItems(rows)[j]);
  }

  // ----- Secrets -----

  /** The row names a secret with its type, beside the key it belongs to. */
  predicate Types(r: InstanceRow, s: SecretRef) {
    r.fieldName.Some? && r.secretId == Some(s.id) && r.secretType == Some(s.secretType)
  }

  predicate PolicyTypes(r: RoutingRow, s: SecretRef) {
    r.paramKey.Some? && r.secretId == Some(s.id) && r.secretType == Some(s.secretType)
  }

  function PolicySecrets(rows: S.Rows): Secrets { Collect(map[], rows.routing, R.SecretOf()) }

  function AllSecrets(rows: S.Rows): Secrets { Collect(PolicySecrets(rows), rows.instances, E.SecretOf()) }

  lemma SecretsAre(rows: S.Rows)
    ensures Keyed(PolicySecrets(rows)) && Keyed(AllSecrets(rows))
    ensures forall s :: s in S.SnapshotOf(rows).secrets <==> s in AllSecrets(rows).Values
  {
    hide Collect, Listed, Keyed;
    NothingKeyed();
    CollectKeyed(map[], rows.routing, R.SecretOf());
    CollectKeyed(PolicySecrets(rows), rows.instances, E.SecretOf());
    ListedAscending(AllSecrets(rows));
  }

  lemma NothingKeyed()
    ensures Keyed(map[])
  {
  }

  lemma InTable(refs: Secrets, s: SecretRef)
    requires Keyed(refs)
    ensures s in refs.Values <==> Find(refs, s.id) == Some(s)
  {
  }

  /** A secret is listed under the type that the last instance row that types it gives. */
  lemma InstanceRowDecides(rows: S.Rows, front: seq<InstanceRow>, row: InstanceRow, back: seq<InstanceRow>,
                           s: SecretRef)
    requires rows.instances == front + [row] + back && Types(row, s)
    requires forall r :: r in back ==> r.fieldName.None? || r.secretId != Some(s.id) || r.secretType.None?
    ensures s in S.SnapshotOf(rows).secrets
  {
    hide S.SnapshotOf, Collect, LastSome;
    SecretsAre(rows);
    InTable(AllSecrets(rows), s);
    CollectLast(PolicySecrets(rows), rows.instances, E.SecretOf(), s.id);
    LastSomeAt(front, row, back, At(E.SecretOf(), s.id));
  }

  /** No instance row types it: then the last policy row that does decides. */
  lemma PolicyRowDecides(rows: S.Rows, front: seq<RoutingRow>, row: RoutingRow, back: seq<RoutingRow>, s: SecretRef)
    requires rows.routing == front + [row] + back && PolicyTypes(row, s)
    requires forall r :: r in back ==> r.paramKey.None? || r.secretId != Some(s.id) || r.secretType.None?
    requires forall r :: r in rows.instances ==> r.fieldName.None? || r.secretId != Some(s.id) || r.secretType.None?
    ensures s in S.SnapshotOf(rows).secrets
  {
    hide S.SnapshotOf, Collect, LastSome;
    SecretsAre(rows);
    InTable(AllSecrets(rows), s);
    CollectLast(PolicySecrets(rows), rows.instances, E.SecretOf(), s.id);
    NothingPicked(rows.instances, At(E.SecretOf(), s.id));
    CollectLast(map[], rows.routing, R.SecretOf(), s.id);
    LastSomeAt(front, row, back, At(R.SecretOf(), s.id));
  }

  /** Nothing else is listed. */
  lemma SecretsTyped(rows: S.Rows, s: SecretRef)
    requires s in S.SnapshotOf(rows).secrets
    ensures (exists r :: r in rows.instances && Types(r, s)) || (exists r :: r in rows.routing && PolicyTypes(r, s))
  {
    hide S.SnapshotOf, Collect, LastSome;
    SecretsAre(rows);
    InTable(AllSecrets(rows), s);
    CollectLast(PolicySecrets(rows), rows.instances, E.SecretOf(), s.id);
    CollectLast(map[], rows.routing, R.SecretOf(), s.id);
    if LastSome(rows.instances, At(E.SecretOf(), s.id)).Some? {
      var r := LastFrom(rows.instances, At(E.SecretOf(), s.id));
      assert Types(r, s);
    } else {
      var r := LastFrom(rows.routing, At(R.SecretOf(), s.id));
      assert PolicyTypes(r, s);
    }
  }
}
