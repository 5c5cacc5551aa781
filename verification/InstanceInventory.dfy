/** The instance inventory: the same join rows folded by public id, with the last row of a field
    winning, and the result sorted by display name. */
module InstanceInventory {
  import opened Basics
  import opened Ordering
  import opened RowFolds
  import opened Filling
  import opened IndexerRecords
  import I = InstanceExport

  datatype InventoryItem = InventoryItem(
    id: Uuid, displayName: string, columns: InstanceColumns,
    routingId: Option<Uuid>, routingName: Option<string>, rateLimitId: Option<Uuid>, rateLimitName: Option<string>,
    rssEnabled: Option<bool>, rssInterval: Option<int>,
    mediaKeys: seq<string>, tagKeys: seq<string>, fields: seq<FieldItem>)

  predicate InventoryBefore(a: InventoryItem, b: InventoryItem) { StrLess(a.displayName, b.displayName) }

  // ----- The columns the inventory reads -----

  function IdOf(): InstanceRow -> Option<Uuid> { (r: InstanceRow) => Some(r.id) }

  function NameAt(id: Uuid): InstanceRow -> Option<string> {
    (r: InstanceRow) => if r.id == id then Some(r.displayName) else None
  }

  function ColumnsAt(id: Uuid): InstanceRow -> Option<InstanceColumns> {
    (r: InstanceRow) => if r.id == id then Some(r.columns) else None
  }

  function RoutingIdAt(id: Uuid): InstanceRow -> Option<Uuid> {
    (r: InstanceRow) => if r.id == id then r.routingId else None
  }

  function RoutingNameAt(id: Uuid): InstanceRow -> Option<string> {
    (r: InstanceRow) => if r.id == id then r.routingName else None
  }

  function RateLimitIdAt(id: Uuid): InstanceRow -> Option<Uuid> {
    (r: InstanceRow) => if r.id == id then r.rateLimitId else None
  }

  function RateLimitNameAt(id: Uuid): InstanceRow -> Option<string> {
    (r: InstanceRow) => if r.id == id then r.rateLimitName else None
  }

  function RssEnabledAt(id: Uuid): InstanceRow -> Option<bool> {
    (r: InstanceRow) => if r.id == id then r.rssEnabled else None
  }

  function RssIntervalAt(id: Uuid): InstanceRow -> Option<int> {
    (r: InstanceRow) => if r.id == id then r.rssInterval else None
  }

  function MediaAt(id: Uuid): InstanceRow -> Option<string> {
    (r: InstanceRow) => if r.id == id then r.mediaKey else None
  }

  function TagAt(id: Uuid): InstanceRow -> Option<string> {
    (r: InstanceRow) => if r.id == id then r.tagKey else None
  }

  function FieldNameAt(id: Uuid): InstanceRow -> Option<string> {
    (r: InstanceRow) => if r.id == id then r.fieldName else None
  }

  function FieldAt(id: Uuid, field: string): InstanceRow -> Option<FieldItem> {
    (r: InstanceRow) => if r.id == id && r.fieldName == Some(field) then Some(I.FieldOf(r, field)) else None
  }

  // ----- What the inventory means -----

  function Ids(rows: seq<InstanceRow>): set<Uuid> { Picks(rows, IdOf()) }

  lemma HasRow(rows: seq<InstanceRow>, id: Uuid)
    requires id in Ids(rows)
    ensures FirstSome(rows, NameAt(id)).Some? && FirstSome(rows, ColumnsAt(id)).Some?
  {
    var r := PickedFrom(rows, IdOf(), id);
    Seen(rows, NameAt(id), r);
    Seen(rows, ColumnsAt(id), r);
  }

  function Entry(rows: seq<InstanceRow>, id: Uuid): InventoryItem
    requires id in Ids(rows)
  {
    HasRow(rows, id);
    InventoryItem(
      id, FirstSome(rows, NameAt(id)).value, FirstSome(rows, ColumnsAt(id)).value,
      FirstSome(rows, RoutingIdAt(id)), FirstSome(rows, RoutingNameAt(id)),
      FirstSome(rows, RateLimitIdAt(id)), FirstSome(rows, RateLimitNameAt(id)),
      FirstSome(rows, RssEnabledAt(id)), FirstSome(rows, RssIntervalAt(id)), [], [], [])
  }

  lemma HasField(rows: seq<InstanceRow>, id: Uuid, field: string)
    requires field in Picks(rows, FieldNameAt(id))
    ensures LastSome(rows, FieldAt(id, field)).Some?
  {
    var r := PickedFrom(rows, FieldNameAt(id), field);
    Seen(rows, FieldAt(id, field), r);
  }

  /** Field by field, the last row that mentions the field. */
  function FieldMap(rows: seq<InstanceRow>, id: Uuid): map<string, FieldItem> {
    map f | f in Picks(rows, FieldNameAt(id)) :: HasField(rows, id, f); LastSome(rows, FieldAt(id, f)).value
  }

  predicate Bare(item: InventoryItem) {
    item.mediaKeys == [] && item.tagKeys == [] && item.fields == []
  }

  function Filled(entry: InventoryItem, media: set<string>, tags: set<string>, fields: map<string, FieldItem>)
    : InventoryItem
  {
    entry.(mediaKeys := SortedNames(media), tagKeys := SortedNames(tags), fields := ByName(fields))
  }

  function ItemOf(rows: seq<InstanceRow>, id: Uuid): InventoryItem
    requires id in Ids(rows)
  {
    Filled(Entry(rows, id), Picks(rows, MediaAt(id)), Picks(rows, TagAt(id)), FieldMap(rows, id))
  }

  function ItemMap(rows: seq<InstanceRow>): map<Uuid, InventoryItem> {
    map id | id in Ids(rows) :: ItemOf(rows, id)
  }

  function InventoryItems(rows: seq<InstanceRow>): seq<InventoryItem> {
    StableSort(ById(ItemMap(rows)), InventoryBefore)
  }

  // ----- The accumulators of the loop -----

  function MergeOptions(entry: InventoryItem, row: InstanceRow): InventoryItem {
    entry.(
      routingId := entry.routingId.Or(row.routingId), routingName := entry.routingName.Or(row.routingName),
      rateLimitId := entry.rateLimitId.Or(row.rateLimitId), rateLimitName := entry.rateLimitName.Or(row.rateLimitName),
      rssEnabled := entry.rssEnabled.Or(row.rssEnabled), rssInterval := entry.rssInterval.Or(row.rssInterval))
  }

  /** `update_indexer_instance_inventory_entry` */
  function UpdateEntry(instances: map<Uuid, InventoryItem>, row: InstanceRow): map<Uuid, InventoryItem> {
    var entry :=
      if row.id in instances then instances[row.id]
      else InventoryItem(row.id, row.displayName, row.columns, row.routingId, row.routingName,
                         row.rateLimitId, row.rateLimitName, row.rssEnabled, row.rssInterval, [], [], []);
    instances[row.id := MergeOptions(entry, row)]
  }

  /** `insert_indexer_instance_inventory_field`: the row overwrites what was there. */
  function InsertField(fields: map<Uuid, map<string, FieldItem>>, row: InstanceRow): map<Uuid, map<string, FieldItem>> {
    if row.fieldName.None? then fields else
      var f := row.fieldName.value;
      fields[row.id := I.FieldsOf(fields, row.id)[f := I.FieldOf(row, f)]]
  }

  // ----- One more row -----

  predicate EntriesAre(instances: map<Uuid, InventoryItem>, rows: seq<InstanceRow>) {
    instances.Keys == Ids(rows) && forall id :: id in instances ==> instances[id] == Entry(rows, id)
  }

  ghost predicate MediaAre(keys: map<Uuid, set<string>>, rows: seq<InstanceRow>) {
    forall id: Uuid :: I.KeysOf(keys, id) == Picks(rows, MediaAt(id))
  }

  ghost predicate TagsAre(keys: map<Uuid, set<string>>, rows: seq<InstanceRow>) {
    forall id: Uuid :: I.KeysOf(keys, id) == Picks(rows, TagAt(id))
  }

  ghost predicate FieldsAre(fields: map<Uuid, map<string, FieldItem>>, rows: seq<InstanceRow>) {
    forall id: Uuid :: I.FieldsOf(fields, id) == FieldMap(rows, id)
  }

  lemma Unidentified<T>(rows: seq<InstanceRow>, id: Uuid, pick: InstanceRow -> Option<T>)
    requires id !in Ids(rows)
    requires forall r: InstanceRow :: r.id != id ==> pick(r).None?
    ensures FirstSome(rows, pick).None?
  {
    forall r | r in rows ensures pick(r).None? {
      if r.id == id { Seen(rows, IdOf(), r); }
    }
    NothingPicked(rows, pick);
  }

  lemma EntrySnoc(rows: seq<InstanceRow>, row: InstanceRow, id: Uuid)
    requires id in Ids(rows + [row])
    ensures id != row.id ==> id in Ids(rows) && Entry(rows + [row], id) == Entry(rows, id)
    ensures id == row.id ==>
      var entry := if id in Ids(rows) then Entry(rows, id)
                   else InventoryItem(id, row.displayName, row.columns, None, None, None, None, None, None, [], [], []);
      Entry(rows + [row], id) == MergeOptions(entry, row)
  {
    Snoc(rows, row, IdOf());
    Snoc(rows, row, NameAt(id));
    Snoc(rows, row, ColumnsAt(id));
    Snoc(rows, row, RoutingIdAt(id));
    Snoc(rows, row, RoutingNameAt(id));
    Snoc(rows, row, RateLimitIdAt(id));
    Snoc(rows, row, RateLimitNameAt(id));
    Snoc(rows, row, RssEnabledAt(id));
    Snoc(rows, row, RssIntervalAt(id));
    if id in Ids(rows) {
      HasRow(rows, id);
    } else {
      Unidentified(rows, id, NameAt(id));
      Unidentified(rows, id, ColumnsAt(id));
      Unidentified(rows, id, RoutingIdAt(id));
      Unidentified(rows, id, RoutingNameAt(id));
      Unidentified(rows, id, RateLimitIdAt(id));
      Unidentified(rows, id, RateLimitNameAt(id));
      Unidentified(rows, id, RssEnabledAt(id));
      Unidentified(rows, id, RssIntervalAt(id));
    }
  }

  lemma EntriesSnoc(instances: map<Uuid, InventoryItem>, rows: seq<InstanceRow>, row: InstanceRow)
    requires EntriesAre(instances, rows)
    ensures EntriesAre(UpdateEntry(instances, row), rows + [row])
  {
    hide Picks, Entry;
    Snoc(rows, row, IdOf());
    forall id | id in Ids(rows + [row]) ensures UpdateEntry(instances, row)[id] == Entry(rows + [row], id) {
      EntrySnoc(rows, row, id);
    }
  }

  lemma MediaSnoc(keys: map<Uuid, set<string>>, rows: seq<InstanceRow>, row: InstanceRow)
    requires MediaAre(keys, rows)
    ensures MediaAre(I.InsertKey(keys, row.id, row.mediaKey), rows + [row])
  {
    var more := I.InsertKey(keys, row.id, row.mediaKey);
    forall id: Uuid ensures I.KeysOf(more, id) == Picks(rows + [row], MediaAt(id)) {
      Snoc(rows, row, MediaAt(id));
      assert I.KeysOf(keys, id) == Picks(rows, MediaAt(id));
    }
  }

  lemma TagSnoc(keys: map<Uuid, set<string>>, rows: seq<InstanceRow>, row: InstanceRow)
    requires TagsAre(keys, rows)
    ensures TagsAre(I.InsertKey(keys, row.id, row.tagKey), rows + [row])
  {
    var more := I.InsertKey(keys, row.id, row.tagKey);
    forall id: Uuid ensures I.KeysOf(more, id) == Picks(rows + [row], TagAt(id)) {
      Snoc(rows, row, TagAt(id));
      assert I.KeysOf(keys, id) == Picks(rows, TagAt(id));
    }
  }

  lemma FieldMapSnoc(rows: seq<InstanceRow>, row: InstanceRow, id: Uuid)
    ensures FieldMap(rows + [row], id) ==
      if row.id == id && row.fieldName.Some?
      then FieldMap(rows, id)[row.fieldName.value := I.FieldOf(row, row.fieldName.value)]
      else FieldMap(rows, id)
  {
    Snoc(rows, row, FieldNameAt(id));
    forall f | f in Picks(rows + [row], FieldNameAt(id))
      ensures FieldMap(rows + [row], id)[f] ==
        if row.id == id && row.fieldName == Some(f) then I.FieldOf(row, f) else FieldMap(rows, id)[f]
    {
      Snoc(rows, row, FieldAt(id, f));
      if f in Picks(rows, FieldNameAt(id)) { HasField(rows, id, f); }
    }
  }

  lemma FieldsSnoc(fields: map<Uuid, map<string, FieldItem>>, rows: seq<InstanceRow>, row: InstanceRow)
    requires FieldsAre(fields, rows)
    ensures FieldsAre(InsertField(fields, row), rows + [row])
  {
    var more := InsertField(fields, row);
    forall id: Uuid ensures I.FieldsOf(more, id) == FieldMap(rows + [row], id) {
      FieldMapSnoc(rows, row, id);
      assert I.FieldsOf(fields, id) == FieldMap(rows, id);
    }
  }

  lemma NothingYet()
    ensures EntriesAre(map[], []) && MediaAre(map[], []) && TagsAre(map[], []) && FieldsAre(map[], [])
  {
  }

  lemma EntriesBare(entries: map<Uuid, InventoryItem>, rows: seq<InstanceRow>)
    requires EntriesAre(entries, rows)
    ensures AllBare(entries)
  {
  }

  // ----- The loop -----

  /** `build_indexer_instance_inventory` */
  method BuildIndexerInstanceInventory(rows: seq<InstanceRow>) returns (items: seq<InventoryItem>)
    ensures items == InventoryItems(rows)
  {
    var instances: map<Uuid, InventoryItem> := map[];
    var mediaDomainKeys: map<Uuid, set<string>> := map[];
    var tagKeys: map<Uuid, set<string>> := map[];
    var fields: map<Uuid, map<string, FieldItem>> := map[];
    hide *;
    NothingYet();
    assert rows[..0] == [];
    for i := 0 to |rows|
      invariant EntriesAre(instances, rows[..i])
      invariant MediaAre(mediaDomainKeys, rows[..i])
      invariant TagsAre(tagKeys, rows[..i])
      invariant FieldsAre(fields, rows[..i])
    {
      var row := rows[i];
      ghost var before := rows[..i];
      assert rows[..i + 1] == before + [row];
      EntriesSnoc(instances, before, row);
      MediaSnoc(mediaDomainKeys, before, row);
      TagSnoc(tagKeys, before, row);
      FieldsSnoc(fields, before, row);
      instances := UpdateEntry(instances, row);
      mediaDomainKeys := I.InsertKey(mediaDomainKeys, row.id, row.mediaKey);
      tagKeys := I.InsertKey(tagKeys, row.id, row.tagKey);
      fields := InsertField(fields, row);
    }
    assert rows[..|rows|] == rows;
    EntriesBare(instances, rows);
    var complete := Assemble(instances, mediaDomainKeys, tagKeys, fields);
    AssembledItems(rows, instances, mediaDomainKeys, tagKeys, fields, complete);
    items := StableSort(ById(complete), InventoryBefore);
  }

  lemma AssembledItems(rows: seq<InstanceRow>, entries: map<Uuid, InventoryItem>, media: map<Uuid, set<string>>,
                       tags: map<Uuid, set<string>>, fields: map<Uuid, map<string, FieldItem>>,
                       instances: map<Uuid, InventoryItem>)
    requires EntriesAre(entries, rows) && MediaAre(media, rows) && TagsAre(tags, rows) && FieldsAre(fields, rows)
    requires instances == AllFilled(entries, media, tags, fields)
    ensures StableSort(ById(instances), InventoryBefore) == InventoryItems(rows)
  {
    hide SortedNames, ByName, Picks, Entry, FieldMap;
    forall id | id in instances ensures instances[id] == ItemOf(rows, id) {
      assert I.KeysOf(media, id) == Picks(rows, MediaAt(id));
      assert I.KeysOf(tags, id) == Picks(rows, TagAt(id));
      assert I.FieldsOf(fields, id) == FieldMap(rows, id);
    }
    assert instances == ItemMap(rows);
  }

  function WithMedia(item: InventoryItem, keys: set<string>): InventoryItem { item.(mediaKeys := SortedNames(keys)) }

  function WithTags(item: InventoryItem, keys: set<string>): InventoryItem { item.(tagKeys := SortedNames(keys)) }

  function WithFields(item: InventoryItem, fields: map<string, FieldItem>): InventoryItem {
    item.(fields := ByName(fields))
  }

  lemma KeysEnumerated(keys: set<Uuid>)
    ensures Enumerates(SortedIds(keys), keys)
  {
  }

  /** Every entry with what is given under its key. */
  function AllMedia(entries: map<Uuid, InventoryItem>, media: map<Uuid, set<string>>): map<Uuid, InventoryItem> {
    map n | n in entries :: WithMedia(entries[n], I.KeysOf(media, n))
  }

  predicate NoMedia(entries: map<Uuid, InventoryItem>) {
    forall n :: n in entries ==> entries[n].mediaKeys == []
  }

  lemma AbsentMedia(entries: map<Uuid, InventoryItem>, media: map<Uuid, set<string>>)
    requires NoMedia(entries)
    ensures RestAgrees(entries, AllMedia(entries, media), media.Keys)
  {
    NothingNamed<FieldItem>();
    hide SortedNames;
  }

  /** An entry takes what is given under its key. */
  function PutMedia(entries: map<Uuid, InventoryItem>, media: map<Uuid, set<string>>, key: Uuid)
    : map<Uuid, InventoryItem>
  {
    if key in entries && key in media then entries[key := WithMedia(entries[key], media[key])] else entries
  }

  lemma PutMediaStep(filled: map<Uuid, InventoryItem>, entries: map<Uuid, InventoryItem>,
                     media: map<Uuid, set<string>>, order: seq<Uuid>, i: nat)
    requires FilledUpTo(filled, entries, AllMedia(entries, media), order, i)
    requires i < |order| && Enumerates(order, media.Keys)
    ensures FilledUpTo(PutMedia(filled, media, order[i]), entries, AllMedia(entries, media), order, i + 1)
  {
    assert order[i] in order;
    FillStep(filled, entries, AllMedia(entries, media), order, i);
    hide FilledUpTo, SortedNames;
  }

  /** Every entry with what is given under its key. */
  function AllTags(entries: map<Uuid, InventoryItem>, tags: map<Uuid, set<string>>): map<Uuid, InventoryItem> {
    map n | n in entries :: WithTags(entries[n], I.KeysOf(tags, n))
  }

  predicate NoTags(entries: map<Uuid, InventoryItem>) {
    forall n :: n in entries ==> entries[n].tagKeys == []
  }

  lemma AbsentTags(entries: map<Uuid, InventoryItem>, tags: map<Uuid, set<string>>)
    requires NoTags(entries)
    ensures RestAgrees(entries, AllTags(entries, tags), tags.Keys)
  {
    NothingNamed<FieldItem>();
    hide SortedNames;
  }

  /** An entry takes what is given under its key. */
  function PutTags(entries: map<Uuid, InventoryItem>, tags: map<Uuid, set<string>>, key: Uuid)
    : map<Uuid, InventoryItem>
  {
    if key in entries && key in tags then entries[key := WithTags(entries[key], tags[key])] else entries
  }

  lemma PutTagsStep(filled: map<Uuid, InventoryItem>, entries: map<Uuid, InventoryItem>,
                     tags: map<Uuid, set<string>>, order: seq<Uuid>, i: nat)
    requires FilledUpTo(filled, entries, AllTags(entries, tags), order, i)
    requires i < |order| && Enumerates(order, tags.Keys)
    ensures FilledUpTo(PutTags(filled, tags, order[i]), entries, AllTags(entries, tags), order, i + 1)
  {
    assert order[i] in order;
    FillStep(filled, entries, AllTags(entries, tags), order, i);
    hide FilledUpTo, SortedNames;
  }

  /** Every entry with what is given under its key. */
  function AllFields(entries: map<Uuid, InventoryItem>, fields: map<Uuid, map<string, FieldItem>>)
    : map<Uuid, InventoryItem>
  {
    map n | n in entries :: WithFields(entries[n], I.FieldsOf(fields, n))
  }

  predicate NoFields(entries: map<Uuid, InventoryItem>) {
    forall n :: n in entries ==> entries[n].fields == []
  }

  lemma AbsentFields(entries: map<Uuid, InventoryItem>, fields: map<Uuid, map<string, FieldItem>>)
    requires NoFields(entries)
    ensures RestAgrees(entries, AllFields(entries, fields), fields.Keys)
  {
    NothingNamed<FieldItem>();
    hide ByName;
  }

  /** An entry takes what is given under its key. */
  function PutFields(entries: map<Uuid, InventoryItem>, fields: map<Uuid, map<string, FieldItem>>, key: Uuid)
    : map<Uuid, InventoryItem>
  {
    if key in entries && key in fields then entries[key := WithFields(entries[key], fields[key])] else entries
  }

  lemma PutFieldsStep(filled: map<Uuid, InventoryItem>, entries: map<Uuid, InventoryItem>,
                     fields: map<Uuid, map<string, FieldItem>>, order: seq<Uuid>, i: nat)
    requires FilledUpTo(filled, entries, AllFields(entries, fields), order, i)
    requires i < |order| && Enumerates(order, fields.Keys)
    ensures FilledUpTo(PutFields(filled, fields, order[i]), entries, AllFields(entries, fields), order, i + 1)
  {
    assert order[i] in order;
    FillStep(filled, entries, AllFields(entries, fields), order, i);
    hide FilledUpTo, ByName;
  }

  /** Every entry with its collections. */
  function AllFilled(entries: map<Uuid, InventoryItem>, media: map<Uuid, set<string>>,
                     tags: map<Uuid, set<string>>, fields: map<Uuid, map<string, FieldItem>>): map<Uuid, InventoryItem>
  {
    map n | n in entries :: Filled(entries[n], I.KeysOf(media, n), I.KeysOf(tags, n), I.FieldsOf(fields, n))
  }

  predicate AllBare(entries: map<Uuid, InventoryItem>) { forall n :: n in entries ==> Bare(entries[n]) }

  lemma FilledInTurn(entries: map<Uuid, InventoryItem>, media: map<Uuid, set<string>>,
                     tags: map<Uuid, set<string>>, fields: map<Uuid, map<string, FieldItem>>)
    requires AllBare(entries)
    ensures var a := AllMedia(entries, media);
      var b := AllTags(a, tags);
      NoMedia(entries) && NoTags(a) && NoFields(b) && AllFields(b, fields) == AllFilled(entries, media, tags, fields)
  {
    hide SortedNames, ByName, WithMedia, WithTags, WithFields, Filled, Bare;
    var a := AllMedia(entries, media);
    var b := AllTags(a, tags);
    forall n | n in entries
      ensures a[n].tagKeys == [] && b[n].fields == [] && entries[n].mediaKeys == []
      ensures AllFields(b, fields)[n] == AllFilled(entries, media, tags, fields)[n]
    {
      FilledOne(entries[n], I.KeysOf(media, n), I.KeysOf(tags, n), I.FieldsOf(fields, n));
    }
  }

  lemma FilledOne(item: InventoryItem, media: set<string>, tags: set<string>, fields: map<string, FieldItem>)
    requires Bare(item)
    ensures var a := WithMedia(item, media);
      var b := WithTags(a, tags);
      && item.mediaKeys == [] && a.tagKeys == [] && b.fields == []
      && WithFields(b, fields) == Filled(item, media, tags, fields)
  {
    hide SortedNames, ByName;
  }

  /** The three loops that move the collections into their instances. */
  method Assemble(entries: map<Uuid, InventoryItem>, media: map<Uuid, set<string>>, tags: map<Uuid, set<string>>,
                  fields: map<Uuid, map<string, FieldItem>>)
    returns (instances: map<Uuid, InventoryItem>)
    requires AllBare(entries)
    ensures instances == AllFilled(entries, media, tags, fields)
  {
    FilledInTurn(entries, media, tags, fields);
    hide *;
    instances := AssignMedia(entries, media);
    instances := AssignTags(instances, tags);
    instances := AssignFields(instances, fields);
  }

  method AssignMedia(entries: map<Uuid, InventoryItem>, media: map<Uuid, set<string>>)
    returns (instances: map<Uuid, InventoryItem>)
    requires NoMedia(entries)
    ensures instances == AllMedia(entries, media)
  {
    AbsentMedia(entries, media);
    hide *;
    var ids := SortedIds(media.Keys);
    KeysEnumerated(media.Keys);
    FillStart(entries, AllMedia(entries, media), ids, media.Keys);
    instances := entries;
    for i := 0 to |ids|
      invariant FilledUpTo(instances, entries, AllMedia(entries, media), ids, i)
    {
      PutMediaStep(instances, entries, media, ids, i);
      instances := PutMedia(instances, media, ids[i]);
    }
    FillEnd(instances, entries, AllMedia(entries, media), ids, media.Keys);
  }

  method AssignTags(entries: map<Uuid, InventoryItem>, tags: map<Uuid, set<string>>)
    returns (instances: map<Uuid, InventoryItem>)
    requires NoTags(entries)
    ensures instances == AllTags(entries, tags)
  {
    AbsentTags(entries, tags);
    hide *;
    var ids := SortedIds(tags.Keys);
    KeysEnumerated(tags.Keys);
    FillStart(entries, AllTags(entries, tags), ids, tags.Keys);
    instances := entries;
    for i := 0 to |ids|
      invariant FilledUpTo(instances, entries, AllTags(entries, tags), ids, i)
    {
      PutTagsStep(instances, entries, tags, ids, i);
      instances := PutTags(instances, tags, ids[i]);
    }
    FillEnd(instances, entries, AllTags(entries, tags), ids, tags.Keys);
  }

  method AssignFields(entries: map<Uuid, InventoryItem>, fields: map<Uuid, map<string, FieldItem>>)
    returns (instances: map<Uuid, InventoryItem>)
    requires NoFields(entries)
    ensures instances == AllFields(entries, fields)
  {
    AbsentFields(entries, fields);
    hide *;
    var ids := SortedIds(fields.Keys);
    KeysEnumerated(fields.Keys);
    FillStart(entries, AllFields(entries, fields), ids, fields.Keys);
    instances := entries;
    for i := 0 to |ids|
      invariant FilledUpTo(instances, entries, AllFields(entries, fields), ids, i)
    {
      PutFieldsStep(instances, entries, fields, ids, i);
      instances := PutFields(instances, fields, ids[i]);
    }
    FillEnd(instances, entries, AllFields(entries, fields), ids, fields.Keys);
  }
}
