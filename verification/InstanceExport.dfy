/** Backup export of indexer instances: join rows folded by display name.

    The `Build..` method is the loop; `InstanceItems` says what it computes without it. */
module InstanceExport {
  import opened Basics
  import opened Ordering
  import opened RowFolds
  import opened Filling
  import opened IndexerRecords
  import opened SecretTable

  // ----- The columns the export reads -----

  function ColumnsFor(name: string): InstanceRow -> Option<InstanceColumns> {
    (r: InstanceRow) => if r.displayName == name then Some(r.columns) else None
  }

  function RoutingNameFor(name: string): InstanceRow -> Option<string> {
    (r: InstanceRow) => if r.displayName == name then r.routingName else None
  }

  function RateLimitNameFor(name: string): InstanceRow -> Option<string> {
    (r: InstanceRow) => if r.displayName == name then r.rateLimitName else None
  }

  function RssEnabledFor(name: string): InstanceRow -> Option<bool> {
    (r: InstanceRow) => if r.displayName == name then r.rssEnabled else None
  }

  function RssIntervalFor(name: string): InstanceRow -> Option<int> {
    (r: InstanceRow) => if r.displayName == name then r.rssInterval else None
  }

  function MediaFor(name: string): InstanceRow -> Option<string> {
    (r: InstanceRow) => if r.displayName == name then r.mediaKey else None
  }

  function TagFor(name: string): InstanceRow -> Option<string> {
    (r: InstanceRow) => if r.displayName == name then r.tagKey else None
  }

  function FieldNameFor(name: string): InstanceRow -> Option<string> {
    (r: InstanceRow) => if r.displayName == name then r.fieldName else None
  }

  function FieldFor(name: string, field: string): InstanceRow -> Option<FieldItem> {
    (r: InstanceRow) =>
      if r.displayName == name && r.fieldName == Some(field) then Some(FieldOf(r, field)) else None
  }

  function FieldOf(r: InstanceRow, field: string): FieldItem {
    FieldItem(field, if r.fieldType.Some? then r.fieldType.value else "", r.value, r.secretId)
  }

  /** The secret a row types: both secret columns and the key column are present. */
  function SecretOf(): InstanceRow -> Option<SecretRef> {
    (r: InstanceRow) =>
      if r.fieldName.Some? && r.secretId.Some? && r.secretType.Some?
      then Some(SecretRef(r.secretId.value, r.secretType.value)) else None
  }

  // ----- What the export means -----

  function NameOf(): InstanceRow -> Option<string> {
    (r: InstanceRow) => Some(r.displayName)
  }

  function InstanceNames(rows: seq<InstanceRow>): set<string> {
    Picks(rows, NameOf())
  }

  /** Scalar columns of the instance `name`, collections still empty. */
  function Entry(rows: seq<InstanceRow>, name: string): InstanceItem
    requires name in InstanceNames(rows)
  {
    HasColumns(rows, name);
    InstanceItem(
      name, FirstSome(rows, ColumnsFor(name)).value,
      FirstSome(rows, RoutingNameFor(name)), FirstSome(rows, RateLimitNameFor(name)),
      FirstSome(rows, RssEnabledFor(name)), FirstSome(rows, RssIntervalFor(name)),
      [], [], [])
  }

  lemma HasColumns(rows: seq<InstanceRow>, name: string)
    requires name in InstanceNames(rows)
    ensures FirstSome(rows, ColumnsFor(name)).Some?
  {
    var r := PickedFrom(rows, NameOf(), name);
    Seen(rows, ColumnsFor(name), r);
  }

  /** Field by field, the first row that mentions the field. */
  function FieldMap(rows: seq<InstanceRow>, name: string): map<string, FieldItem> {
    map f | f in Picks(rows, FieldNameFor(name)) :: HasField(rows, name, f); FirstSome(rows, FieldFor(name, f)).value
  }

  lemma HasField(rows: seq<InstanceRow>, name: string, field: string)
    requires field in Picks(rows, FieldNameFor(name))
    ensures FirstSome(rows, FieldFor(name, field)).Some? && LastSome(rows, FieldFor(name, field)).Some?
  {
    var r := PickedFrom(rows, FieldNameFor(name), field);
    Seen(rows, FieldFor(name, field), r);
  }

  predicate Bare(item: InstanceItem) {
    item.mediaKeys == [] && item.tagKeys == [] && item.fields == []
  }

  function Filled(entry: InstanceItem, media: set<string>, tags: set<string>, fields: map<string, FieldItem>)
    : InstanceItem
  {
    entry.(mediaKeys := SortedNames(media), tagKeys := SortedNames(tags), fields := ByName(fields))
  }

  /** The whole exported document of the instance `name`. */
  function ItemOf(rows: seq<InstanceRow>, name: string): InstanceItem
    requires name in InstanceNames(rows)
  {
    Filled(Entry(rows, name), Picks(rows, MediaFor(name)), Picks(rows, TagFor(name)), FieldMap(rows, name))
  }

  lemma ItemNamed(rows: seq<InstanceRow>, name: string)
    requires name in InstanceNames(rows)
    ensures ItemOf(rows, name).displayName == name
  {
  }

  function ItemMap(rows: seq<InstanceRow>): map<string, InstanceItem> {
    map n | n in InstanceNames(rows) :: ItemOf(rows, n)
  }

  function InstanceItems(rows: seq<InstanceRow>): seq<InstanceItem> {
    ByName(ItemMap(rows))
  }

  // ----- The accumulators of the loop -----

  function MergeOptions(entry: InstanceItem, row: InstanceRow): InstanceItem {
    entry.(
      routingName := entry.routingName.Or(row.routingName),
      rateLimitName := entry.rateLimitName.Or(row.rateLimitName),
      rssEnabled := entry.rssEnabled.Or(row.rssEnabled),
      rssInterval := entry.rssInterval.Or(row.rssInterval))
  }

  /** `update_backup_instance_entry` */
  function UpdateEntry(instances: map<string, InstanceItem>, row: InstanceRow): map<string, InstanceItem> {
    var entry :=
      if row.displayName in instances then instances[row.displayName]
      else InstanceItem(row.displayName, row.columns, row.routingName, row.rateLimitName,
                        row.rssEnabled, row.rssInterval, [], [], []);
    instances[row.displayName := MergeOptions(entry, row)]
  }

  /** `insert_backup_media_domain` and `insert_backup_tag` */
  function InsertKey<K(==)>(keys: map<K, set<string>>, name: K, key: Option<string>): map<K, set<string>> {
    if key.None? then keys
    else keys[name := (if name in keys then keys[name] else {}) + {key.value}]
  }

  /** `insert_backup_field` */
  function InsertField(fields: map<string, map<string, FieldItem>>, row: InstanceRow)
    : map<string, map<string, FieldItem>>
  {
    if row.fieldName.None? then fields else
      var known := if row.displayName in fields then fields[row.displayName] else map[];
      var f := row.fieldName.value;
      fields[row.displayName := if f in known then known else known[f := FieldOf(row, f)]]
  }

  // ----- One more row -----

  predicate EntriesAre(instances: map<string, InstanceItem>, rows: seq<InstanceRow>) {
    && instances.Keys == InstanceNames(rows)
    && forall n :: n in instances ==> instances[n] == Entry(rows, n)
  }

  /** A collection that no row fills has no accumulator. */
  function KeysOf<K(==)>(keys: map<K, set<string>>, name: K): set<string> {
    if name in keys then keys[name] else {}
  }

  function FieldsOf<K(==)>(fields: map<K, map<string, FieldItem>>, name: K): map<string, FieldItem> {
    if name in fields then fields[name] else map[]
  }

  lemma Unnamed<T>(rows: seq<InstanceRow>, name: string, pick: InstanceRow -> Option<T>)
    requires name !in InstanceNames(rows)
    requires forall r: InstanceRow :: r.displayName != name ==> pick(r).None?
    ensures FirstSome(rows, pick).None? && Picks(rows, pick) == {}
  {
    forall r | r in rows ensures pick(r).None? {
      if r.displayName == name { Seen(rows, NameOf(), r); }
    }
    NothingPicked(rows, pick);
  }

  lemma EntrySnoc(rows: seq<InstanceRow>, row: InstanceRow, name: string)
    requires name in InstanceNames(rows + [row])
    ensures name != row.displayName ==> name in InstanceNames(rows) && Entry(rows + [row], name) == Entry(rows, name)
    ensures name == row.displayName ==>
      var entry := if name in InstanceNames(rows) then Entry(rows, name)
                   else InstanceItem(name, row.columns, None, None, None, None, [], [], []);
      Entry(rows + [row], name) == MergeOptions(entry, row)
  {
    Snoc(rows, row, NameOf());
    Snoc(rows, row, ColumnsFor(name));
    Snoc(rows, row, RoutingNameFor(name));
    Snoc(rows, row, RateLimitNameFor(name));
    Snoc(rows, row, RssEnabledFor(name));
    Snoc(rows, row, RssIntervalFor(name));
    if name in InstanceNames(rows) {
      HasColumns(rows, name);
    } else {
      Unnamed(rows, name, ColumnsFor(name));
      Unnamed(rows, name, RoutingNameFor(name));
      Unnamed(rows, name, RateLimitNameFor(name));
      Unnamed(rows, name, RssEnabledFor(name));
      Unnamed(rows, name, RssIntervalFor(name));
    }
  }

  lemma EntriesSnoc(instances: map<string, InstanceItem>, rows: seq<InstanceRow>, row: InstanceRow)
    requires EntriesAre(instances, rows)
    ensures EntriesAre(UpdateEntry(instances, row), rows + [row])
  {
    hide Picks, Entry;
    Snoc(rows, row, NameOf());
    forall n | n in InstanceNames(rows + [row])
      ensures UpdateEntry(instances, row)[n] == Entry(rows + [row], n)
    {
      EntrySnoc(rows, row, n);
    }
  }

  lemma FieldMapSnoc(rows: seq<InstanceRow>, row: InstanceRow, name: string)
    ensures FieldMap(rows + [row], name) ==
      if row.displayName == name && row.fieldName.Some? && row.fieldName.value !in FieldMap(rows, name)
      then FieldMap(rows, name)[row.fieldName.value := FieldOf(row, row.fieldName.value)]
      else FieldMap(rows, name)
  {
    Snoc(rows, row, FieldNameFor(name));
    forall f | f in Picks(rows + [row], FieldNameFor(name))
      ensures FieldMap(rows + [row], name)[f] ==
        if f in FieldMap(rows, name) then FieldMap(rows, name)[f] else FieldOf(row, f)
    {
      Snoc(rows, row, FieldFor(name, f));
      if f in Picks(rows, FieldNameFor(name)) {
        HasField(rows, name, f);
      } else {
        forall r | r in rows ensures FieldFor(name, f)(r).None? {
          if FieldNameFor(name)(r) == Some(f) { Seen(rows, FieldNameFor(name), r); }
        }
        NothingPicked(rows, FieldFor(name, f));
      }
    }
  }

  ghost predicate MediaAre(keys: map<string, set<string>>, rows: seq<InstanceRow>) {
    forall n :: KeysOf(keys, n) == Picks(rows, MediaFor(n))
  }

  ghost predicate TagsAre(keys: map<string, set<string>>, rows: seq<InstanceRow>) {
    forall n :: KeysOf(keys, n) == Picks(rows, TagFor(n))
  }

  ghost predicate FieldsAre(fields: map<string, map<string, FieldItem>>, rows: seq<InstanceRow>) {
    forall n :: FieldsOf(fields, n) == FieldMap(rows, n)
  }

  lemma MediaSnoc(keys: map<string, set<string>>, rows: seq<InstanceRow>, row: InstanceRow)
    requires MediaAre(keys, rows)
    ensures MediaAre(InsertKey(keys, row.displayName, row.mediaKey), rows + [row])
  {
    var more := InsertKey(keys, row.displayName, row.mediaKey);
    forall n ensures KeysOf(more, n) == Picks(rows + [row], MediaFor(n)) {
      Snoc(rows, row, MediaFor(n));
      assert KeysOf(keys, n) == Picks(rows, MediaFor(n));
    }
  }

  lemma TagSnoc(keys: map<string, set<string>>, rows: seq<InstanceRow>, row: InstanceRow)
    requires TagsAre(keys, rows)
    ensures TagsAre(InsertKey(keys, row.displayName, row.tagKey), rows + [row])
  {
    var more := InsertKey(keys, row.displayName, row.tagKey);
    forall n ensures KeysOf(more, n) == Picks(rows + [row], TagFor(n)) {
      Snoc(rows, row, TagFor(n));
      assert KeysOf(keys, n) == Picks(rows, TagFor(n));
    }
  }

  lemma FieldsSnoc(fields: map<string, map<string, FieldItem>>, rows: seq<InstanceRow>, row: InstanceRow)
    requires FieldsAre(fields, rows)
    ensures FieldsAre(InsertField(fields, row), rows + [row])
  {
    var more := InsertField(fields, row);
    forall n ensures FieldsOf(more, n) == FieldMap(rows + [row], n) {
      FieldMapSnoc(rows, row, n);
      assert FieldsOf(fields, n) == FieldMap(rows, n);
    }
  }

  lemma AssembledItems(rows: seq<InstanceRow>, entries: map<string, InstanceItem>, media: map<string, set<string>>,
                       tags: map<string, set<string>>, fields: map<string, map<string, FieldItem>>,
                       instances: map<string, InstanceItem>)
    requires EntriesAre(entries, rows) && MediaAre(media, rows) && TagsAre(tags, rows) && FieldsAre(fields, rows)
    requires instances == AllFilled(entries, media, tags, fields)
    ensures ByName(instances) == InstanceItems(rows)
  {
    hide SortedNames, ByName, Picks, Entry, FieldMap;
    forall n | n in instances ensures instances[n] == ItemOf(rows, n) {
      assert KeysOf(media, n) == Picks(rows, MediaFor(n));
      assert KeysOf(tags, n) == Picks(rows, TagFor(n));
      assert FieldsOf(fields, n) == FieldMap(rows, n);
    }
    assert instances == ItemMap(rows);
  }

  lemma NothingYet()
    ensures EntriesAre(map[], []) && MediaAre(map[], []) && TagsAre(map[], []) && FieldsAre(map[], [])
  {
  }

  lemma EntriesBare(entries: map<string, InstanceItem>, rows: seq<InstanceRow>)
    requires EntriesAre(entries, rows)
    ensures AllBare(entries)
  {
  }

  // ----- The loop -----

  /** `build_backup_indexer_instances`: `refs'` is the secret table passed by `&mut`. */
  method BuildBackupIndexerInstances(rows: seq<InstanceRow>, refs: Secrets)
    returns (items: seq<InstanceItem>, refs': Secrets)
    ensures items == InstanceItems(rows)
    ensures refs' == Collect(refs, rows, SecretOf())
  {
    var instances: map<string, InstanceItem> := map[];
    var mediaDomainKeys: map<string, set<string>> := map[];
    var tagKeys: map<string, set<string>> := map[];
    var fields: map<string, map<string, FieldItem>> := map[];
    refs' := refs;
    hide *;
    NothingYet();
    CollectNone(refs, SecretOf());
    assert rows[..0] == [];
    for i := 0 to |rows|
      invariant EntriesAre(instances, rows[..i])
      invariant MediaAre(mediaDomainKeys, rows[..i])
      invariant TagsAre(tagKeys, rows[..i])
      invariant FieldsAre(fields, rows[..i])
      invariant refs' == Collect(refs, rows[..i], SecretOf())
    {
      var row := rows[i];
      ghost var before := rows[..i];
      assert rows[..i + 1] == before + [row];
      EntriesSnoc(instances, before, row);
      MediaSnoc(mediaDomainKeys, before, row);
      TagSnoc(tagKeys, before, row);
      FieldsSnoc(fields, before, row);
      CollectSnoc(refs, before, row, SecretOf());
      instances := UpdateEntry(instances, row);
      mediaDomainKeys := InsertKey(mediaDomainKeys, row.displayName, row.mediaKey);
      tagKeys := InsertKey(tagKeys, row.displayName, row.tagKey);
      fields := InsertField(fields, row);
      refs' := Insert(refs', SecretOf()(row));
    }
    assert rows[..|rows|] == rows;
    EntriesBare(instances, rows);
    var complete := Assemble(instances, mediaDomainKeys, tagKeys, fields);
    AssembledItems(rows, instances, mediaDomainKeys, tagKeys, fields, complete);
    items := ByName(complete);
  }

  function WithMedia(item: InstanceItem, keys: set<string>): InstanceItem { item.(mediaKeys := SortedNames(keys)) }

  function WithTags(item: InstanceItem, keys: set<string>): InstanceItem { item.(tagKeys := SortedNames(keys)) }

  function WithFields(item: InstanceItem, fields: map<string, FieldItem>): InstanceItem {
    item.(fields := ByName(fields))
  }

  lemma KeysEnumerated(keys: set<string>)
    ensures Enumerates(SortedNames(keys), keys)
  {
  }

  /** Every entry with what is given under its key. */
  function AllMedia(instances: map<string, InstanceItem>, keys: map<string, set<string>>): map<string, InstanceItem> {
    map n | n in instances :: WithMedia(instances[n], KeysOf(keys, n))
  }

  predicate NoMedia(instances: map<string, InstanceItem>) {
    forall n :: n in instances ==> instances[n].mediaKeys == []
  }

  lemma AbsentMedia(instances: map<string, InstanceItem>, keys: map<string, set<string>>)
    requires NoMedia(instances)
    ensures RestAgrees(instances, AllMedia(instances, keys), keys.Keys)
  {
    NothingNamed<FieldItem>();
    hide SortedNames;
  }

  /** An entry takes what is given under its key. */
  function PutMedia(instances: map<string, InstanceItem>, keys: map<string, set<string>>, key: string)
    : map<string, InstanceItem>
  {
    if key in instances && key in keys then instances[key := WithMedia(instances[key], keys[key])] else instances
  }

  lemma PutMediaStep(filled: map<string, InstanceItem>, instances: map<string, InstanceItem>,
                     keys: map<string, set<string>>, order: seq<string>, i: nat)
    requires FilledUpTo(filled, instances, AllMedia(instances, keys), order, i)
    requires i < |order| && Enumerates(order, keys.Keys)
    ensures FilledUpTo(PutMedia(filled, keys, order[i]), instances, AllMedia(instances, keys), order, i + 1)
  {
    assert order[i] in order;
    FillStep(filled, instances, AllMedia(instances, keys), order, i);
    hide FilledUpTo, SortedNames;
  }

  /** Every entry with what is given under its key. */
  function AllTags(instances: map<string, InstanceItem>, keys: map<string, set<string>>): map<string, InstanceItem> {
    map n | n in instances :: WithTags(instances[n], KeysOf(keys, n))
  }

  predicate NoTags(instances: map<string, InstanceItem>) {
    forall n :: n in instances ==> instances[n].tagKeys == []
  }

  lemma AbsentTags(instances: map<string, InstanceItem>, keys: map<string, set<string>>)
    requires NoTags(instances)
    ensures RestAgrees(instances, AllTags(instances, keys), keys.Keys)
  {
    NothingNamed<FieldItem>();
    hide SortedNames;
  }

  /** An entry takes what is given under its key. */
  function PutTags(instances: map<string, InstanceItem>, keys: map<string, set<string>>, key: string)
    : map<string, InstanceItem>
  {
    if key in instances && key in keys then instances[key := WithTags(instances[key], keys[key])] else instances
  }

  lemma PutTagsStep(filled: map<string, InstanceItem>, instances: map<string, InstanceItem>,
                     keys: map<string, set<string>>, order: seq<string>, i: nat)
    requires FilledUpTo(filled, instances, AllTags(instances, keys), order, i)
    requires i < |order| && Enumerates(order, keys.Keys)
    ensures FilledUpTo(PutTags(filled, keys, order[i]), instances, AllTags(instances, keys), order, i + 1)
  {
    assert order[i] in order;
    FillStep(filled, instances, AllTags(instances, keys), order, i);
    hide FilledUpTo, SortedNames;
  }

  /** Every entry with what is given under its key. */
  function AllFields(instances: map<string, InstanceItem>, fields: map<string, map<string, FieldItem>>)
    : map<string, InstanceItem>
  {
    map n | n in instances :: WithFields(instances[n], FieldsOf(fields, n))
  }

  predicate NoFields(instances: map<string, InstanceItem>) {
    forall n :: n in instances ==> instances[n].fields == []
  }

  lemma AbsentFields(instances: map<string, InstanceItem>, fields: map<string, map<string, FieldItem>>)
    requires NoFields(instances)
    ensures RestAgrees(instances, AllFields(instances, fields), fields.Keys)
  {
    NothingNamed<FieldItem>();
    hide ByName;
  }

  /** An entry takes what is given under its key. */
  function PutFields(instances: map<string, InstanceItem>, fields: map<string, map<string, FieldItem>>, key: string)
    : map<string, InstanceItem>
  {
    if key in instances && key in fields then instances[key := WithFields(instances[key], fields[key])] else instances
  }

  lemma PutFieldsStep(filled: map<string, InstanceItem>, instances: map<string, InstanceItem>,
                     fields: map<string, map<string, FieldItem>>, order: seq<string>, i: nat)
    requires FilledUpTo(filled, instances, AllFields(instances, fields), order, i)
    requires i < |order| && Enumerates(order, fields.Keys)
    ensures FilledUpTo(PutFields(filled, fields, order[i]), instances, AllFields(instances, fields), order, i + 1)
  {
    assert order[i] in order;
    FillStep(filled, instances, AllFields(instances, fields), order, i);
    hide FilledUpTo, ByName;
  }

  /** Every entry with its collections. */
  function AllFilled(entries: map<string, InstanceItem>, media: map<string, set<string>>,
                     tags: map<string, set<string>>, fields: map<string, map<string, FieldItem>>)
    : map<string, InstanceItem>
  {
    map n | n in entries :: Filled(entries[n], KeysOf(media, n), KeysOf(tags, n), FieldsOf(fields, n))
  }

  predicate AllBare(entries: map<string, InstanceItem>) { forall n :: n in entries ==> Bare(entries[n]) }

  lemma FilledInTurn(entries: map<string, InstanceItem>, media: map<string, set<string>>,
                     tags: map<string, set<string>>, fields: map<string, map<string, FieldItem>>)
    requires AllBare(entries)
    ensures var a := AllMedia(entries, media);
      var b := AllTags(a, tags);
      NoMedia(entries) && NoTags(a) && NoFields(b) && AllFields(b, fields) == AllFilled(entries, media, tags, fields)
  {
    hide SortedNames, ByName, WithMedia, WithTags, WithFields, Filled, Bare;
    var a := AllMedia(entries, media);
    var b := AllTags(a, tags);
    forall n | n in entries
      ensures a[n].tagKeys == [] && b[n].fields == [] && entries[n].mediaKeys == []
      ensures AllFields(b, fields)[n] == AllFilled(entries, media, tags, fields)[n]
    {
      FilledOne(entries[n], KeysOf(media, n), KeysOf(tags, n), FieldsOf(fields, n));
    }
  }

  lemma FilledOne(item: InstanceItem, media: set<string>, tags: set<string>, fields: map<string, FieldItem>)
    requires Bare(item)
    ensures var a := WithMedia(item, media);
      var b := WithTags(a, tags);
      && item.mediaKeys == [] && a.tagKeys == [] && b.fields == []
      && WithFields(b, fields) == Filled(item, media, tags, fields)
  {
    hide SortedNames, ByName;
  }

  /** The three loops that move the collections into their instances. */
  method Assemble(entries: map<string, InstanceItem>, media: map<string, set<string>>, tags: map<string, set<string>>,
                  fields: map<string, map<string, FieldItem>>)
    returns (instances: map<string, InstanceItem>)
    requires AllBare(entries)
    ensures instances == AllFilled(entries, media, tags, fields)
  {
    FilledInTurn(entries, media, tags, fields);
    hide *;
    instances := AssignMedia(entries, media);
    instances := AssignTags(instances, tags);
    instances := AssignFields(instances, fields);
  }

  /** `for (display_name, media_domain_set) in media_domain_keys` */
  method AssignMedia(instances: map<string, InstanceItem>, keys: map<string, set<string>>)
    returns (filled: map<string, InstanceItem>)
    requires NoMedia(instances)
    ensures filled == AllMedia(instances, keys)
  {
    AbsentMedia(instances, keys);
    hide *;
    var names := SortedNames(keys.Keys);
    KeysEnumerated(keys.Keys);
    FillStart(instances, AllMedia(instances, keys), names, keys.Keys);
    filled := instances;
    for i := 0 to |names|
      invariant FilledUpTo(filled, instances, AllMedia(instances, keys), names, i)
    {
      PutMediaStep(filled, instances, keys, names, i);
      filled := PutMedia(filled, keys, names[i]);
    }
    FillEnd(filled, instances, AllMedia(instances, keys), names, keys.Keys);
  }

  /** `for (display_name, tag_set) in tag_keys` */
  method AssignTags(instances: map<string, InstanceItem>, keys: map<string, set<string>>)
    returns (filled: map<string, InstanceItem>)
    requires NoTags(instances)
    ensures filled == AllTags(instances, keys)
  {
    AbsentTags(instances, keys);
    hide *;
    var names := SortedNames(keys.Keys);
    KeysEnumerated(keys.Keys);
    FillStart(instances, AllTags(instances, keys), names, keys.Keys);
    filled := instances;
    for i := 0 to |names|
      invariant FilledUpTo(filled, instances, AllTags(instances, keys), names, i)
    {
      PutTagsStep(filled, instances, keys, names, i);
      filled := PutTags(filled, keys, names[i]);
    }
    FillEnd(filled, instances, AllTags(instances, keys), names, keys.Keys);
  }

  /** `for (display_name, field_map) in fields` */
  method AssignFields(instances: map<string, InstanceItem>, fields: map<string, map<string, FieldItem>>)
    returns (filled: map<string, InstanceItem>)
    requires NoFields(instances)
    ensures filled == AllFields(instances, fields)
  {
    AbsentFields(instances, fields);
    hide *;
    var names := SortedNames(fields.Keys);
    KeysEnumerated(fields.Keys);
    FillStart(instances, AllFields(instances, fields), names, fields.Keys);
    filled := instances;
    for i := 0 to |names|
      invariant FilledUpTo(filled, instances, AllFields(instances, fields), names, i)
    {
      PutFieldsStep(filled, instances, fields, names, i);
      filled := PutFields(filled, fields, names[i]);
    }
    FillEnd(filled, instances, AllFields(instances, fields), names, fields.Keys);
  }
}
