/** The event-sourced map of torrent statuses, updated in place, and its sorted listing. */
module Catalog {
  import opened Basics
  import opened Ordering
  import opened TorrentEvents

  type Entries = map<Uuid, TorrentStatus>

  function Find(entries: Entries, id: Uuid): Option<TorrentStatus> {
    if id in entries then Some(entries[id]) else None
  }

  /** The event changes its own torrent's entry as `After` says and no other. */
  ghost predicate StepsTo(entries: Entries, o: Observed, next: Entries) {
    forall id: Uuid :: Find(next, id) ==
      if EventTorrentId(o.event) == Some(id) then After(Find(entries, id), o) else Find(entries, id)
  }

  /** Every entry is stored under its own id. */
  ghost predicate Keyed(entries: Entries) {
    forall id :: id in entries ==> entries[id].id == id
  }

  lemma StepsKeepKeys(entries: Entries, o: Observed, next: Entries)
    requires Keyed(entries) && StepsTo(entries, o, next)
    ensures Keyed(next)
  {
    forall id | id in next ensures next[id].id == id {
      assert Find(next, id) == Some(next[id]);
    }
  }

  // ----- The listing order -----

  datatype Comparison = Less | Equal | Greater

  function CompareIds(a: Uuid, b: Uuid): Comparison {
    if a < b then Less else if a == b then Equal else Greater
  }

  function CompareNames(a: string, b: string): Comparison {
    if StrLess(a, b) then Less else if a == b then Equal else Greater
  }

  /** `compare_status`: named entries first, by name and then id; unnamed ones by id. */
  function CompareStatus(a: TorrentStatus, b: TorrentStatus): Comparison {
    match (a.name, b.name)
    case (Some(x), Some(y)) => if CompareNames(x, y).Equal? then CompareIds(a.id, b.id) else CompareNames(x, y)
    case (Some(_), None) => Less
    case (None, Some(_)) => Greater
    case (None, None) => CompareIds(a.id, b.id)
  }

  predicate StatusBefore(a: TorrentStatus, b: TorrentStatus) { CompareStatus(a, b).Less? }

  lemma CompareNamesHolds(a: string, b: string)
    ensures CompareNames(a, b).Less? <==> StrLess(a, b)
    ensures CompareNames(a, b).Greater? <==> StrLess(b, a)
  {
    StrAsymmetric();
    if a != b { StrLessConnected(a, b); } else { StrLessIrreflexive(a); }
  }

  /** Swapping the operands mirrors the result, and only equal ids compare equal. */
  lemma CompareStatusMirrors(a: TorrentStatus, b: TorrentStatus)
    ensures CompareStatus(a, b).Less? <==> CompareStatus(b, a).Greater?
    ensures CompareStatus(a, b).Equal? <==> a.id == b.id && a.name == b.name
  {
    if a.name.Some? && b.name.Some? {
      CompareNamesHolds(a.name.value, b.name.value);
      CompareNamesHolds(b.name.value, a.name.value);
    }
  }

  lemma CompareStatusTransitive(a: TorrentStatus, b: TorrentStatus, c: TorrentStatus)
    requires !CompareStatus(a, b).Greater? && !CompareStatus(b, c).Greater?
    ensures !CompareStatus(a, c).Greater?
    ensures StatusBefore(a, b) || StatusBefore(b, c) ==> StatusBefore(a, c)
  {
    if a.name.Some? && b.name.Some? && c.name.Some? {
      var x, y, z := a.name.value, b.name.value, c.name.value;
      CompareNamesHolds(x, y);
      CompareNamesHolds(y, z);
      CompareNamesHolds(x, z);
      if StrLess(x, y) && StrLess(y, z) { StrLessTransitive(x, y, z); }
    }
  }

  lemma StatusBeforeAsymmetric()
    ensures Asymmetric(StatusBefore)
  {
    forall a, b | StatusBefore(a, b) ensures !StatusBefore(b, a) { CompareStatusMirrors(a, b); }
  }

  /** `items` lists every entry once, strictly sorted. */
  ghost predicate IsListing(entries: Entries, items: seq<TorrentStatus>) {
    && AscendingBy(items, StatusBefore)
    && forall s :: s in items <==> s in entries.Values
  }

  /** Whatever order the hash map is read in, there is one listing. */
  lemma ListingUnique(entries: Entries, items: seq<TorrentStatus>, others: seq<TorrentStatus>)
    requires IsListing(entries, items) && IsListing(entries, others)
    ensures items == others
  {
    StatusBeforeAsymmetric();
    AscendingUnique(items, others, StatusBefore);
  }

  /** In a listing, named torrents come before unnamed ones; names ascend by code point, and ids break ties. */
  lemma ListedInOrder(entries: Entries, items: seq<TorrentStatus>, i: nat, j: nat)
    requires IsListing(entries, items) && i < j < |items|
    ensures var a, b := items[i], items[j];
      if a.name.None? then b.name.None? && a.id < b.id
      else b.name.None? || (a.name == b.name && a.id < b.id)
           || exists k: nat :: ComesFirstAt(a.name.value, b.name.value, k)
  {
    var a, b := items[i], items[j];
    assert StatusBefore(a, b);
    if a.name.Some? && b.name.Some? {
      CompareNamesHolds(a.name.value, b.name.value);
      StrLessExactly(a.name.value, b.name.value);
    }
  }

  ghost predicate DistinctIds(values: seq<TorrentStatus>) {
    forall i, j :: 0 <= i < j < |values| ==> values[i].id != values[j].id
  }

  lemma DistinctComparable(values: seq<TorrentStatus>)
    requires DistinctIds(values)
    ensures Comparable(values, StatusBefore)
  {
    forall i, j | 0 <= i < j < |values|
      ensures StatusBefore(values[i], values[j]) || StatusBefore(values[j], values[i])
    {
      CompareStatusMirrors(values[i], values[j]);
      CompareStatusMirrors(values[j], values[i]);
    }
    forall i, j, k | 0 <= i < |values| && 0 <= j < |values| && 0 <= k < |values|
        && StatusBefore(values[i], values[j]) && StatusBefore(values[j], values[k])
      ensures StatusBefore(values[i], values[k])
    {
      CompareStatusTransitive(values[i], values[j], values[k]);
    }
  }

  lemma SortedListing(entries: Entries, values: seq<TorrentStatus>)
    requires DistinctIds(values) && forall s :: s in values <==> s in entries.Values
    ensures IsListing(entries, StableSort(values, StatusBefore))
  {
    DistinctComparable(values);
    StableSortAscending(values, StatusBefore);
    var items := StableSort(values, StatusBefore);
    forall s ensures s in items <==> s in entries.Values {
      assert s in items <==> s in multiset(items);
      assert s in values <==> s in multiset(values);
    }
  }

  /** An entry, blank if it was absent, with the given fields replaced. */
  lemma MetadataStep(entries: Entries, o: Observed, ensured: TorrentStatus, next: Entries)
    requires o.event.MetadataUpdated?
    requires var id := o.event.id;
      && ensured == (if id in entries then entries[id] else BlankStatus(id, o.now.blank))
      && next == entries[id := Written(ensured, o.event, o.now.stamp).(lastUpdated := o.now.stamp)]
    ensures StepsTo(entries, o, next)
  {
  }

  // ----- Seeding -----

  /** The last status of each id. */
  function Seeded(statuses: seq<TorrentStatus>): Entries {
    var n := |statuses|;
    if n == 0 then map[] else Seeded(statuses[..n - 1])[statuses[n - 1].id := statuses[n - 1]]
  }

  /** Of several statuses of one id the last is kept. */
  lemma {:induction false} SeededLast(statuses: seq<TorrentStatus>, k: nat)
    requires k < |statuses| && forall j :: k < j < |statuses| ==> statuses[j].id != statuses[k].id
    ensures Find(Seeded(statuses), statuses[k].id) == Some(statuses[k])
  {
    var n := |statuses|;
    if k < n - 1 { SeededLast(statuses[..n - 1], k); }
  }

  lemma {:induction false} SeededKeyed(statuses: seq<TorrentStatus>)
    ensures Keyed(Seeded(statuses))
  {
    var n := |statuses|;
    if n > 0 { SeededKeyed(statuses[..n - 1]); }
  }

  /** Seeding from the rows of a keyed map, in any order, rebuilds the map. */
  lemma {:induction false} SeededFromRows(statuses: seq<TorrentStatus>, entries: Entries)
    requires Keyed(entries) && forall s :: s in statuses <==> s in entries.Values
    ensures Seeded(statuses) == entries
  {
    forall id | id in entries ensures id in Seeded(statuses) && Seeded(statuses)[id] == entries[id] {
      SeededHolds(statuses, entries[id], entries);
    }
    forall id | id in Seeded(statuses) ensures id in entries {
      SeededFrom(statuses, id);
    }
  }

  lemma {:induction false} SeededHolds(statuses: seq<TorrentStatus>, s: TorrentStatus, entries: Entries)
    requires Keyed(entries) && s in statuses && forall t :: t in statuses ==> t in entries.Values
    ensures s.id in Seeded(statuses) && Seeded(statuses)[s.id] == s
  {
    var n := |statuses|;
    var last := statuses[n - 1];
    assert last in statuses;
    if last.id == s.id {
      assert s == last;
    } else {
      assert s in statuses[..n - 1] by { assert statuses == statuses[..n - 1] + [last]; }
      SeededHolds(statuses[..n - 1], s, entries);
    }
  }

  lemma {:induction false} SeededFrom(statuses: seq<TorrentStatus>, id: Uuid)
    requires id in Seeded(statuses)
    ensures Seeded(statuses)[id].id == id && Seeded(statuses)[id] in statuses
  {
    var n := |statuses|;
    if statuses[n - 1].id != id { SeededFrom(statuses[..n - 1], id); }
  }

  // ----- The catalog -----

  class TorrentCatalog {
    var entries: Entries

    constructor ()
      ensures entries == map[] && Keyed(entries)
    {
      entries := map[];
    }

    method Seed(statuses: seq<TorrentStatus>)
      modifies this
      ensures entries == Seeded(statuses) && Keyed(entries)
    {
      entries := map[];
      for i := 0 to |statuses|
        invariant entries == Seeded(statuses[..i])
      {
        assert statuses[..i + 1][..i] == statuses[..i];
        entries := entries[statuses[i].id := statuses[i]];
      }
      assert statuses[..|statuses|] == statuses;
      SeededKeyed(statuses);
    }

    method Observe(event: Event, now: Clock)
      modifies this
      ensures StepsTo(old(entries), Observed(event, now), entries)
      ensures old(Keyed(entries)) ==> Keyed(entries)
    {
      ghost var before := entries;
      if event.FilesDiscovered? && event.files == [] {
        return;
      }
      ApplyEvent(event, now);
      if Keyed(before) { StepsKeepKeys(before, Observed(event, now), entries); }
    }

    method Get(id: Uuid) returns (status: Option<TorrentStatus>)
      ensures status == Find(entries, id)
    {
      status := if id in entries then Some(entries[id]) else None;
    }

    /** Hash-map iteration: the values in any order. */
    method Values() returns (values: seq<TorrentStatus>)
      requires Keyed(entries)
      ensures DistinctIds(values)
      ensures forall s :: s in values <==> s in entries.Values
    {
      values := [];
      var left := entries.Keys;
      while left != {}
        invariant left <= entries.Keys
        invariant DistinctIds(values)
        invariant forall s :: s in values <==> exists id :: id in entries.Keys - left && entries[id] == s
        decreases left
      {
        var id :| id in left;
        forall s | s in values ensures s.id != id {}
        values := values + [entries[id]];
        left := left - {id};
      }
    }

    method List() returns (items: seq<TorrentStatus>)
      requires Keyed(entries)
      ensures IsListing(entries, items)
    {
      var values := Values();
      SortedListing(entries, values);
      items := StableSort(values, StatusBefore);
    }

    method ApplyEvent(event: Event, now: Clock)
      requires event.FilesDiscovered? ==> event.files != []
      modifies this
      ensures StepsTo(old(entries), Observed(event, now), entries)
    {
      match event
      case TorrentAdded(id, name) => RecordTorrentAdded(id, name, now);
      case FilesDiscovered(id, files) => RecordFilesDiscovered(id, files, now);
      case ProgressMade(id, progress, rates) => RecordProgress(id, progress, rates, now);
      case StateChanged(id, state) => RecordStateChange(id, state, now);
      case Completed(id, path) => RecordCompletion(id, path, now);
      case MetadataUpdated(id, name, dir, comment, source, private) =>
        RecordMetadata(id, name, dir, comment, source, private, now);
      case TorrentRemoved(id) => entries := entries - {id};
      case FsopsFailed(id, message) => RecordFsopsFailure(id, message, now);
      case FsopsStarted(id) => TouchEntry(id, now);
      case FsopsCompleted(id) => TouchEntry(id, now);
      case FsopsProgress(id, _) => TouchEntry(id, now);
      case SettingsChanged(_) =>
      case HealthChanged(_) =>
      case SelectionReconciled(_, _) =>
    }

    method EnsureEntry(id: Uuid, blank: Instant) returns (entry: TorrentStatus)
      modifies this
      ensures entry == if id in old(entries) then old(entries)[id] else BlankStatus(id, blank)
      ensures entries == old(entries)[id := entry]
    {
      if id !in entries {
        entries := entries[id := BlankStatus(id, blank)];
      }
      entry := entries[id];
    }

    method RecordTorrentAdded(id: Uuid, name: string, now: Clock)
      modifies this
      ensures StepsTo(old(entries), Observed(TorrentAdded(id, name), now), entries)
    {
      var entry := EnsureEntry(id, now.blank);
      entries := entries[id := entry.(
        name := Some(name), state := Queued, progress := NO_PROGRESS, libraryPath := None, comment := None,
        source := None, private := None, rates := NO_RATES, addedAt := now.stamp, lastUpdated := now.stamp)];
    }

    method RecordMetadata(id: Uuid, name: Option<string>, downloadDir: Option<string>, comment: Option<string>,
                          source: Option<string>, private: Option<bool>, now: Clock)
      modifies this
      ensures StepsTo(old(entries), Observed(MetadataUpdated(id, name, downloadDir, comment, source, private), now),
          entries)
    {
      ghost var o := Observed(MetadataUpdated(id, name, downloadDir, comment, source, private), now);
      ghost var before := entries;
      var entry := EnsureEntry(id, now.blank);
      ghost var ensured := entry;
      entry := ReplaceGiven(entry, name, downloadDir, comment, source, private);
      entries := entries[id := entry.(lastUpdated := now.stamp)];
      hide StepsTo;
      MetadataStep(before, o, ensured, entries);
    }

    /** The five `if let` of `record_metadata`. */
    method ReplaceGiven(entry: TorrentStatus, name: Option<string>, downloadDir: Option<string>,
                        comment: Option<string>, source: Option<string>, private: Option<bool>)
      returns (r: TorrentStatus)
      ensures r == entry.(name := name.Or(entry.name), downloadDir := downloadDir.Or(entry.downloadDir),
                          comment := comment.Or(entry.comment), source := source.Or(entry.source),
                          private := private.Or(entry.private))
    {
      r := entry;
      if name.Some? { r := r.(name := name); }
      if downloadDir.Some? { r := r.(downloadDir := downloadDir); }
      if comment.Some? { r := r.(comment := comment); }
      if source.Some? { r := r.(source := source); }
      if private.Some? { r := r.(private := private); }
    }

    method RecordFilesDiscovered(id: Uuid, files: seq<DiscoveredFile>, now: Clock)
      requires files != []
      modifies this
      ensures StepsTo(old(entries), Observed(FilesDiscovered(id, files), now), entries)
    {
      var entry := EnsureEntry(id, now.blank);
      entries := entries[id := entry.(files := Some(MapDiscoveredFiles(files)), lastUpdated := now.stamp)];
    }

    method RecordProgress(id: Uuid, progress: Progress, rates: Rates, now: Clock)
      modifies this
      ensures StepsTo(old(entries), Observed(ProgressMade(id, progress, rates), now), entries)
    {
      var entry := EnsureEntry(id, now.blank);
      var ratio := if IsFinite(rates.ratio) then rates.ratio else ZERO;
      entries := entries[id := entry.(
        progress := progress, rates := Rates(rates.downloadBps, rates.uploadBps, ratio), lastUpdated := now.stamp)];
    }

    method RecordStateChange(id: Uuid, state: TorrentState, now: Clock)
      modifies this
      ensures StepsTo(old(entries), Observed(StateChanged(id, state), now), entries)
    {
      var entry := EnsureEntry(id, now.blank);
      entries := entries[id := entry.(state := state, lastUpdated := now.stamp)];
    }

    method RecordCompletion(id: Uuid, libraryPath: string, now: Clock)
      modifies this
      ensures StepsTo(old(entries), Observed(Completed(id, libraryPath), now), entries)
    {
      var entry := EnsureEntry(id, now.blank);
      entries := entries[id := entry.(
        state := Done, libraryPath := Some(libraryPath), completedAt := Some(now.stamp), lastUpdated := now.stamp)];
    }

    method RecordFsopsFailure(id: Uuid, message: string, now: Clock)
      modifies this
      ensures StepsTo(old(entries), Observed(FsopsFailed(id, message), now), entries)
    {
      var entry := EnsureEntry(id, now.blank);
      entries := entries[id := entry.(state := Failed(message), lastUpdated := now.stamp)];
    }

    method TouchEntry(id: Uuid, now: Clock)
      modifies this
      ensures forall o :: o in {FsopsStarted(id), FsopsCompleted(id)} || (o.FsopsProgress? && o.id == id) ==>
        StepsTo(old(entries), Observed(o, now), entries)
    {
      var entry := EnsureEntry(id, now.blank);
      entries := entries[id := entry.(lastUpdated := now.stamp)];
    }
  }
}
