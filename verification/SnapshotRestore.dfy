/** The first two phases of a restore: tags and rate limits. */
module SnapshotRestore {
  import opened Basics
  import opened Ordering
  import opened IndexerRecords
  import opened IndexerStore
  import opened StoreOperations
  import opened Restore
  import opened PolicyRestore

  // ----- Tags -----

  ghost predicate TagsHeld(st: Store, tags: seq<TagItem>) {
    forall t :: t in tags <==> t.key in st.tags && st.tags[t.key] == t.displayName
  }

  lemma {:induction false} TagsRestored(st: Store, tags: seq<TagItem>, count: nat, made: seq<TagItem>)
    requires TagsHeld(st, made) && AscendingBy(made + tags, TagBefore) && st.deletedTags == {}
    ensures var r := RestoreTags(st, tags, count);
      r.Done? && r.value == count + |tags| && TagsHeld(r.st, made + tags) && r.st == st.(tags := r.st.tags)
    decreases |tags|
  {
    if tags == [] {
      assert made + tags == made;
    } else {
      var tag, rest := tags[0], tags[1..];
      forall m | m in made ensures m.key != tag.key {
        var i :| 0 <= i < |made| && made[i] == m;
        assert TagBefore((made + tags)[i], (made + tags)[|made|]);
        StrLessIrreflexive(tag.key);
      }
      assert forall k :: k in st.tags ==> TagItem(k, st.tags[k]) in made;
      var st' := st.(tags := st.tags[tag.key := tag.displayName]);
      assert TagsHeld(st', made + [tag]);
      assert made + [tag] + rest == made + tags;
      TagsRestored(st', rest, count + 1, made + [tag]);
    }
  }

  // ----- Rate limits -----

  predicate Bears(st: Store, id: Uuid, item: RateLimitItem) {
    id in st.rateLimits && RateLimitItemOf(st.rateLimits[id]) == item
  }

  function NonSystem(items: seq<RateLimitItem>): nat {
    var n := |items|;
    if n == 0 then 0 else NonSystem(items[..n - 1]) + if items[n - 1].isSystem then 0 else 1
  }

  /** It counts the limits of the list that are not system limits. */
  lemma {:induction false} NonSystemCounted(items: seq<RateLimitItem>)
    ensures NonSystem(items) == |set i | 0 <= i < |items| && !items[i].isSystem|
  {
    var n := |items|;
    var counted := set i | 0 <= i < n && !items[i].isSystem;
    if n > 0 {
      NonSystemCounted(items[..n - 1]);
      var front := items[..n - 1];
      var before := set i | 0 <= i < |front| && !front[i].isSystem;
      assert forall i :: 0 <= i < n - 1 ==> front[i] == items[i];
      assert counted == before + if items[n - 1].isSystem then {} else {n - 1};
    } else {
      assert counted == {};
    }
  }

  /** A limit the restore can recreate, or find among the system limits of the store. */
  ghost predicate RateLimitItemOk(st: Store, system: Ids, item: RateLimitItem) {
    if item.isSystem then item.displayName in system && Bears(st, system[item.displayName], item)
    else LimitsInRange(item.requestsPerMinute, item.burst, item.concurrentRequests)
  }

  /** Every listed limit is there, and every limit is seeded or listed. */
  ghost predicate LimitsHeld(base: Store, st: Store, done: seq<RateLimitItem>) {
    && (forall item :: item in done ==> exists id :: Bears(st, id, item))
    && (forall id :: id in st.rateLimits ==> id in base.rateLimits || RateLimitItemOf(st.rateLimits[id]) in done)
  }

  ghost predicate SeedKept(base: Store, st: Store) {
    && (forall id :: id in base.rateLimits ==> id in st.rateLimits && st.rateLimits[id] == base.rateLimits[id])
    && (forall id :: id in st.rateLimits ==> id < st.nextId)
  }

  ghost predicate NamesMade(st: Store, ids: Ids, done: seq<RateLimitItem>) {
    LimitsResolve(st, ids) && forall n :: n in ids <==> exists item :: item in done && item.displayName == n
  }

  ghost predicate LimitsMade(base: Store, st: Store, made: Created, done: seq<RateLimitItem>) {
    LimitsHeld(base, st, done) && SeedKept(base, st) && NamesMade(st, made.ids, done) && made.count == NonSystem(done)
  }

  /** Every limit of the bare store is one of the system limits in the list. */
  ghost predicate SystemLimitsListed(base: Store, items: seq<RateLimitItem>) {
    forall id :: id in base.rateLimits ==> base.rateLimits[id].isSystem && RateLimitItemOf(base.rateLimits[id]) in items
  }

  lemma SameNameSameLimit(all: seq<RateLimitItem>, a: RateLimitItem, b: RateLimitItem)
    requires AscendingBy(all, RateLimitBefore) && a in all && b in all && a.displayName == b.displayName
    ensures a == b
  {
    var i :| 0 <= i < |all| && all[i] == a;
    var j :| 0 <= j < |all| && all[j] == b;
    StrLessIrreflexive(a.displayName);
    assert i == j;
  }

  lemma FreshLimitName(base: Store, st: Store, made: Created, done: seq<RateLimitItem>, item: RateLimitItem,
      all: seq<RateLimitItem>)
    requires LimitsMade(base, st, made, done) && SystemLimitsListed(base, all) && AscendingBy(all, RateLimitBefore)
    requires st.deletedLimits == map[] && item in all && !item.isSystem
    requires forall m :: m in done ==> m.displayName != item.displayName
    ensures !RateLimitNamed(st, item.displayName)
  {
    forall id | id in st.rateLimits ensures st.rateLimits[id].displayName != item.displayName {
      if id in base.rateLimits && st.rateLimits[id].displayName == item.displayName {
        var other := RateLimitItemOf(base.rateLimits[id]);
        SameNameSameLimit(all, other, item);
      }
    }
  }

  function NewLimit(item: RateLimitItem): RateLimit {
    RateLimit(item.displayName, item.requestsPerMinute, item.burst, item.concurrentRequests, false)
  }

  function WithLimit(st: Store, limit: RateLimit): Store {
    st.(rateLimits := st.rateLimits[st.nextId := limit], nextId := st.nextId + 1)
  }

  lemma LimitHeld(base: Store, st: Store, done: seq<RateLimitItem>, item: RateLimitItem)
    requires LimitsHeld(base, st, done) && SeedKept(base, st) && !item.isSystem
    ensures LimitsHeld(base, WithLimit(st, NewLimit(item)), done + [item])
  {
    var st' := WithLimit(st, NewLimit(item));
    assert Bears(st', st.nextId, item);
    forall m | m in done ensures exists id :: Bears(st', id, m) {
      var id :| Bears(st, id, m);
      assert Bears(st', id, m);
    }
  }

  lemma LimitNamed(st: Store, limit: RateLimit, ids: Ids, done: seq<RateLimitItem>, item: RateLimitItem)
    requires NamesMade(st, ids, done) && limit.displayName == item.displayName
    requires forall id :: id in st.rateLimits ==> id < st.nextId
    ensures NamesMade(WithLimit(st, limit), ids[item.displayName := st.nextId], done + [item])
  {
    assert forall m :: m in done + [item] <==> m in done || m == item;
  }

  lemma LimitCreated(base: Store, st: Store, made: Created, done: seq<RateLimitItem>, item: RateLimitItem)
    requires LimitsMade(base, st, made, done) && !item.isSystem
    ensures LimitsMade(base, WithLimit(st, NewLimit(item)),
                       Created(made.count + 1, made.ids[item.displayName := st.nextId]), done + [item])
  {
    LimitHeld(base, st, done, item);
    LimitNamed(st, NewLimit(item), made.ids, done, item);
    assert (done + [item])[..|done|] == done;
    hide LimitsHeld, NamesMade;
  }

  lemma LimitFound(base: Store, st: Store, made: Created, done: seq<RateLimitItem>, item: RateLimitItem, system: Ids)
    requires LimitsMade(base, st, made, done) && item.isSystem && RateLimitItemOk(base, system, item)
    ensures LimitsMade(base, st, made.(ids := made.ids[item.displayName := system[item.displayName]]), done + [item])
  {
    assert (done + [item])[..|done|] == done;
    assert Bears(st, system[item.displayName], item);
    assert forall m :: m in done + [item] <==> m in done || m == item;
  }

  /** The first limits of a list are created, or found by name among the system limits. */
  lemma {:induction false} LimitsRestored(base: Store, st: Store, system: Ids, items: seq<RateLimitItem>,
      made: Created, done: seq<RateLimitItem>, later: seq<RateLimitItem>)
    requires LimitsMade(base, st, made, done) && st.deletedLimits == map[]
    requires AscendingBy(done + items + later, RateLimitBefore) && SystemLimitsListed(base, done + items + later)
    requires forall i :: 0 <= i < |items| ==> RateLimitItemOk(base, system, items[i])
    ensures var r := RestoreRateLimits(st, system, items, made);
      r.Done? && LimitsMade(base, r.st, r.value, done + items)
      && r.st == st.(rateLimits := r.st.rateLimits, nextId := r.st.nextId)
    decreases |items|
  {
    hide LimitsMade, RateLimitNamed, SystemLimitsListed;
    if items == [] {
      assert done + items == done;
    } else {
      var item, rest := items[0], items[1..];
      var all := done + items + later;
      assert done + [item] + rest == done + items && done + [item] + rest + later == all;
      forall m | m in done ensures m.displayName != item.displayName {
        var i :| 0 <= i < |done| && done[i] == m;
        assert RateLimitBefore(all[i], all[|done|]);
        StrLessIrreflexive(item.displayName);
      }
      if item.isSystem {
        LimitFound(base, st, made, done, item, system);
        LimitsRestored(base, st, system, rest, made.(ids := made.ids[item.displayName := system[item.displayName]]),
            done + [item], later);
      } else {
        assert all[|done|] == item;
        FreshLimitName(base, st, made, done, item, all);
        LimitCreated(base, st, made, done, item);
        LimitsRestored(base, WithLimit(st, NewLimit(item)), system, rest,
            Created(made.count + 1, made.ids[item.displayName := st.nextId]), done + [item], later);
      }
    }
  }

  // ----- Refused tags -----

  /** The key of the tag is in use when its turn comes: by the store, by a deleted tag or by an earlier one. */
  predicate Taken(st: Store, tags: seq<TagItem>, k: nat)
    requires k < |tags|
  {
    || tags[k].key in st.tags || tags[k].key in st.deletedTags
    || exists j :: 0 <= j < k && tags[j].key == tags[k].key
  }

  lemma TakenLater(st: Store, tags: seq<TagItem>, j: nat)
    requires j + 1 < |tags|
    ensures var st' := st.(tags := st.tags[tags[0].key := tags[0].displayName]);
      Taken(st', tags[1..], j) <==> Taken(st, tags, j + 1)
  {
    var rest := tags[1..];
    if i :| 0 <= i < j + 1 && tags[i].key == tags[j + 1].key {
      if i > 0 { assert rest[i - 1].key == rest[j].key; }
    }
    if i :| 0 <= i < j && rest[i].key == rest[j].key { assert tags[i + 1].key == tags[j + 1].key; }
  }

  /** The first tag whose key is taken stops the phase; the tags before it stay. */
  lemma {:induction false} TagsStop(st: Store, tags: seq<TagItem>, count: nat, k: nat)
    requires k <= |tags| && (forall j :: 0 <= j < k ==> !Taken(st, tags, j)) && (k < |tags| ==> Taken(st, tags, k))
    ensures var r := RestoreTags(st, tags, count);
      && (if k == |tags| then r.Done? && r.value == count + k else r.Failed? && r.code == TagKeyAlreadyExists)
      && r.st == st.(tags := r.st.tags)
      && (forall key :: key in r.st.tags <==> key in st.tags || exists j :: 0 <= j < k && tags[j].key == key)
      && (forall key :: key in st.tags ==> r.st.tags[key] == st.tags[key])
      && (forall j :: 0 <= j < k ==> r.st.tags[tags[j].key] == tags[j].displayName)
    decreases |tags|
  {
    if k > 0 {
      var tag, rest := tags[0], tags[1..];
      assert !Taken(st, tags, 0);
      var st' := st.(tags := st.tags[tag.key := tag.displayName]);
      forall j | 0 <= j < |rest| ensures Taken(st', rest, j) <==> Taken(st, tags, j + 1) {
        TakenLater(st, tags, j);
      }
      TagsStop(st', rest, count + 1, k - 1);
      hide RestoreTags;
      forall j | 0 <= j < k ensures tags[j].key != tag.key || j == 0 { assert !Taken(st, tags, j); }
    }
  }
}
