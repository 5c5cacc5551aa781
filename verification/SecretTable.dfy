/** The secret references collected while rows are folded: `secret_refs.insert(id, ..)`. */
module SecretTable {
  import opened Basics
  import opened Ordering
  import opened RowFolds
  import opened IndexerRecords

  type Secrets = map<Uuid, SecretRef>

  function Insert(refs: Secrets, secret: Option<SecretRef>): Secrets {
    if secret.None? then refs else refs[secret.value.id := secret.value]
  }

  /** Each row that types a secret overwrites the entry of that secret. */
  function Collect<R>(refs: Secrets, rows: seq<R>, pick: R -> Option<SecretRef>): Secrets {
    var n := |rows|;
    if n == 0 then refs else Insert(Collect(refs, rows[..n - 1], pick), pick(rows[n - 1]))
  }

  lemma CollectNone<R>(refs: Secrets, pick: R -> Option<SecretRef>)
    ensures Collect(refs, [], pick) == refs
  {
  }

  lemma CollectSnoc<R>(refs: Secrets, rows: seq<R>, row: R, pick: R -> Option<SecretRef>)
    ensures Collect(refs, rows + [row], pick) == Insert(Collect(refs, rows, pick), pick(row))
  {
    assert (rows + [row])[..|rows|] == rows;
  }

  ghost predicate Keyed(refs: Secrets) {
    forall id :: id in refs ==> refs[id].id == id
  }

  /** The column that types one secret. */
  function At<R>(pick: R -> Option<SecretRef>, id: Uuid): R -> Option<SecretRef> {
    r => if pick(r).Some? && pick(r).value.id == id then pick(r) else None
  }

  function Find(refs: Secrets, id: Uuid): Option<SecretRef> {
    if id in refs then Some(refs[id]) else None
  }

  /** Under every id the table holds what the last row that types it says, or else what it held before. */
  lemma {:induction false} CollectLast<R>(refs: Secrets, rows: seq<R>, pick: R -> Option<SecretRef>, id: Uuid)
    ensures Find(Collect(refs, rows, pick), id) == LastSome(rows, At(pick, id)).Or(Find(refs, id))
  {
    var n := |rows|;
    if n > 0 { CollectLast(refs, rows[..n - 1], pick, id); }
  }

  lemma {:induction false} CollectKeyed<R>(refs: Secrets, rows: seq<R>, pick: R -> Option<SecretRef>)
    requires Keyed(refs)
    ensures Keyed(Collect(refs, rows, pick))
  {
    var n := |rows|;
    if n > 0 { CollectKeyed(refs, rows[..n - 1], pick); }
  }

  /** The exported secret list: `secret_refs.into_values().collect()`. */
  function Listed(refs: Secrets): seq<SecretRef> {
    NatOrder();
    ValuesInOrder(refs, NatLess)
  }

  lemma ListedAscending(refs: Secrets)
    requires Keyed(refs)
    ensures AscendingBy(Listed(refs), SecretBefore)
    ensures forall s :: s in Listed(refs) <==> s in refs.Values
  {
    NatOrder();
    ValuesInOrderHolds(refs, NatLess);
    ValuesAscending(refs, NatLess, SecretBefore);
  }

  /** The list determines the table. */
  lemma ListedDetermines(refs: Secrets, others: Secrets, id: Uuid)
    requires Keyed(refs) && Keyed(others) && Listed(refs) == Listed(others)
    ensures Find(refs, id) == Find(others, id)
  {
    ListedAscending(refs);
    ListedAscending(others);
    if id in refs { assert refs[id] in Listed(others); }
    if id in others { assert others[id] in Listed(refs); }
  }

  lemma TablesEqual(refs: Secrets, others: Secrets)
    requires forall id :: Find(refs, id) == Find(others, id)
    ensures refs == others
  {
    forall id ensures id in refs <==> id in others {
      assert Find(refs, id) == Find(others, id);
    }
    forall id | id in refs ensures refs[id] == others[id] {
      assert Find(refs, id) == Find(others, id);
    }
  }
}
