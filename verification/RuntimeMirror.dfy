/** The runtime store beside the catalog: every event is written through, and a write may fail. */
module RuntimeMirror {
  import opened Basics
  import opened TorrentEvents
  import opened Catalog
  import opened CatalogRuns

  /** An error may be reported although the write took effect. */
  datatype WriteOutcome = Acknowledged | Errored(applied: bool)

  predicate TakesEffect(w: WriteOutcome) { w.Acknowledged? || w.applied }

  /** One event as the worker handles it: its clock readings and the fate of its write. */
  datatype Input = Input(observed: Observed, write: WriteOutcome)

  /** The catalog in memory and the rows of the store. */
  datatype Mirror = Mirror(catalog: Entries, rows: Entries)

  /** `persist_runtime` issues a write, given the catalog after the event. */
  predicate Attempts(catalog: Entries, event: Event) {
    event.TorrentRemoved? || (EventTorrentId(event).Some? && EventTorrentId(event).value in catalog)
  }

  function Persisted(rows: Entries, catalog: Entries, event: Event, write: WriteOutcome): Entries {
    if !Attempts(catalog, event) || !TakesEffect(write) then rows
    else if event.TorrentRemoved? then rows - {event.id}
    else rows[catalog[event.id].id := catalog[event.id]]
  }

  function MirrorStep(m: Mirror, i: Input): Mirror {
    var catalog := Step(m.catalog, i.observed);
    Mirror(catalog, Persisted(m.rows, catalog, i.observed.event, i.write))
  }

  function MirrorRun(m: Mirror, inputs: seq<Input>): Mirror {
    var n := |inputs|;
    if n == 0 then m else MirrorStep(MirrorRun(m, inputs[..n - 1]), inputs[n - 1])
  }

  /** The event tries to write the row of `id`. */
  predicate AttemptsFor(m: Mirror, i: Input, id: Uuid) {
    EventTorrentId(i.observed.event) == Some(id) && Attempts(Step(m.catalog, i.observed), i.observed.event)
  }

  /** The fate of the last write tried for `id`. */
  function LastAttempt(m: Mirror, inputs: seq<Input>, id: Uuid): Option<WriteOutcome> {
    var n := |inputs|;
    if n == 0 then None
    else if AttemptsFor(MirrorRun(m, inputs[..n - 1]), inputs[n - 1], id) then Some(inputs[n - 1].write)
    else LastAttempt(m, inputs[..n - 1], id)
  }

  /** How many inputs had been handled when a write for `id` last took effect; 0 when none has. */
  function AppliedUpTo(m: Mirror, inputs: seq<Input>, id: Uuid): (k: nat)
    ensures k <= |inputs|
  {
    var n := |inputs|;
    if n == 0 then 0
    else if AttemptsFor(MirrorRun(m, inputs[..n - 1]), inputs[n - 1], id) && inputs[n - 1].write != Errored(false)
    then n
    else AppliedUpTo(m, inputs[..n - 1], id)
  }

  function Observations(inputs: seq<Input>): (r: seq<Observed>)
    ensures |r| == |inputs|
  {
    seq(|inputs|, i requires 0 <= i < |inputs| => inputs[i].observed)
  }

  /** Failing writes never disturb the catalog. */
  lemma {:induction false} CatalogIgnoresWrites(m: Mirror, inputs: seq<Input>)
    ensures MirrorRun(m, inputs).catalog == Run(m.catalog, Observations(inputs))
  {
    var n := |inputs|;
    if n > 0 {
      CatalogIgnoresWrites(m, inputs[..n - 1]);
      assert Observations(inputs)[..n - 1] == Observations(inputs[..n - 1]);
    }
  }

  lemma {:induction false} MirrorKeyed(m: Mirror, inputs: seq<Input>)
    requires Keyed(m.catalog)
    ensures Keyed(MirrorRun(m, inputs).catalog)
  {
    var n := |inputs|;
    if n > 0 { MirrorKeyed(m, inputs[..n - 1]); }
  }

  /** Writes are tried for every event about a torrent that is present after it, and for removals. */
  lemma AttemptsExactly(m: Mirror, i: Input, id: Uuid)
    ensures var event := i.observed.event;
      AttemptsFor(m, i, id) <==>
        && !event.SettingsChanged? && !event.HealthChanged? && event.id == id
        && (event.TorrentRemoved? || id in Step(m.catalog, i.observed))
  {
  }

  /** The event leaves the entry of `id` alone unless it also tries to write its row. */
  lemma StepMirrors(m: Mirror, i: Input, id: Uuid)
    requires Keyed(m.catalog)
    ensures var next := MirrorStep(m, i);
      if AttemptsFor(m, i, id) && TakesEffect(i.write) then Find(next.rows, id) == Find(next.catalog, id)
      else Find(next.rows, id) == Find(m.rows, id)
    ensures !AttemptsFor(m, i, id) ==> Find(MirrorStep(m, i).catalog, id) == Find(m.catalog, id)
  {
  }

  /** Whatever writes fail, the stored row of a torrent is its catalog entry as it was when a write
      for it last took effect. */
  lemma {:induction false} RowsAreSnapshots(m: Mirror, inputs: seq<Input>, id: Uuid)
    requires Keyed(m.catalog)
    ensures var k := AppliedUpTo(m, inputs, id);
      Find(MirrorRun(m, inputs).rows, id) ==
        if k == 0 then Find(m.rows, id) else Find(MirrorRun(m, inputs[..k]).catalog, id)
  {
    var n := |inputs|;
    if n > 0 {
      var front := inputs[..n - 1];
      RowsAreSnapshots(m, front, id);
      MirrorKeyed(m, front);
      StepMirrors(MirrorRun(m, front), inputs[n - 1], id);
      var k := AppliedUpTo(m, inputs, id);
      if k == n { assert inputs[..n] == inputs; } else { assert inputs[..k] == front[..k]; }
    }
  }

  /** After any run with any failures, store and catalog agree on every torrent whose last write was
      acknowledged; a torrent no write was tried for is as it was at the start on both sides. */
  lemma {:induction false} MirrorAgrees(m: Mirror, inputs: seq<Input>, id: Uuid)
    requires Keyed(m.catalog)
    ensures var end, last := MirrorRun(m, inputs), LastAttempt(m, inputs, id);
      && (last.Some? && last.value.Acknowledged? ==> Find(end.rows, id) == Find(end.catalog, id))
      && (last.None? ==> Find(end.rows, id) == Find(m.rows, id) && Find(end.catalog, id) == Find(m.catalog, id))
  {
    var n := |inputs|;
    if n > 0 {
      var front := inputs[..n - 1];
      MirrorAgrees(m, front, id);
      MirrorKeyed(m, front);
      StepMirrors(MirrorRun(m, front), inputs[n - 1], id);
    }
  }

  predicate AllAcknowledged(inputs: seq<Input>) {
    forall i :: i in inputs ==> i.write.Acknowledged?
  }

  lemma {:induction false} AcknowledgedAttempt(m: Mirror, inputs: seq<Input>, id: Uuid)
    requires AllAcknowledged(inputs)
    ensures var last := LastAttempt(m, inputs, id); last.None? || last.value.Acknowledged?
  {
    var n := |inputs|;
    if n > 0 {
      assert inputs[n - 1] in inputs;
      AcknowledgedAttempt(m, inputs[..n - 1], id);
    }
  }

  /** When no write fails, seeding a fresh catalog from the stored rows, in whatever order they are
      loaded, rebuilds the catalog. */
  lemma ReseedingRebuilds(catalog: Entries, inputs: seq<Input>, loaded: seq<TorrentStatus>)
    requires Keyed(catalog) && AllAcknowledged(inputs)
    requires forall s :: s in loaded <==> s in MirrorRun(Mirror(catalog, catalog), inputs).rows.Values
    ensures Seeded(loaded) == MirrorRun(Mirror(catalog, catalog), inputs).catalog
  {
    var m := Mirror(catalog, catalog);
    var end := MirrorRun(m, inputs);
    forall id: Uuid ensures Find(end.rows, id) == Find(end.catalog, id) {
      AcknowledgedAttempt(m, inputs, id);
      MirrorAgrees(m, inputs, id);
    }
    SameEntries(end.rows, end.catalog);
    MirrorKeyed(m, inputs);
    SeededFromRows(loaded, end.catalog);
  }

  /** A removal whose write is lost comes back at the next start. */
  lemma LostRemovalReturns(catalog: Entries, id: Uuid, now: Clock, loaded: seq<TorrentStatus>)
    requires Keyed(catalog) && id in catalog
    requires var end := MirrorStep(Mirror(catalog, catalog), Input(Observed(TorrentRemoved(id), now), Errored(false)));
      forall s :: s in loaded <==> s in end.rows.Values
    ensures id !in Step(catalog, Observed(TorrentRemoved(id), now))
    ensures id in Seeded(loaded) && Seeded(loaded)[id] == catalog[id]
  {
    SeededFromRows(loaded, catalog);
  }
}
